/** The entity model shared by every repository backend: lyrics, playlists,
    their identifier-less post payloads, title summaries, and the
    order-preserving `without` filter used by the delete cascade. */
module Types {
  import opened Uuids
  import opened Wrappers
  import opened Seqs

  /** A lyric: a title and its parts (stanzas of lines). */
  datatype Lyric = Lyric(id: Uuid, title: string, parts: seq<seq<string>>)

  /** The payload of a lyric without its identifier. */
  datatype LyricPost = LyricPost(title: string, parts: seq<seq<string>>)

  /** A playlist: a title and the ordered, possibly repeating, member ids. */
  datatype Playlist = Playlist(id: Uuid, title: string, members: seq<Uuid>)

  /** The payload of a playlist without its identifier. */
  datatype PlaylistPost = PlaylistPost(title: string, members: seq<Uuid>)

  /** Identifier and title of a lyric or playlist, for list views. */
  datatype Summary = Summary(id: Uuid, title: string)

  /** A lyric's title with an optional content hash (its etag). */
  datatype LyricMeta = LyricMeta(title: string, hash: Option<string>)

  /** A whole store as two collections, the shape the snapshot codec exchanges. */
  datatype RepoDb = RepoDb(lyrics: seq<Lyric>, playlists: seq<Playlist>)

  // ---------------------------------------------------------------------
  // Lyric conversions

  /** `LyricPost::default()`: the empty lyric payload. */
  function DefaultLyricPost(): (p: LyricPost)
    ensures |p.title| == 0 && |p.parts| == 0
  {
    LyricPost("", [])
  }

  /** `Lyric::from((LyricPost, Uuid))`: attach the given identifier. */
  function LyricFromPost(post: LyricPost, id: Uuid): (l: Lyric)
    ensures l.id == id
    ensures l.title == post.title && l.parts == post.parts
  {
    Lyric(id, post.title, post.parts)
  }

  /** `Lyric::from((Option<Uuid>, LyricPost))`: keep the given identifier, or
      take `freshId` (the `unwrap_or_default` value) when there is none. */
  function LyricFromOptionalId(id: Option<Uuid>, post: LyricPost, freshId: Uuid): (l: Lyric)
    ensures id.Some? ==> l.id == id.value
    ensures id.None? ==> l.id == freshId
    ensures LyricPostOf(l) == post
  {
    LyricFromPost(post, id.UnwrapOr(freshId))
  }

  /** `LyricPost::from(Lyric)`: drop the identifier; attaching it again
      restores the lyric. */
  function LyricPostOf(l: Lyric): (post: LyricPost)
    ensures LyricFromPost(post, l.id) == l
  {
    LyricPost(l.title, l.parts)
  }

  /** Splitting a lyric into identifier and payload and joining them again
      gives back the same lyric, whatever fresh identifier is on offer. */
  lemma LyricRoundTrip(l: Lyric, freshId: Uuid)
    ensures LyricFromOptionalId(Some(l.id), LyricPostOf(l), freshId) == l
  {
  }

  // ---------------------------------------------------------------------
  // Playlist conversions

  /** `Playlist::from((PlaylistPost, Uuid))`: attach the given identifier. */
  function PlaylistFromPost(post: PlaylistPost, id: Uuid): (p: Playlist)
    ensures p.id == id
    ensures p.title == post.title && p.members == post.members
  {
    Playlist(id, post.title, post.members)
  }

  /** `Playlist::from((Option<Uuid>, PlaylistPost))`. */
  function PlaylistFromOptionalId(id: Option<Uuid>, post: PlaylistPost, freshId: Uuid): (p: Playlist)
    ensures id.Some? ==> p.id == id.value
    ensures id.None? ==> p.id == freshId
    ensures PlaylistPostOf(p) == post
  {
    PlaylistFromPost(post, id.UnwrapOr(freshId))
  }

  /** `Playlist::from(PlaylistPost)`: a playlist under a fresh identifier. */
  function PlaylistFromFreshPost(post: PlaylistPost, freshId: Uuid): (p: Playlist)
    ensures p.id == freshId && p.title == post.title && p.members == post.members
  {
    PlaylistFromOptionalId(None, post, freshId)
  }

  /** `PlaylistPost::from(Playlist)`: drop the identifier; attaching it
      again restores the playlist. */
  function PlaylistPostOf(p: Playlist): (post: PlaylistPost)
    ensures PlaylistFromPost(post, p.id) == p
  {
    PlaylistPost(p.title, p.members)
  }

  lemma PlaylistRoundTrip(p: Playlist, freshId: Uuid)
    ensures PlaylistFromOptionalId(Some(p.id), PlaylistPostOf(p), freshId) == p
  {
  }

  // ---------------------------------------------------------------------
  // Summaries

  /** `HasSummary for Playlist`. */
  function PlaylistSummary(p: Playlist): (s: Summary)
    ensures s.id == p.id && s.title == p.title
  {
    Summary(p.id, p.title)
  }

  /** `From<(LyricMeta, Uuid)> for Summary`: the given identifier with the
      meta's title; the hash is dropped. */
  function SummaryFromMeta(meta: LyricMeta, id: Uuid): (s: Summary)
    ensures s.id == id && s.title == meta.title
  {
    Summary(id, meta.title)
  }

  /** `From<&Lyric> for LyricMeta`: the lyric's title with its etag. The
      etag is computed from a bincode encoding, so it is passed in as
      `hash`. */
  function LyricMetaOf(l: Lyric, hash: Option<string>): (meta: LyricMeta)
    ensures meta.title == l.title && meta.hash == hash
  {
    LyricMeta(l.title, hash)
  }

  /** `HasSummary for Summary`: a summary is its own summary. */
  function SummarySummary(s: Summary): (r: Summary)
    ensures r == s
  {
    s
  }

  /** `summaries`: the summary of every element, in the same order. The
      `HasSummary` implementation is passed as `summary`. */
  function Summaries<T>(list: seq<T>, summary: T -> Summary): (r: seq<Summary>)
    ensures |r| == |list|
    ensures forall i :: 0 <= i < |list| ==> r[i] == summary(list[i])
  {
    MapEach(list, summary)
  }

  /** `ids`: the identifier of every element's summary, in the same order. */
  function Ids<T>(list: seq<T>, summary: T -> Summary): (r: seq<Uuid>)
    ensures |r| == |list|
    ensures forall i :: 0 <= i < |list| ==> r[i] == summary(list[i]).id
  {
    MapEach(list, (t: T) => summary(t).id)
  }

  /** Summarising a list of summaries changes nothing. */
  lemma SummariesOfSummaries(ss: seq<Summary>)
    ensures Summaries(ss, SummarySummary) == ss
  {
  }

  /** `ids` is the identifier column of `summaries`. */
  lemma IdsOfSummaries<T>(list: seq<T>, summary: T -> Summary)
    ensures forall i :: 0 <= i < |list| ==> Ids(list, summary)[i] == Summaries(list, summary)[i].id
  {
  }

  // ---------------------------------------------------------------------
  // Without

  /** `Without for Vec<T>`: every element not equal to `t`, in order. */
  function Without<T(==, !new)>(v: seq<T>, t: T): (r: seq<T>)
    ensures t !in r
    ensures forall x :: x in r <==> x in v && x != t
    ensures |r| == |v| - multiset(v)[t]
    ensures forall x :: x != t ==> multiset(r)[x] == multiset(v)[x]
  {
    if |v| == 0 then []
    else
      assert v == [v[0]] + v[1..];
      if v[0] == t then Without(v[1..], t) else [v[0]] + Without(v[1..], t)
  }

  /** `a` keeps the relative order of the elements of `b` it is taken from. */
  predicate IsSubsequence<T(==, !new)>(a: seq<T>, b: seq<T>) {
    if |a| == 0 then true
    else if |b| == 0 then false
    else if a[0] == b[0] then IsSubsequence(a[1..], b[1..])
    else IsSubsequence(a, b[1..])
  }

  /** Filtering keeps the surviving elements in their original order. */
  lemma {:induction false} WithoutIsSubsequence<T(!new)>(v: seq<T>, t: T)
    ensures IsSubsequence(Without(v, t), v)
  {
    if |v| != 0 {
      WithoutIsSubsequence(v[1..], t);
      if v[0] != t {
        var r := Without(v, t);
        assert r[0] == v[0] && r[1..] == Without(v[1..], t);
      } else {
        SubsequenceOfTail(Without(v[1..], t), v);
      }
    }
  }

  /** A subsequence of the tail is a subsequence of the whole. */
  lemma {:induction false} SubsequenceOfTail<T(!new)>(a: seq<T>, b: seq<T>)
    requires |b| > 0 && IsSubsequence(a, b[1..])
    ensures IsSubsequence(a, b)
    decreases |b|, 0
  {
    if |a| != 0 && a[0] == b[0] {
      // Both `a[1..]` within `b[1..]` and `a` within `b[1..]` follow from the hypothesis.
      SubsequenceDropHead(a, b[1..]);
    }
  }

  /** Dropping the first element of a subsequence keeps it a subsequence. */
  lemma {:induction false} SubsequenceDropHead<T(!new)>(a: seq<T>, b: seq<T>)
    requires |a| > 0 && IsSubsequence(a, b)
    ensures IsSubsequence(a[1..], b)
    decreases |b|, 1
  {
    if a[0] == b[0] {
      if |a[1..]| != 0 {
        SubsequenceOfTail(a[1..], b);
      }
    } else {
      SubsequenceDropHead(a, b[1..]);
      if |a[1..]| != 0 {
        SubsequenceOfTail(a[1..], b);
      }
    }
  }

  /** Filtering distributes over concatenation, so it is order-preserving
      piece by piece. */
  lemma {:induction false} WithoutAppend<T(!new)>(a: seq<T>, b: seq<T>, t: T)
    ensures Without(a + b, t) == Without(a, t) + Without(b, t)
  {
    if |a| != 0 {
      assert a + b == [a[0]] + (a[1..] + b);
      WithoutAppend(a[1..], b, t);
      if a[0] != t {
        calc {
          Without(a + b, t);
          [a[0]] + Without(a[1..] + b, t);
          [a[0]] + (Without(a[1..], t) + Without(b, t));
          ([a[0]] + Without(a[1..], t)) + Without(b, t);
        }
      }
    } else {
      assert a + b == b;
    }
  }

  /** When `t` does not occur, nothing is removed. */
  lemma {:induction false} WithoutAbsent<T(!new)>(v: seq<T>, t: T)
    requires t !in v
    ensures Without(v, t) == v
  {
    if |v| != 0 {
      assert v[0] != t;
      WithoutAbsent(v[1..], t);
      assert v == [v[0]] + v[1..];
    }
  }

  /** Removing the same element twice is the same as removing it once. */
  lemma WithoutIdempotent<T(!new)>(v: seq<T>, t: T)
    ensures Without(Without(v, t), t) == Without(v, t)
  {
    WithoutAbsent(Without(v, t), t);
  }

  /** The example from the crate's unit test. */
  lemma WithoutExample()
    ensures Without(["1", "2", "5"], "2") == ["1", "5"]
  {
    var v := ["1", "2", "5"];
    assert v[1..] == ["2", "5"];
    assert v[1..][1..] == ["5"];
    assert v[1..][1..][1..] == [];
  }
}
