/** Properties relating several operations of the in-memory store: listings
    agree with lookups, the delete cascade keeps playlists free of dangling
    members, repeated deletes fail, and a snapshot survives `new` followed by
    `to_repo_db`. */
module InMemoryDbLemmas {
  import opened Uuids
  import opened Wrappers
  import opened Types
  import opened TitleOrder
  import opened InMemoryDb

  // ---------------------------------------------------------------------
  // Listings agree with lookups

  /** A lyric is listed by `get_lyrics` exactly when `get_lyric` of its
      identifier returns it. */
  lemma GetLyricsAgreesWithGetLyric(db: Db, order: seq<Uuid>, l: Lyric)
    requires IsIterationOrder(db, order)
    ensures l in GetLyrics(db, order) <==> GetLyric(db, l.id) == Success(l)
  {
    var r := GetLyrics(db, order);
    assert l in r <==> l in multiset(r);
    assert l in StoredLyrics(db) <==> l in multiset(StoredLyrics(db));
  }

  /** A playlist is listed by `get_playlists` exactly when `get_playlist` of
      its identifier returns it. */
  lemma GetPlaylistsAgreesWithGetPlaylist(db: Db, order: seq<Uuid>, p: Playlist)
    requires IsIterationOrder(db, order)
    ensures p in GetPlaylists(db, order) <==> GetPlaylist(db, p.id) == Success(p)
  {
    var r := GetPlaylists(db, order);
    assert p in r <==> p in multiset(r);
    assert p in StoredPlaylists(db) <==> p in multiset(StoredPlaylists(db));
  }

  /** A lyric summary is listed exactly when `get_lyric` finds a lyric with
      that identifier and title. */
  lemma LyricSummariesAgreeWithGetLyric(db: Db, order: seq<Uuid>, s: Summary)
    requires IsIterationOrder(db, order)
    ensures s in GetLyricSummaries(db, order) <==>
              GetLyric(db, s.id).Success? && GetLyric(db, s.id).value.title == s.title
  {
    var r := GetLyricSummaries(db, order);
    assert s in r <==> s in multiset(r);
    assert s in StoredLyricSummaries(db) <==> s in multiset(StoredLyricSummaries(db));
  }

  lemma PlaylistSummariesAgreeWithGetPlaylist(db: Db, order: seq<Uuid>, s: Summary)
    requires IsIterationOrder(db, order)
    ensures s in GetPlaylistSummaries(db, order) <==>
              GetPlaylist(db, s.id).Success? && GetPlaylist(db, s.id).value.title == s.title
  {
    var r := GetPlaylistSummaries(db, order);
    assert s in r <==> s in multiset(r);
    assert s in StoredPlaylistSummaries(db) <==> s in multiset(StoredPlaylistSummaries(db));
  }

  /** Lyrics and playlists share one keyspace: no identifier is listed as both. */
  lemma SummaryListingsAreDisjoint(db: Db, order: seq<Uuid>, a: Summary, b: Summary)
    requires IsIterationOrder(db, order)
    requires a in GetLyricSummaries(db, order) && b in GetPlaylistSummaries(db, order)
    ensures a.id != b.id
  {
    LyricSummariesAgreeWithGetLyric(db, order, a);
    PlaylistSummariesAgreeWithGetPlaylist(db, order, b);
  }

  /** The summary built from a stored lyric's meta is the summary the store
      lists for that lyric, whatever its hash. */
  lemma MetaSummaryIsListed(db: Db, order: seq<Uuid>, l: Lyric, hash: Option<string>)
    requires IsIterationOrder(db, order)
    requires l in StoredLyrics(db)
    ensures SummaryFromMeta(LyricMetaOf(l, hash), l.id) in GetLyricSummaries(db, order)
  {
    assert Summary(l.id, db[l.id].lyric.title) in StoredLyricSummaries(db);
    assert Summary(l.id, l.title) in multiset(GetLyricSummaries(db, order));
  }

  // ---------------------------------------------------------------------
  // Posting

  /** Posting a lyric under a playlist's identifier reports `Occupied`, yet
      the playlist is gone and the lyric is stored in its place. */
  lemma PostLyricReplacesPlaylist(db: Db, lyric: Lyric)
    requires lyric.id in db && db[lyric.id].PlaylistRecord?
    ensures PostLyric(db, lyric).result == Failure(Occupied)
    ensures GetPlaylist(PostLyric(db, lyric).db, lyric.id) == Failure(NotFound(lyric.id))
    ensures GetLyric(PostLyric(db, lyric).db, lyric.id) == Success(lyric)
  {
  }

  /** The unit test: posting a playlist with no identifier to a store
      built from two empty collections gives it the fresh identifier, and
      it is then the only playlist listed, with its title. */
  lemma PostPlaylistToEmptyStore(post: PlaylistPost, freshId: Uuid)
    ensures var p := PlaylistFromOptionalId(None, post, freshId);
      var s := PostPlaylist(New([], []), p);
      && s.result == Success(p)
      && p.id == freshId
      && GetPlaylists(s.db, [freshId]) == [p]
      && GetPlaylistSummaries(s.db, [freshId]) == [Summary(freshId, post.title)]
  {
    var p := PlaylistFromOptionalId(None, post, freshId);
    assert New([], []) == map[];
    var db := PostPlaylist(New([], []), p).db;
    assert db.Keys == {freshId};
    assert StoredPlaylists(db) == {p};
    assert StoredPlaylistSummaries(db) == {Summary(freshId, post.title)};
    SingletonListing(GetPlaylists(db, [freshId]), p);
    SingletonListing(GetPlaylistSummaries(db, [freshId]), Summary(freshId, post.title));
  }

  /** A sequence holding one copy of `x` and nothing else is `[x]`. */
  lemma SingletonListing<T>(r: seq<T>, x: T)
    requires multiset(r) == multiset({x})
    ensures r == [x]
  {
    assert |r| == |multiset(r)| == 1;
    assert r[0] in multiset(r);
  }

  // ---------------------------------------------------------------------
  // Sort order

  /** The store after posting lyrics titled "B", "A" and "C", in that
      order, to an empty store. */
  function ThreeLyrics(): Db {
    var db1 := PostLyric(map[], Lyric(1, "B", [])).db;
    var db2 := PostLyric(db1, Lyric(2, "A", [])).db;
    PostLyric(db2, Lyric(3, "C", [])).db
  }

  /** Whatever order the map is visited in, the summaries come out titled
      "A", "B", "C". */
  lemma LyricSummariesSortExample(order: seq<Uuid>)
    requires IsIterationOrder(ThreeLyrics(), order)
    ensures GetLyricSummaries(ThreeLyrics(), order) == [Summary(2, "A"), Summary(1, "B"), Summary(3, "C")]
  {
    var a, b, c := Summary(2, "A"), Summary(1, "B"), Summary(3, "C");
    ThreeLyricSummaries();
    assert multiset({a, b, c}) == multiset{a, b, c};
    SortedThree(GetLyricSummaries(ThreeLyrics(), order), a, b, c);
  }

  lemma ThreeLyricSummaries()
    ensures StoredLyricSummaries(ThreeLyrics()) == {Summary(2, "A"), Summary(1, "B"), Summary(3, "C")}
  {
    var db := ThreeLyrics();
    assert db.Keys == {1, 2, 3};
    assert Summary(2, db[2].lyric.title) == Summary(2, "A");
    assert Summary(1, db[1].lyric.title) == Summary(1, "B");
    assert Summary(3, db[3].lyric.title) == Summary(3, "C");
  }

  /** Three summaries with strictly increasing titles have one sorted order. */
  lemma SortedThree(r: seq<Summary>, a: Summary, b: Summary, c: Summary)
    requires multiset(r) == multiset{a, b, c}
    requires forall i, j :: 0 <= i < j < |r| ==> CompareTitle(r[i], r[j]) != Greater
    requires CompareTitle(b, a) == Greater && CompareTitle(c, a) == Greater && CompareTitle(c, b) == Greater
    ensures r == [a, b, c]
  {
    assert |r| == 3;
    assert a in multiset(r) && b in multiset(r) && c in multiset(r);
    var ia :| 0 <= ia < 3 && r[ia] == a;
    var ib :| 0 <= ib < 3 && r[ib] == b;
    var ic :| 0 <= ic < 3 && r[ic] == c;
    assert ia < ib && ib < ic;
  }

  // ---------------------------------------------------------------------
  // Deleting

  /** A delete that succeeded cannot succeed again, and the failed retry
      changes nothing. */
  lemma DeleteLyricTwiceFails(db: Db, id: Uuid)
    requires DeleteLyric(db, id).result.Success?
    ensures var after := DeleteLyric(db, id).db;
      DeleteLyric(after, id) == Step(Failure(NotFound(id)), after)
  {
  }

  lemma DeletePlaylistTwiceFails(db: Db, id: Uuid)
    requires DeletePlaylist(db, id).result.Success?
    ensures var after := DeletePlaylist(db, id).db;
      DeletePlaylist(after, id) == Step(Failure(NotFound(id)), after)
  {
  }

  /** Every playlist member names a lyric held by the store. */
  ghost predicate MembersAreLyrics(db: Db) {
    forall k :: k in db ==> MembersOfAreLyrics(db, k)
  }

  /** If `k` holds a playlist, each of its members names a stored lyric. */
  ghost predicate MembersOfAreLyrics(db: Db, k: Uuid)
    requires k in db
  {
    db[k].PlaylistRecord? ==> forall m :: m in db[k].playlist.members ==> m in db && db[m].LyricRecord?
  }

  /** The cascade keeps referential integrity: after `delete_lyric`, every
      remaining member still names a stored lyric. */
  lemma DeleteLyricKeepsMembersLyrics(db: Db, id: Uuid)
    requires MembersAreLyrics(db)
    ensures MembersAreLyrics(DeleteLyric(db, id).db)
  {
    if id in db {
      CascadeKeepsMembersLyrics(db, id, DeleteLyric(db, id).db);
    }
  }

  /** The same, for any store `after` with the shape `DeleteLyric` promises:
      `id` gone, lyrics unchanged, playlists stripped of `id`. */
  lemma CascadeKeepsMembersLyrics(db: Db, id: Uuid, after: Db)
    requires MembersAreLyrics(db)
    requires after.Keys == db.Keys - {id}
    requires forall k :: k in after && db[k].LyricRecord? ==> after[k] == db[k]
    requires forall k :: k in after && db[k].PlaylistRecord? ==>
               after[k].PlaylistRecord? && after[k].playlist.members == Without(db[k].playlist.members, id)
    ensures MembersAreLyrics(after)
  {
    forall k | k in after
      ensures MembersOfAreLyrics(after, k)
    {
      if after[k].PlaylistRecord? {
        assert MembersOfAreLyrics(db, k);
        forall m | m in after[k].playlist.members
          ensures m in after && after[m].LyricRecord?
        {
          CascadedMember(db, id, after, k, m);
        }
      }
    }
  }

  /** A member left by the cascade was a member before and is not `id`.
      The facts about keys `k` and `m` after the cascade are those
      `DeleteLyric` promises. */
  lemma CascadedMember(db: Db, id: Uuid, after: Db, k: Uuid, m: Uuid)
    requires k in db && MembersOfAreLyrics(db, k)
    requires after.Keys == db.Keys - {id}
    requires k in after && after[k].PlaylistRecord? && m in after[k].playlist.members
    requires db[k].LyricRecord? ==> after[k] == db[k]
    requires db[k].PlaylistRecord? ==> after[k].playlist.members == Without(db[k].playlist.members, id)
    requires m in after && db[m].LyricRecord? ==> after[m] == db[m]
    ensures m in after && after[m].LyricRecord?
  {
    var members := db[k].playlist.members;
    assert m in members && m != id;
  }

  /** Removing a playlist keeps referential integrity. */
  lemma DeletePlaylistOfPlaylistKeepsMembersLyrics(db: Db, id: Uuid)
    requires MembersAreLyrics(db)
    requires id in db ==> db[id].PlaylistRecord?
    ensures MembersAreLyrics(DeletePlaylist(db, id).db)
  {
  }

  /** Posting any lyric keeps referential integrity, even one that replaces
      a playlist: no member can name that playlist's key, and whatever is
      at the posted key afterwards is a lyric. */
  lemma PostLyricKeepsMembersLyrics(db: Db, lyric: Lyric)
    requires MembersAreLyrics(db)
    ensures MembersAreLyrics(PostLyric(db, lyric).db)
  {
    var after := PostLyric(db, lyric).db;
    forall k | k in after
      ensures MembersOfAreLyrics(after, k)
    {
      if k != lyric.id {
        assert MembersOfAreLyrics(db, k);
        if db[k].PlaylistRecord? {
          forall m | m in after[k].playlist.members
            ensures m in after && after[m].LyricRecord?
          {
            assert m in db && db[m].LyricRecord?;
          }
        }
      }
    }
  }

  /** The store after posting lyrics "One", "Two" and "Three" under 1, 2
      and 3, then the playlist "Gig" listing them, under 0. */
  function GigStore(): Db {
    var db1 := PostLyric(map[], Lyric(1, "One", [])).db;
    var db2 := PostLyric(db1, Lyric(2, "Two", [])).db;
    var db3 := PostLyric(db2, Lyric(3, "Three", [])).db;
    PostPlaylist(db3, Playlist(0, "Gig", [1, 2, 3])).db
  }

  /** The cascade example: deleting the middle lyric of a three-lyric
      playlist leaves the other two in order, and the lyric is gone. */
  lemma CascadeExample()
    ensures var s := DeleteLyric(GigStore(), 2);
      && s.result == Success(())
      && GetPlaylist(s.db, 0) == Success(Playlist(0, "Gig", [1, 3]))
      && GetLyric(s.db, 2) == Failure(NotFound(2))
  {
    GigStoreHolds();
    DeleteMiddleLyric(GigStore());
  }

  /** In any store where playlist 0 lists lyrics 1, 2 and 3, deleting lyric
      2 leaves the playlist listing 1 and 3. */
  lemma DeleteMiddleLyric(db: Db)
    requires 0 in db && db[0] == PlaylistRecord(PlaylistPost("Gig", [1, 2, 3]))
    requires 2 in db
    ensures var s := DeleteLyric(db, 2);
      && s.result == Success(())
      && GetPlaylist(s.db, 0) == Success(Playlist(0, "Gig", [1, 3]))
      && GetLyric(s.db, 2) == Failure(NotFound(2))
  {
    WithoutMiddle(db[0].playlist.members);
    var s := DeleteLyric(db, 2);
    assert 0 in s.db.Keys;
    assert s.db[0].playlist == PlaylistPost("Gig", [1, 3]);
  }

  /** Removing 2 from `[1, 2, 3]` leaves `[1, 3]`. */
  lemma WithoutMiddle(v: seq<Uuid>)
    requires v == [1, 2, 3]
    ensures Without(v, 2) == [1, 3]
  {
    assert v[1..] == [2, 3] && v[1..][1..] == [3] && v[1..][1..][1..] == [];
  }

  /** The example store holds lyric 2 and the playlist "Gig" under 0. */
  lemma GigStoreHolds()
    ensures GigStore().Keys == {0, 1, 2, 3}
    ensures GigStore()[0] == PlaylistRecord(PlaylistPost("Gig", [1, 2, 3]))
    ensures GigStore()[2] == LyricRecord(LyricPost("Two", []))
  {
    var db1 := PostLyric(map[], Lyric(1, "One", [])).db;
    var db2 := PostLyric(db1, Lyric(2, "Two", [])).db;
    var db3 := PostLyric(db2, Lyric(3, "Three", [])).db;
    assert db3[2] == db2[2];
  }

  // ---------------------------------------------------------------------
  // Snapshot round trip

  /** No identifier occurs twice among the lyrics and playlists of a snapshot. */
  ghost predicate DistinctSnapshotIds(lyrics: seq<Lyric>, playlists: seq<Playlist>) {
    && (forall i, j :: 0 <= i < j < |lyrics| ==> lyrics[i].id != lyrics[j].id)
    && (forall i, j :: 0 <= i < j < |playlists| ==> playlists[i].id != playlists[j].id)
    && (forall l, p :: l in lyrics && p in playlists ==> l.id != p.id)
  }

  /** `to_repo_db(new(lyrics, playlists))` gives back both collections up to
      order, provided no identifier repeats. */
  lemma SnapshotRoundTrip(lyrics: seq<Lyric>, playlists: seq<Playlist>, order: seq<Uuid>)
    requires DistinctSnapshotIds(lyrics, playlists)
    requires IsIterationOrder(New(lyrics, playlists), order)
    ensures multiset(ToRepoDb(New(lyrics, playlists), order).lyrics) == multiset(lyrics)
    ensures multiset(ToRepoDb(New(lyrics, playlists), order).playlists) == multiset(playlists)
  {
    StoredLyricsOfNew(lyrics, playlists);
    StoredPlaylistsOfNew(lyrics, playlists);
    MultisetOfDistinct(lyrics);
    MultisetOfDistinct(playlists);
  }

  /** With distinct identifiers, the lyrics `new` stores are exactly its input lyrics. */
  lemma StoredLyricsOfNew(lyrics: seq<Lyric>, playlists: seq<Playlist>)
    requires DistinctSnapshotIds(lyrics, playlists)
    ensures StoredLyrics(New(lyrics, playlists)) == set l | l in lyrics
  {
    var db := New(lyrics, playlists);
    forall l | l in lyrics
      ensures l in StoredLyrics(db)
    {
      var i :| 0 <= i < |lyrics| && lyrics[i] == l;
      NewStoresLyric(lyrics, playlists, i);
      assert Lyric(l.id, db[l.id].lyric.title, db[l.id].lyric.parts) == l;
    }
    forall x | x in StoredLyrics(db)
      ensures x in lyrics
    {
      var k :| k in db && db[k].LyricRecord? && x == Lyric(k, db[k].lyric.title, db[k].lyric.parts);
      forall j | 0 <= j < |playlists|
        ensures playlists[j].id != k
      {
        NewStoresPlaylist(lyrics, playlists, j);
      }
      var i :| 0 <= i < |lyrics| && lyrics[i].id == k;
      NewStoresLyric(lyrics, playlists, i);
    }
  }

  /** With distinct identifiers, the playlists `new` stores are exactly its input playlists. */
  lemma StoredPlaylistsOfNew(lyrics: seq<Lyric>, playlists: seq<Playlist>)
    requires DistinctSnapshotIds(lyrics, playlists)
    ensures StoredPlaylists(New(lyrics, playlists)) == set p | p in playlists
  {
    var db := New(lyrics, playlists);
    forall p | p in playlists
      ensures p in StoredPlaylists(db)
    {
      var i :| 0 <= i < |playlists| && playlists[i] == p;
      NewStoresPlaylist(lyrics, playlists, i);
      assert Playlist(p.id, db[p.id].playlist.title, db[p.id].playlist.members) == p;
    }
    forall x | x in StoredPlaylists(db)
      ensures x in playlists
    {
      var k :| k in db && db[k].PlaylistRecord? && x == Playlist(k, db[k].playlist.title, db[k].playlist.members);
      forall j | 0 <= j < |lyrics|
        ensures lyrics[j].id != k
      {
        NewStoresLyric(lyrics, playlists, j);
      }
      var i :| 0 <= i < |playlists| && playlists[i].id == k;
      NewStoresPlaylist(lyrics, playlists, i);
    }
  }

  /** With distinct identifiers, `new` stores lyric `i` at its identifier. */
  lemma NewStoresLyric(lyrics: seq<Lyric>, playlists: seq<Playlist>, i: int)
    requires DistinctSnapshotIds(lyrics, playlists) && 0 <= i < |lyrics|
    ensures lyrics[i].id in New(lyrics, playlists)
    ensures New(lyrics, playlists)[lyrics[i].id] == LyricRecord(LyricPostOf(lyrics[i]))
  {
    NewLastLyric(lyrics, playlists, i);
  }

  /** With distinct identifiers, `new` stores playlist `i` at its identifier. */
  lemma NewStoresPlaylist(lyrics: seq<Lyric>, playlists: seq<Playlist>, i: int)
    requires DistinctSnapshotIds(lyrics, playlists) && 0 <= i < |playlists|
    ensures playlists[i].id in New(lyrics, playlists)
    ensures New(lyrics, playlists)[playlists[i].id] == PlaylistRecord(PlaylistPostOf(playlists[i]))
  {
    NewLastPlaylist(lyrics, playlists, i);
  }

  /** A sequence without repeated elements holds each element once. */
  lemma {:induction false} MultisetOfDistinct<T>(s: seq<T>)
    requires Distinct(s)
    ensures multiset(set x | x in s) == multiset(s)
  {
    if |s| != 0 {
      MultisetOfDistinct(s[1..]);
      assert s == [s[0]] + s[1..];
      assert (set x | x in s) == {s[0]} + (set x | x in s[1..]);
      assert s[0] !in s[1..];
    }
  }

  // ---------------------------------------------------------------------
  // Save then load

  /** Saving a store and loading the snapshot gives the store back:
      `new(to_repo_db(db)) == db`, whatever the iteration order. No
      hypothesis about identifiers is needed, because the keys of a store
      cannot repeat. */
  lemma LoadSaveRoundTrip(db: Db, order: seq<Uuid>)
    requires IsIterationOrder(db, order)
    ensures var r := ToRepoDb(db, order); New(r.lyrics, r.playlists) == db
  {
    var r := ToRepoDb(db, order);
    ToRepoDbDistinct(db, order);
    StoredLyricsOfNew(r.lyrics, r.playlists);
    StoredPlaylistsOfNew(r.lyrics, r.playlists);
    ElementsOfPermutedSet(r.lyrics, StoredLyrics(db));
    ElementsOfPermutedSet(r.playlists, StoredPlaylists(db));
    SameRecordsSameStore(New(r.lyrics, r.playlists), db);
  }

  /** A snapshot of a store repeats no identifier. */
  lemma ToRepoDbDistinct(db: Db, order: seq<Uuid>)
    requires IsIterationOrder(db, order)
    ensures var r := ToRepoDb(db, order); DistinctSnapshotIds(r.lyrics, r.playlists)
  {
    var r := ToRepoDb(db, order);
    forall x, y | x in StoredLyrics(db) && y in StoredLyrics(db)
      ensures x.id == y.id ==> x == y
    {
    }
    forall x, y | x in StoredPlaylists(db) && y in StoredPlaylists(db)
      ensures x.id == y.id ==> x == y
    {
    }
    KeyedPermutationHasDistinctKeys(r.lyrics, StoredLyrics(db), (l: Lyric) => l.id);
    KeyedPermutationHasDistinctKeys(r.playlists, StoredPlaylists(db), (p: Playlist) => p.id);
    forall l, p | l in r.lyrics && p in r.playlists
      ensures l.id != p.id
    {
      assert l in multiset(r.lyrics) && p in multiset(r.playlists);
      assert db[l.id].LyricRecord? && db[p.id].PlaylistRecord?;
    }
  }

  /** Two stores that hold the same lyrics and the same playlists are equal. */
  lemma SameRecordsSameStore(a: Db, b: Db)
    requires StoredLyrics(a) == StoredLyrics(b)
    requires StoredPlaylists(a) == StoredPlaylists(b)
    ensures a == b
  {
    forall k | k in a
      ensures k in b && b[k] == a[k]
    {
      match a[k]
      case LyricRecord(post) =>
        assert Lyric(k, post.title, post.parts) in StoredLyrics(b);
      case PlaylistRecord(post) =>
        assert Playlist(k, post.title, post.members) in StoredPlaylists(b);
    }
    forall k | k in b
      ensures k in a
    {
      match b[k]
      case LyricRecord(post) =>
        assert Lyric(k, post.title, post.parts) in StoredLyrics(a);
      case PlaylistRecord(post) =>
        assert Playlist(k, post.title, post.members) in StoredPlaylists(a);
    }
  }

  /** A sequence that permutes a set whose elements have distinct keys
      repeats no key. */
  lemma KeyedPermutationHasDistinctKeys<T>(s: seq<T>, elements: set<T>, key: T -> Uuid)
    requires multiset(s) == multiset(elements)
    requires forall x, y :: x in elements && y in elements ==> (key(x) == key(y) ==> x == y)
    ensures forall i, j :: 0 <= i < j < |s| ==> key(s[i]) != key(s[j])
  {
    forall i, j | 0 <= i < j < |s|
      ensures key(s[i]) != key(s[j])
    {
      PermutedSetHasNoRepeat(s, elements, i, j);
      assert s[i] in multiset(s) && s[j] in multiset(s);
    }
  }

  /** A sequence that permutes a set holds no element twice. */
  lemma PermutedSetHasNoRepeat<T>(s: seq<T>, elements: set<T>, i: int, j: int)
    requires multiset(s) == multiset(elements)
    requires 0 <= i < j < |s|
    ensures s[i] != s[j]
  {
    var x := s[i];
    assert s == s[..j] + [s[j]] + s[j+1..];
    assert s[..j][i] == x;
    assert multiset(s)[x] == multiset(s[..j])[x] + multiset([s[j]])[x] + multiset(s[j+1..])[x];
    assert multiset(elements)[x] <= 1;
  }

  /** A sequence that permutes a set has exactly that set's elements. */
  lemma ElementsOfPermutedSet<T>(s: seq<T>, elements: set<T>)
    requires multiset(s) == multiset(elements)
    ensures (set x | x in s) == elements
  {
    forall x
      ensures x in s <==> x in elements
    {
      assert x in s <==> x in multiset(s);
    }
  }
}
