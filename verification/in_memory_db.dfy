/** The in-memory repository: one map from identifier to a tagged record,
    so lyrics and playlists share a single keyspace. Each repository
    operation is one atomic step on that map, returning its result together
    with the map afterwards. */
module InMemoryDb {
  import opened Uuids
  import opened Wrappers
  import opened Types
  import opened TitleOrder

  /** A stored value: the payload of a lyric or of a playlist. */
  datatype Record = LyricRecord(lyric: LyricPost) | PlaylistRecord(playlist: PlaylistPost)

  type Db = map<Uuid, Record>

  /** The two variants of the repository error type the store produces. */
  datatype Error = NotFound(id: Uuid) | Occupied

  /** The outcome of an operation and the store after it. */
  datatype Step<T> = Step(result: Result<T, Error>, db: Db)

  // ---------------------------------------------------------------------
  // The reference view of a store

  /** Every lyric held by the store, with its key as identifier. */
  ghost function StoredLyrics(db: Db): set<Lyric> {
    set k | k in db && db[k].LyricRecord? :: Lyric(k, db[k].lyric.title, db[k].lyric.parts)
  }

  /** Every playlist held by the store, with its key as identifier. */
  ghost function StoredPlaylists(db: Db): set<Playlist> {
    set k | k in db && db[k].PlaylistRecord? :: Playlist(k, db[k].playlist.title, db[k].playlist.members)
  }

  ghost function StoredLyricSummaries(db: Db): set<Summary> {
    set k | k in db && db[k].LyricRecord? :: Summary(k, db[k].lyric.title)
  }

  ghost function StoredPlaylistSummaries(db: Db): set<Summary> {
    set k | k in db && db[k].PlaylistRecord? :: Summary(k, db[k].playlist.title)
  }

  /** No playlist in the store lists `id` among its members. */
  ghost predicate NoPlaylistContains(db: Db, id: Uuid) {
    forall k :: k in db && db[k].PlaylistRecord? ==> id !in db[k].playlist.members
  }

  // ---------------------------------------------------------------------
  // HashMap primitives

  /** `HashMap::insert`: the previous value at `k`, if any, and the map with
      `v` stored at `k` in either case. */
  function Insert(db: Db, k: Uuid, v: Record): (r: (Option<Record>, Db))
    ensures k in db ==> r.0 == Some(db[k])
    ensures k !in db ==> r.0 == None
    ensures r.1.Keys == db.Keys + {k} && r.1[k] == v
    ensures forall k' :: k' in db && k' != k ==> r.1[k'] == db[k']
  {
    (if k in db then Some(db[k]) else None, db[k := v])
  }

  /** `HashMap::remove`: the value at `k`, if any, and the map without `k`. */
  function Remove(db: Db, k: Uuid): (r: (Option<Record>, Db))
    ensures k in db ==> r.0 == Some(db[k])
    ensures k !in db ==> r.0 == None && r.1 == db
    ensures r.1.Keys == db.Keys - {k}
    ensures forall k' :: k' in r.1 ==> r.1[k'] == db[k']
  {
    if k in db then (Some(db[k]), db - {k}) else (None, db)
  }

  /** Entry `i` is the last one in `es` with its key. */
  ghost predicate IsLastWithKey(es: seq<(Uuid, Record)>, i: int)
    requires 0 <= i < |es|
  {
    forall j :: i < j < |es| ==> es[j].0 != es[i].0
  }

  /** `HashMap::from_iter`: entries are inserted front to back, so for a
      repeated key the last entry wins. */
  function FromEntries(es: seq<(Uuid, Record)>): (m: Db)
    ensures m.Keys == set i | 0 <= i < |es| :: es[i].0
    ensures forall i :: 0 <= i < |es| && IsLastWithKey(es, i) ==> m[es[i].0] == es[i].1
  {
    if |es| == 0 then map[]
    else
      var e := es[|es| - 1];
      var m := FromEntries(es[..|es| - 1]);
      InsertLastEntry(es, es[..|es| - 1], m);
      m[e.0 := e.1]
  }

  /** Inserting the last entry into the map built from the others. */
  lemma InsertLastEntry(es: seq<(Uuid, Record)>, init: seq<(Uuid, Record)>, m: Db)
    requires |es| > 0 && init == es[..|es| - 1]
    requires m.Keys == set i | 0 <= i < |init| :: init[i].0
    requires forall i :: 0 <= i < |init| && IsLastWithKey(init, i) ==> m[init[i].0] == init[i].1
    ensures var e := es[|es| - 1];
      m[e.0 := e.1].Keys == set i | 0 <= i < |es| :: es[i].0
    ensures var e := es[|es| - 1];
      forall i :: 0 <= i < |es| && IsLastWithKey(es, i) ==> m[e.0 := e.1][es[i].0] == es[i].1
  {
    InsertLastEntryKeys(es, init, m);
    forall i | 0 <= i < |init|
      ensures init[i].0 in m
    {
    }
    InsertLastEntryValues(es, init, m);
  }

  lemma InsertLastEntryKeys(es: seq<(Uuid, Record)>, init: seq<(Uuid, Record)>, m: Db)
    requires |es| > 0 && init == es[..|es| - 1]
    requires m.Keys == set i | 0 <= i < |init| :: init[i].0
    ensures var e := es[|es| - 1];
      m[e.0 := e.1].Keys == set i | 0 <= i < |es| :: es[i].0
  {
    var n := |es| - 1;
    var e := es[n];
    var m' := m[e.0 := e.1];
    forall k | k in m'.Keys
      ensures k in set i | 0 <= i < |es| :: es[i].0
    {
      if k != e.0 {
        var i :| 0 <= i < n && init[i].0 == k;
        assert es[i].0 == k;
      }
    }
    forall i | 0 <= i < |es|
      ensures es[i].0 in m'.Keys
    {
      if i < n {
        assert init[i].0 == es[i].0;
      }
    }
  }

  lemma InsertLastEntryValues(es: seq<(Uuid, Record)>, init: seq<(Uuid, Record)>, m: Db)
    requires |es| > 0 && init == es[..|es| - 1]
    requires forall i :: 0 <= i < |init| ==> init[i].0 in m
    requires forall i :: 0 <= i < |init| && IsLastWithKey(init, i) ==> m[init[i].0] == init[i].1
    ensures var e := es[|es| - 1];
      forall i :: 0 <= i < |es| && IsLastWithKey(es, i) ==> m[e.0 := e.1][es[i].0] == es[i].1
  {
    var n := |es| - 1;
    var e := es[n];
    var m' := m[e.0 := e.1];
    forall i | 0 <= i < n && IsLastWithKey(es, i)
      ensures m'[es[i].0] == es[i].1
    {
      assert es[i].0 != e.0;
      assert init[i] == es[i];
      assert IsLastWithKey(init, i) by {
        forall j | i < j < n
          ensures init[j].0 != init[i].0
        {
          assert init[j] == es[j];
        }
      }
    }
  }

  // ---------------------------------------------------------------------
  // Construction and flattening

  /** `lyric_to_tuple`. */
  function LyricToTuple(l: Lyric): (Uuid, Record) {
    (l.id, LyricRecord(LyricPostOf(l)))
  }

  /** `playlist_to_tuple`. */
  function PlaylistToTuple(p: Playlist): (Uuid, Record) {
    (p.id, PlaylistRecord(PlaylistPostOf(p)))
  }

  /** The entries `new` feeds to `from_iter`: the lyrics, then the playlists. */
  function Entries(lyrics: seq<Lyric>, playlists: seq<Playlist>): (es: seq<(Uuid, Record)>)
    ensures |es| == |lyrics| + |playlists|
    ensures forall i :: 0 <= i < |lyrics| ==> es[i] == LyricToTuple(lyrics[i])
    ensures forall i :: 0 <= i < |playlists| ==> es[|lyrics| + i] == PlaylistToTuple(playlists[i])
  {
    seq(|lyrics|, i requires 0 <= i < |lyrics| => LyricToTuple(lyrics[i]))
      + seq(|playlists|, i requires 0 <= i < |playlists| => PlaylistToTuple(playlists[i]))
  }

  /** `InMemoryDb::new`: every identifier of either collection becomes a key;
      a playlist is kept unless a later playlist has its identifier, and a
      lyric is kept unless a later lyric or any playlist has its identifier. */
  function New(lyrics: seq<Lyric>, playlists: seq<Playlist>): (db: Db)
    ensures db.Keys == (set l | l in lyrics :: l.id) + (set p | p in playlists :: p.id)
    ensures forall i :: 0 <= i < |playlists| && (forall j :: i < j < |playlists| ==> playlists[j].id != playlists[i].id)
              ==> db[playlists[i].id] == PlaylistRecord(PlaylistPostOf(playlists[i]))
    ensures forall i :: 0 <= i < |lyrics| && (forall j :: i < j < |lyrics| ==> lyrics[j].id != lyrics[i].id)
              && (forall p :: p in playlists ==> p.id != lyrics[i].id)
              ==> db[lyrics[i].id] == LyricRecord(LyricPostOf(lyrics[i]))
  {
    var es := Entries(lyrics, playlists);
    NewKeys(lyrics, playlists);
    NewLastPlaylists(lyrics, playlists);
    NewLastLyrics(lyrics, playlists);
    FromEntries(es)
  }

  lemma NewKeys(lyrics: seq<Lyric>, playlists: seq<Playlist>)
    ensures FromEntries(Entries(lyrics, playlists)).Keys == (set l | l in lyrics :: l.id) + (set p | p in playlists :: p.id)
  {
    var es := Entries(lyrics, playlists);
    var keys := FromEntries(es).Keys;
    var ids := (set l | l in lyrics :: l.id) + (set p | p in playlists :: p.id);
    forall k | k in keys
      ensures k in ids
    {
      var i :| 0 <= i < |es| && es[i].0 == k;
      if i < |lyrics| {
        assert lyrics[i] in lyrics;
      } else {
        assert es[i] == PlaylistToTuple(playlists[i - |lyrics|]);
        assert playlists[i - |lyrics|] in playlists;
      }
    }
    forall k | k in ids
      ensures k in keys
    {
      if l :| l in lyrics && l.id == k {
        var i :| 0 <= i < |lyrics| && lyrics[i] == l;
        assert es[i].0 == k;
      } else {
        var p :| p in playlists && p.id == k;
        var i :| 0 <= i < |playlists| && playlists[i] == p;
        assert es[|lyrics| + i].0 == k;
      }
    }
  }

  lemma NewLastPlaylists(lyrics: seq<Lyric>, playlists: seq<Playlist>)
    ensures forall i :: 0 <= i < |playlists| && (forall j :: i < j < |playlists| ==> playlists[j].id != playlists[i].id)
              ==> FromEntries(Entries(lyrics, playlists))[playlists[i].id] == PlaylistRecord(PlaylistPostOf(playlists[i]))
  {
    forall i | 0 <= i < |playlists| && (forall j :: i < j < |playlists| ==> playlists[j].id != playlists[i].id)
      ensures FromEntries(Entries(lyrics, playlists))[playlists[i].id] == PlaylistRecord(PlaylistPostOf(playlists[i]))
    {
      NewLastPlaylist(lyrics, playlists, i);
    }
  }

  /** The entry of playlist `i` is the last with its key. */
  lemma NewLastPlaylist(lyrics: seq<Lyric>, playlists: seq<Playlist>, i: int)
    requires 0 <= i < |playlists| && forall j :: i < j < |playlists| ==> playlists[j].id != playlists[i].id
    ensures FromEntries(Entries(lyrics, playlists))[playlists[i].id] == PlaylistRecord(PlaylistPostOf(playlists[i]))
  {
    var es := Entries(lyrics, playlists);
    var n := |lyrics| + i;
    assert es[n] == PlaylistToTuple(playlists[i]);
    forall j | n < j < |es|
      ensures es[j].0 != es[n].0
    {
      assert es[j] == PlaylistToTuple(playlists[j - |lyrics|]);
    }
    assert IsLastWithKey(es, n);
    assert FromEntries(es)[es[n].0] == es[n].1;
  }

  lemma NewLastLyrics(lyrics: seq<Lyric>, playlists: seq<Playlist>)
    ensures forall i :: 0 <= i < |lyrics| && (forall j :: i < j < |lyrics| ==> lyrics[j].id != lyrics[i].id)
              && (forall p :: p in playlists ==> p.id != lyrics[i].id)
              ==> FromEntries(Entries(lyrics, playlists))[lyrics[i].id] == LyricRecord(LyricPostOf(lyrics[i]))
  {
    forall i | 0 <= i < |lyrics| && (forall j :: i < j < |lyrics| ==> lyrics[j].id != lyrics[i].id)
               && (forall p :: p in playlists ==> p.id != lyrics[i].id)
      ensures FromEntries(Entries(lyrics, playlists))[lyrics[i].id] == LyricRecord(LyricPostOf(lyrics[i]))
    {
      NewLastLyric(lyrics, playlists, i);
    }
  }

  /** The entry of lyric `i` is the last with its key. */
  lemma NewLastLyric(lyrics: seq<Lyric>, playlists: seq<Playlist>, i: int)
    requires 0 <= i < |lyrics| && forall j :: i < j < |lyrics| ==> lyrics[j].id != lyrics[i].id
    requires forall p :: p in playlists ==> p.id != lyrics[i].id
    ensures FromEntries(Entries(lyrics, playlists))[lyrics[i].id] == LyricRecord(LyricPostOf(lyrics[i]))
  {
    var es := Entries(lyrics, playlists);
    forall j | i < j < |es|
      ensures es[j].0 != es[i].0
    {
      if j >= |lyrics| {
        assert es[j] == PlaylistToTuple(playlists[j - |lyrics|]);
        assert playlists[j - |lyrics|] in playlists;
      }
    }
    assert IsLastWithKey(es, i);
  }

  // ---------------------------------------------------------------------
  // Iteration over the map

  /** `order` lists every key of the store exactly once: a possible
      iteration order of the hash map, which Rust leaves unspecified. */
  predicate IsIterationOrder(db: Db, order: seq<Uuid>) {
    Distinct(order) && forall k :: k in order <==> k in db
  }

  /** Some iteration order exists for every store. */
  method IterationOrder(db: Db) returns (order: seq<Uuid>)
    ensures IsIterationOrder(db, order)
  {
    order := [];
    var rest := db.Keys;
    while rest != {}
      invariant forall k :: k in db <==> k in order || k in rest
      invariant forall k :: k in order ==> k !in rest
      invariant Distinct(order)
      decreases |rest|
    {
      var k :| k in rest;
      order := order + [k];
      rest := rest - {k};
    }
  }

  /** The keys an iteration order visits. */
  ghost function KeysOf(order: seq<Uuid>): set<Uuid> {
    set k | k in order
  }

  /** `select` never yields the same value for two different keys. */
  ghost predicate KeyedSelector<T(!new)>(db: Db, select: (Uuid, Record) -> Option<T>) {
    forall k1, k2 :: k1 in db && k2 in db && select(k1, db[k1]).Some? && select(k1, db[k1]) == select(k2, db[k2]) ==> k1 == k2
  }

  /** The values `select` yields for the keys in `keys`. */
  ghost function Selected<T>(db: Db, keys: set<Uuid>, select: (Uuid, Record) -> Option<T>): set<T> {
    set k | k in keys && k in db && select(k, db[k]).Some? :: select(k, db[k]).value
  }

  /** `iter().filter_map(select).collect()`, visiting keys in `order`. */
  function FilterMap<T(!new)>(db: Db, order: seq<Uuid>, select: (Uuid, Record) -> Option<T>): (r: seq<T>)
    requires Distinct(order) && forall k :: k in order ==> k in db
    requires KeyedSelector(db, select)
    ensures multiset(r) == multiset(Selected(db, KeysOf(order), select))
  {
    if |order| == 0 then
      assert Selected(db, KeysOf(order), select) == {};
      []
    else
      var k := order[0];
      var rest := FilterMap(db, order[1..], select);
      var before := Selected(db, KeysOf(order[1..]), select);
      SelectedCons(db, order, select);
      match select(k, db[k])
      case None => rest
      case Some(v) =>
        assert v !in before;
        assert multiset(before + {v}) == multiset(before) + multiset{v};
        [v] + rest
  }

  lemma SelectedCons<T(!new)>(db: Db, order: seq<Uuid>, select: (Uuid, Record) -> Option<T>)
    requires |order| > 0 && Distinct(order) && forall k :: k in order ==> k in db
    requires KeyedSelector(db, select)
    ensures var k := order[0];
      var before := Selected(db, KeysOf(order[1..]), select);
      && (select(k, db[k]).None? ==> Selected(db, KeysOf(order), select) == before)
      && (select(k, db[k]).Some? ==>
           && Selected(db, KeysOf(order), select) == before + {select(k, db[k]).value}
           && select(k, db[k]).value !in before)
  {
    var k := order[0];
    assert (KeysOf(order)) == {k} + (KeysOf(order[1..]));
    assert k !in order[1..];
  }

  /** Selecting over a whole iteration order selects over every key. */
  lemma SelectedAll<T>(db: Db, order: seq<Uuid>, select: (Uuid, Record) -> Option<T>)
    requires IsIterationOrder(db, order)
    ensures Selected(db, KeysOf(order), select) == Selected(db, db.Keys, select)
  {
    assert (KeysOf(order)) == db.Keys;
  }

  // ---------------------------------------------------------------------
  // The filter_map closures of the list operations

  function LyricAt(key: Uuid, record: Record): Option<Lyric> {
    match record
    // An identifier is given, so the default identifier is never drawn.
    case LyricRecord(post) => Some(LyricFromOptionalId(Some(key), post, key))
    case PlaylistRecord(_) => None
  }

  function LyricSummaryAt(key: Uuid, record: Record): Option<Summary> {
    match record
    case LyricRecord(post) => Some(Summary(key, post.title))
    case PlaylistRecord(_) => None
  }

  function PlaylistAt(key: Uuid, record: Record): Option<Playlist> {
    match record
    case LyricRecord(_) => None
    case PlaylistRecord(post) => Some(PlaylistFromOptionalId(Some(key), post, key))
  }

  function PlaylistSummaryAt(key: Uuid, record: Record): Option<Summary> {
    match record
    case LyricRecord(_) => None
    case PlaylistRecord(post) => Some(Summary(key, post.title))
  }

  /** The entries `to_repo_db` folds into its lyric list, in `order`. */
  function CollectLyrics(db: Db, order: seq<Uuid>): (r: seq<Lyric>)
    requires IsIterationOrder(db, order)
    ensures multiset(r) == multiset(StoredLyrics(db))
  {
    SelectedAll(db, order, LyricAt);
    assert Selected(db, db.Keys, LyricAt) == StoredLyrics(db);
    FilterMap(db, order, LyricAt)
  }

  function CollectPlaylists(db: Db, order: seq<Uuid>): (r: seq<Playlist>)
    requires IsIterationOrder(db, order)
    ensures multiset(r) == multiset(StoredPlaylists(db))
  {
    SelectedAll(db, order, PlaylistAt);
    assert Selected(db, db.Keys, PlaylistAt) == StoredPlaylists(db);
    FilterMap(db, order, PlaylistAt)
  }

  // ---------------------------------------------------------------------
  // Title comparators

  /** The comparison the three title comparators share: `String::cmp` on
      the titles that `title` picks out. */
  function CompareByTitle<T>(a: T, b: T, title: T -> string): (o: Ordering)
    ensures o == Equal <==> title(a) == title(b)
    ensures o != Greater <==> TitleLe(title(a), title(b))
  {
    CompareStrings(title(a), title(b))
  }

  /** `compare_title`. */
  function CompareTitle(a: Summary, b: Summary): Ordering {
    CompareByTitle(a, b, SummaryTitle)
  }

  /** `lyric_compare_title`. */
  function LyricCompareTitle(a: Lyric, b: Lyric): Ordering {
    CompareByTitle(a, b, LyricTitle)
  }

  /** `playlist_compare_title`. */
  function PlaylistCompareTitle(a: Playlist, b: Playlist): Ordering {
    CompareByTitle(a, b, PlaylistTitle)
  }

  function SummaryTitle(s: Summary): string { s.title }
  function LyricTitle(l: Lyric): string { l.title }
  function PlaylistTitle(p: Playlist): string { p.title }

  // ---------------------------------------------------------------------
  // The repository operations

  /** `get_lyric_summaries`: the summary of every stored lyric, sorted by title. */
  function GetLyricSummaries(db: Db, order: seq<Uuid>): (r: seq<Summary>)
    requires IsIterationOrder(db, order)
    ensures forall i, j :: 0 <= i < j < |r| ==> CompareTitle(r[i], r[j]) != Greater
    ensures multiset(r) == multiset(StoredLyricSummaries(db))
  {
    SelectedAll(db, order, LyricSummaryAt);
    assert Selected(db, db.Keys, LyricSummaryAt) == StoredLyricSummaries(db);
    SortByTitle(FilterMap(db, order, LyricSummaryAt), SummaryTitle)
  }

  /** `get_lyrics`: every stored lyric, sorted by title. */
  function GetLyrics(db: Db, order: seq<Uuid>): (r: seq<Lyric>)
    requires IsIterationOrder(db, order)
    ensures forall i, j :: 0 <= i < j < |r| ==> LyricCompareTitle(r[i], r[j]) != Greater
    ensures multiset(r) == multiset(StoredLyrics(db))
  {
    SortByTitle(CollectLyrics(db, order), LyricTitle)
  }

  /** `get_lyric`: the lyric stored at `id`; a playlist there counts as absent. */
  function GetLyric(db: Db, id: Uuid): (r: Result<Lyric, Error>)
    ensures r.Success? <==> id in db && db[id].LyricRecord?
    ensures r.Success? ==> r.value.id == id && r.value in StoredLyrics(db)
    ensures r.Failure? ==> r.error == NotFound(id)
  {
    if id in db && db[id].LyricRecord? then
      Success(LyricFromOptionalId(Some(id), db[id].lyric, id))
    else
      Failure(NotFound(id))
  }

  /** `post_lyric`: the lyric is stored at its identifier whatever was there
      before; an occupied key is reported only after the overwrite. */
  function PostLyric(db: Db, lyric: Lyric): (s: Step<Lyric>)
    ensures lyric.id !in db ==> s.result == Success(lyric)
    ensures lyric.id in db ==> s.result == Failure(Occupied)
    ensures s.db.Keys == db.Keys + {lyric.id}
    ensures GetLyric(s.db, lyric.id) == Success(lyric)
    ensures forall k :: k in db && k != lyric.id ==> s.db[k] == db[k]
  {
    var (previous, db') := Insert(db, lyric.id, LyricRecord(LyricPostOf(lyric)));
    match previous
    case Some(_) => Step(Failure(Occupied), db')
    case None => Step(Success(lyric), db')
  }

  /** The record left at a key after the cascade for `id`: a playlist loses
      every occurrence of `id` among its members, a lyric is unchanged. */
  function Cascade(record: Record, id: Uuid): (r: Record)
    ensures record.LyricRecord? ==> r == record
    ensures record.PlaylistRecord? ==> r.PlaylistRecord? && r.playlist.title == record.playlist.title
    ensures record.PlaylistRecord? ==> r.playlist.members == Without(record.playlist.members, id)
  {
    match record
    case LyricRecord(_) => record
    case PlaylistRecord(post) => PlaylistRecord(PlaylistPost(post.title, Without(post.members, id)))
  }

  /** `delete_lyric`: remove whatever is at `id`, then strip `id` from every
      playlist that remains. */
  function DeleteLyric(db: Db, id: Uuid): (s: Step<()>)
    ensures id !in db ==> s.result == Failure(NotFound(id)) && s.db == db
    ensures id in db ==> s.result == Success(())
    ensures id in db ==> s.db.Keys == db.Keys - {id}
    ensures id in db ==> forall k :: k in s.db && db[k].LyricRecord? ==> s.db[k] == db[k]
    ensures id in db ==> forall k :: k in s.db && db[k].PlaylistRecord? ==>
              && s.db[k].PlaylistRecord?
              && s.db[k].playlist.title == db[k].playlist.title
              && s.db[k].playlist.members == Without(db[k].playlist.members, id)
    ensures id in db ==> NoPlaylistContains(s.db, id)
  {
    var (removed, db') := Remove(db, id);
    match removed
    case None => Step(Failure(NotFound(id)), db)
    case Some(_) => Step(Success(()), map k | k in db' :: Cascade(db'[k], id))
  }

  /** `get_playlist_summaries`: the summary of every stored playlist, sorted by title. */
  function GetPlaylistSummaries(db: Db, order: seq<Uuid>): (r: seq<Summary>)
    requires IsIterationOrder(db, order)
    ensures forall i, j :: 0 <= i < j < |r| ==> CompareTitle(r[i], r[j]) != Greater
    ensures multiset(r) == multiset(StoredPlaylistSummaries(db))
  {
    SelectedAll(db, order, PlaylistSummaryAt);
    assert Selected(db, db.Keys, PlaylistSummaryAt) == StoredPlaylistSummaries(db);
    SortByTitle(FilterMap(db, order, PlaylistSummaryAt), SummaryTitle)
  }

  /** `get_playlists`: every stored playlist, sorted by title. */
  function GetPlaylists(db: Db, order: seq<Uuid>): (r: seq<Playlist>)
    requires IsIterationOrder(db, order)
    ensures forall i, j :: 0 <= i < j < |r| ==> PlaylistCompareTitle(r[i], r[j]) != Greater
    ensures multiset(r) == multiset(StoredPlaylists(db))
  {
    SortByTitle(CollectPlaylists(db, order), PlaylistTitle)
  }

  /** `get_playlist`: the playlist stored at `id`; a lyric there counts as absent. */
  function GetPlaylist(db: Db, id: Uuid): (r: Result<Playlist, Error>)
    ensures r.Success? <==> id in db && db[id].PlaylistRecord?
    ensures r.Success? ==> r.value.id == id && r.value in StoredPlaylists(db)
    ensures r.Failure? ==> r.error == NotFound(id)
  {
    if id in db && db[id].PlaylistRecord? then
      Success(PlaylistFromOptionalId(Some(id), db[id].playlist, id))
    else
      Failure(NotFound(id))
  }

  /** `post_playlist`: like `post_lyric`, the write happens before the
      occupied check. */
  function PostPlaylist(db: Db, playlist: Playlist): (s: Step<Playlist>)
    ensures playlist.id !in db ==> s.result == Success(playlist)
    ensures playlist.id in db ==> s.result == Failure(Occupied)
    ensures s.db.Keys == db.Keys + {playlist.id}
    ensures GetPlaylist(s.db, playlist.id) == Success(playlist)
    ensures forall k :: k in db && k != playlist.id ==> s.db[k] == db[k]
  {
    var (previous, db') := Insert(db, playlist.id, PlaylistRecord(PlaylistPostOf(playlist)));
    match previous
    case Some(_) => Step(Failure(Occupied), db')
    case None => Step(Success(playlist), db')
  }

  /** `delete_playlist`: remove whatever is at `id`, without a cascade. */
  function DeletePlaylist(db: Db, id: Uuid): (s: Step<()>)
    ensures id !in db ==> s.result == Failure(NotFound(id)) && s.db == db
    ensures id in db ==> s.result == Success(())
    ensures id in db ==> s.db.Keys == db.Keys - {id}
    ensures forall k :: k in s.db ==> s.db[k] == db[k]
  {
    var (removed, db') := Remove(db, id);
    match removed
    case None => Step(Failure(NotFound(id)), db)
    case Some(_) => Step(Success(()), db')
  }

  /** `stop`: nothing to release; always succeeds and changes nothing. */
  function Stop(db: Db): (s: Step<()>)
    ensures s.result.Success? && s.db == db
  {
    Step(Success(()), db)
  }

  /** `to_repo_db`: the store flattened into its lyrics and its playlists,
      each in iteration order. */
  function ToRepoDb(db: Db, order: seq<Uuid>): (r: RepoDb)
    requires IsIterationOrder(db, order)
    ensures multiset(r.lyrics) == multiset(StoredLyrics(db))
    ensures multiset(r.playlists) == multiset(StoredPlaylists(db))
  {
    RepoDb(CollectLyrics(db, order), CollectPlaylists(db, order))
  }
}
