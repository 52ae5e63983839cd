/** Two places where the in-memory store's writes behave in a way the
    surrounding code suggests is unintended, each shown on a concrete store.
    Beside each is the corrected operation and the property it keeps.
    Reporting `Occupied` for a taken key suggests the key was refused; the
    HTTP `put` handler, which updates through the same post, suggests
    instead that the write is wanted and the report is wrong. Both
    corrections are given.
    `get_playlist` treats a lyric at the key as absent, so `delete_playlist`
    should too. */
module CorrectedWrites {
  import opened Uuids
  import opened Wrappers
  import opened Types
  import opened InMemoryDb
  import opened InMemoryDbLemmas

  // ---------------------------------------------------------------------
  // Posting to an occupied key

  /** `post_lyric` reports `Occupied` for a taken key, but the insert has
      already replaced the stored lyric: the failed call changed the store. */
  lemma PostLyricOccupiedOverwrites()
    ensures var id := 1 as Uuid;
      var db := map[id := LyricRecord(LyricPost("Old", []))];
      var s := PostLyric(db, Lyric(id, "New", []));
      && s.result == Failure(Occupied)
      && GetLyric(db, id) == Success(Lyric(id, "Old", []))
      && GetLyric(s.db, id) == Success(Lyric(id, "New", []))
  {
  }

  /** `post_playlist` has the same defect. */
  lemma PostPlaylistOccupiedOverwrites()
    ensures var id := 1 as Uuid;
      var db := map[id := PlaylistRecord(PlaylistPost("Old", []))];
      var s := PostPlaylist(db, Playlist(id, "New", []));
      && s.result == Failure(Occupied)
      && GetPlaylist(db, id) == Success(Playlist(id, "Old", []))
      && GetPlaylist(s.db, id) == Success(Playlist(id, "New", []))
  {
  }

  /** `post_lyric` checking the key before writing: a taken key is refused
      and the store is left as it was; a free key is filled as before. */
  function PostLyricIfVacant(db: Db, lyric: Lyric): (s: Step<Lyric>)
    ensures s.result.Success? <==> lyric.id !in db
    ensures s.result.Failure? ==> s.result.error == Occupied && s.db == db
    ensures s.result.Success? ==> s.result.value == lyric && GetLyric(s.db, lyric.id) == Success(lyric)
    ensures forall k :: k in db ==> k in s.db && s.db[k] == db[k]
    ensures s.db.Keys == db.Keys + {lyric.id}
  {
    if lyric.id in db then Step(Failure(Occupied), db) else PostLyric(db, lyric)
  }

  /** `post_playlist` checking the key before writing. */
  function PostPlaylistIfVacant(db: Db, playlist: Playlist): (s: Step<Playlist>)
    ensures s.result.Success? <==> playlist.id !in db
    ensures s.result.Failure? ==> s.result.error == Occupied && s.db == db
    ensures s.result.Success? ==> s.result.value == playlist && GetPlaylist(s.db, playlist.id) == Success(playlist)
    ensures forall k :: k in db ==> k in s.db && s.db[k] == db[k]
    ensures s.db.Keys == db.Keys + {playlist.id}
  {
    if playlist.id in db then Step(Failure(Occupied), db) else PostPlaylist(db, playlist)
  }

  /** The other reading of the same defect: the HTTP `put` handler routes an
      update through `post_lyric` with an existing identifier, so the write
      is wanted and only the `Occupied` report is wrong. This post stores
      the lyric as the code does and always succeeds. */
  function PostLyricUpsert(db: Db, lyric: Lyric): (s: Step<Lyric>)
    ensures s.result == Success(lyric)
    ensures s.db == PostLyric(db, lyric).db
    ensures GetLyric(s.db, lyric.id) == Success(lyric)
  {
    Step(Success(lyric), PostLyric(db, lyric).db)
  }

  /** `post_playlist` read the same way. */
  function PostPlaylistUpsert(db: Db, playlist: Playlist): (s: Step<Playlist>)
    ensures s.result == Success(playlist)
    ensures s.db == PostPlaylist(db, playlist).db
    ensures GetPlaylist(s.db, playlist.id) == Success(playlist)
  {
    Step(Success(playlist), PostPlaylist(db, playlist).db)
  }

  /** The two corrections differ exactly on a taken key: refusing keeps the
      old record, the upsert replaces it; both report the same outcome on a
      free key. */
  lemma CorrectionsDifferOnTakenKeys(db: Db, lyric: Lyric)
    ensures lyric.id !in db ==> PostLyricIfVacant(db, lyric) == PostLyricUpsert(db, lyric)
    ensures lyric.id in db ==> PostLyricIfVacant(db, lyric).db == db
    ensures lyric.id in db ==> PostLyricUpsert(db, lyric).db == db[lyric.id := LyricRecord(LyricPostOf(lyric))]
  {
  }

  /** Where the key is free the checked and unchecked posts coincide. */
  lemma PostIfVacantAgreesOnFreeKeys(db: Db, lyric: Lyric, playlist: Playlist)
    ensures lyric.id !in db ==> PostLyricIfVacant(db, lyric) == PostLyric(db, lyric)
    ensures playlist.id !in db ==> PostPlaylistIfVacant(db, playlist) == PostPlaylist(db, playlist)
  {
  }

  // ---------------------------------------------------------------------
  // Deleting a lyric through delete_playlist

  function ExampleStore(): Db {
    map[0 := PlaylistRecord(PlaylistPost("Gig", [1])), 1 := LyricRecord(LyricPost("One", []))]
  }

  /** `delete_playlist` ignores the tag: given a lyric's identifier it
      removes the lyric without the cascade, so a playlist is left naming a
      lyric that no longer exists. */
  lemma DeletePlaylistOfLyricLeavesDangling()
    ensures MembersAreLyrics(ExampleStore())
    ensures DeletePlaylist(ExampleStore(), 1).result == Success(())
    ensures !MembersAreLyrics(DeletePlaylist(ExampleStore(), 1).db)
  {
    var after := DeletePlaylist(ExampleStore(), 1).db;
    assert after[0].playlist.members == [1];
    assert 1 !in after;
  }

  /** `delete_playlist` that only removes playlists: any other key is
      reported as `NotFound` and the store is left as it was. */
  function DeletePlaylistChecked(db: Db, id: Uuid): (s: Step<()>)
    ensures s.result.Success? <==> id in db && db[id].PlaylistRecord?
    ensures s.result.Failure? ==> s.result == Failure(NotFound(id)) && s.db == db
    ensures s.result.Success? ==> s.db.Keys == db.Keys - {id}
    ensures forall k :: k in s.db ==> s.db[k] == db[k]
  {
    if id in db && db[id].PlaylistRecord? then DeletePlaylist(db, id) else Step(Failure(NotFound(id)), db)
  }

  /** The checked delete keeps every member naming a stored lyric, for any
      identifier it is given. */
  lemma DeletePlaylistCheckedKeepsMembersLyrics(db: Db, id: Uuid)
    requires MembersAreLyrics(db)
    ensures MembersAreLyrics(DeletePlaylistChecked(db, id).db)
  {
    if id in db && db[id].PlaylistRecord? {
      DeletePlaylistOfPlaylistKeepsMembersLyrics(db, id);
    }
  }
}
