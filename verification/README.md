# lipl in-memory repository, modelled in Dafny

This project models the core of the lipl lyric and playlist repository:

- the entity model of `lipl-types`:
  - lyrics, playlists, their post payloads and summaries;
  - the conversions between them;
  - `summaries` and `ids`;
  - the order-preserving `without` filter.
- the in-memory store `InMemoryDb`. It is one hash map from identifier to a tagged `Record`, a lyric payload or a playlist payload. Lyrics and playlists therefore share one keyspace. The store implements the `LiplRepo` operation set: list, list summaries, get, post, delete for lyrics and for playlists, and `stop`. It can also be built from two collections (`new`) and flattened back into them (`to_repo_db`).
- the older entity model of `src/model`, where lyric titles are optional and playlist posts carry members as base58 text.

Each store operation is a pure function of the map. The writes (`post_*`, `delete_*`) and `stop` return a `Step(result, db)`: the operation's result and the map afterwards. The reads (`get_*`, `to_repo_db`) return their result alone, since they leave the map as it was. The Rust `Result` becomes `Result<T, Error>`, where `Error` has the two variants the store produces, `NotFound(id)` and `Occupied`. Identifiers are 128-bit values that are only compared for equality.

Modules:

- `Uuids`: the identifier type and `Distinct`.
- `Wrappers`: `Option` and `Result`.
- `Seqs`: `MapEach`, the `iter().map(f).collect()` used by both entity models.
- `Types`: `lipl-types/src/lib.rs`.
- `TitleOrder`: `String::cmp` and the title sort.
- `InMemoryDb`: the store.
- `InMemoryDbLemmas`: properties that relate several store operations.
- `CorrectedWrites`: the findings below, with the corrected behaviour.
- `Model`: `src/model/mod.rs`.

Three things the Rust code leaves open become parameters:

- Hash-map iteration order is unspecified, so every listing takes an `order` parameter. `IsIterationOrder(db, order)` says that `order` lists each key exactly once. The method `IterationOrder` shows that such an order exists for every store.
- A fresh identifier (`unwrap_or_default`, `Uuid::new_v4`) is a `freshId` parameter.
- Base58 encoding and the text-to-identifier conversion in `src/model` are function parameters.

The model keeps the code's behaviour where it is surprising:

- A post to an occupied key overwrites the stored record before it reports `Occupied`.
- `delete_playlist` removes whatever the key holds, a lyric included, without a cascade.
- `delete_lyric` given a playlist's identifier removes that playlist and strips the identifier from every member list.

The first two points are listed under Findings. `CorrectedWrites` proves the intended behaviour beside them. It takes the intent from the program itself. For the posts the program points two ways. `Occupied` is the error the store uses for a taken key, and reporting it suggests the key was refused. Yet the HTTP `put` handler (crates/lipl-repo-http-server/src/handler.rs:62-73) updates a record by calling the same post with the record's existing identifier, which suggests the write is wanted and only the `Occupied` report is wrong. Both corrections are modelled. `get_playlist` treats a lyric at the key as absent, and `delete_playlist` could be expected to do the same.

## Model

| member | source | states |
|---|---|---|
| Types.DefaultLyricPost | lipl-types/src/lib.rs:55-62 | the default lyric payload has an empty title and no parts |
| Types.LyricFromPost | lipl-types/src/lib.rs:64-72 | the lyric carries the given identifier and exactly the post's payload |
| Types.LyricFromOptionalId | lipl-types/src/lib.rs:74-82 | a given identifier is kept; without one the fresh default is used; the payload is the post's |
| Types.LyricRoundTrip | lipl-types/src/lib.rs:74-88 | splitting a lyric into identifier and post and joining them again gives the same lyric |
| Types.LyricPostOf | lipl-types/src/lib.rs:84-88 | dropping the identifier loses nothing else: attaching the same identifier again restores the lyric |
| Types.PlaylistSummary | lipl-types/src/lib.rs:97-104 | a playlist's summary copies its identifier and title |
| Types.PlaylistFromPost | lipl-types/src/lib.rs:106-114 | the playlist carries the given identifier and exactly the post's payload |
| Types.PlaylistFromFreshPost | lipl-types/src/lib.rs:116-120 | a bare post becomes a playlist under the fresh id with the post's title and members |
| Types.PlaylistFromOptionalId | lipl-types/src/lib.rs:122-130 | a given identifier is kept; without one the fresh default is used; the payload is the post's |
| Types.PlaylistRoundTrip | lipl-types/src/lib.rs:122-145 | splitting a playlist into identifier and post and joining them again gives the same playlist |
| Types.PlaylistPostOf | lipl-types/src/lib.rs:138-145 | dropping the identifier loses nothing else: attaching the same identifier again restores the playlist |
| Types.SummaryFromMeta | lipl-types/src/lib.rs:153-160 | a summary from a lyric meta has the given id and the meta's title |
| Types.LyricMetaOf | lipl-types/src/lib.rs:201-208 | a lyric's meta carries its title and the given etag |
| Types.SummarySummary | lipl-types/src/lib.rs:168-172 | the summary of a summary is itself |
| Types.Summaries | lipl-types/src/lib.rs:181-186 | same length as the input; element i is the summary of input element i |
| Types.Ids | lipl-types/src/lib.rs:188-193 | same length as the input; element i is the identifier of input element i's summary |
| Types.SummariesOfSummaries | lipl-types/src/lib.rs:168-186 | summarising a list of summaries gives back the list |
| Types.IdsOfSummaries | lipl-types/src/lib.rs:181-193 | `ids` is the identifier column of `summaries` |
| Types.Without | lipl-types/src/lib.rs:210-217 | `t` no longer occurs; every other element keeps its count; the length drops by the number of occurrences of `t` |
| Types.WithoutIsSubsequence | lipl-types/src/lib.rs:214-216 | the survivors keep their original relative order |
| Types.WithoutAppend | lipl-types/src/lib.rs:214-216 | filtering a concatenation is concatenating the filtered parts |
| Types.WithoutAbsent | lipl-types/src/lib.rs:214-216 | filtering out an element that does not occur changes nothing |
| Types.WithoutIdempotent | lipl-types/src/lib.rs:214-216 | filtering twice is filtering once |
| Types.WithoutExample | lipl-types/src/lib.rs:235-243 | `["1","2","5"]` without `"2"` is `["1","5"]` |
| TitleOrder.CompareStrings | crates/lipl-axum-inmemorydb/src/lib.rs:89-91 | two titles compare `Equal` exactly when they are the same string |
| TitleOrder.CompareStringsIsLexicographic | crates/lipl-axum-inmemorydb/src/lib.rs:89-91 | `Less` exactly when the first title is a proper prefix of the second, or is smaller at the first position where they differ |
| TitleOrder.DictionaryOrderExample | crates/lipl-axum-inmemorydb/src/lib.rs:89-91 | "AA" sorts before "B", and a prefix before its extension |
| TitleOrder.CompareAntisymmetric | crates/lipl-axum-inmemorydb/src/lib.rs:89-91 | `a` is less than `b` exactly when `b` is greater than `a` |
| TitleOrder.TitleLeTotal | crates/lipl-axum-inmemorydb/src/lib.rs:89-91 | any two titles are ordered one way or the other |
| TitleOrder.TitleLeTransitive | crates/lipl-axum-inmemorydb/src/lib.rs:89-91 | the title order is transitive |
| TitleOrder.InsertByTitle | crates/lipl-axum-inmemorydb/src/lib.rs:134 | inserting into a sorted sequence keeps it sorted and adds exactly that element |
| TitleOrder.SortByTitle | crates/lipl-axum-inmemorydb/src/lib.rs:134 | the result is sorted by title and is a permutation of the input |
| InMemoryDb.Insert | crates/lipl-axum-inmemorydb/src/lib.rs:166 | the previous value is returned if there was one; the new value is stored either way; other keys are kept |
| InMemoryDb.Remove | crates/lipl-axum-inmemorydb/src/lib.rs:174 | the removed value is returned if there was one; only that key goes |
| InMemoryDb.FromEntries | crates/lipl-axum-inmemorydb/src/lib.rs:51-53 | the keys are the entries' keys; for a repeated key the last entry's value is stored |
| InMemoryDb.Entries | crates/lipl-axum-inmemorydb/src/lib.rs:38-52 | the lyrics' tuples come first, then the playlists', each in input order |
| InMemoryDb.New | crates/lipl-axum-inmemorydb/src/lib.rs:47-57 | the keys are the lyrics' and playlists' identifiers; a playlist is kept unless a later playlist shares its id; a lyric is kept unless a later lyric or any playlist shares its id |
| InMemoryDb.IterationOrder | crates/lipl-axum-inmemorydb/src/lib.rs:124 | every store has an order that visits each key exactly once |
| InMemoryDb.FilterMap | crates/lipl-axum-inmemorydb/src/lib.rs:124-132 | for a selector that never yields one value for two keys, the result holds each selected value exactly once |
| InMemoryDb.CompareByTitle | crates/lipl-axum-inmemorydb/src/lib.rs:89-99 | `compare_title`, `lyric_compare_title` and `playlist_compare_title` answer `Equal` exactly when the titles match, and answer other than `Greater` exactly when the titles are in order |
| InMemoryDb.GetLyricSummaries | crates/lipl-axum-inmemorydb/src/lib.rs:123-136 | sorted by `compare_title`; a permutation of the summaries of exactly the lyric-tagged entries, each with its key as id |
| InMemoryDb.GetLyrics | crates/lipl-axum-inmemorydb/src/lib.rs:138-151 | sorted by `lyric_compare_title`; a permutation of exactly the stored lyrics, each with its key as id |
| InMemoryDb.GetLyric | crates/lipl-axum-inmemorydb/src/lib.rs:153-163 | succeeds exactly when the key holds a lyric, returning that lyric under the key; otherwise `NotFound(id)`, also when a playlist is there |
| InMemoryDb.PostLyric | crates/lipl-axum-inmemorydb/src/lib.rs:165-170 | a free key returns the lyric; a taken key returns `Occupied`; either way the lyric is stored at its id, the keys grow by that id only, and no other key changes |
| InMemoryDb.Cascade | crates/lipl-axum-inmemorydb/src/lib.rs:175-182 | a lyric is unchanged; a playlist keeps its title and its members become `without(members, id)` |
| InMemoryDb.DeleteLyric | crates/lipl-axum-inmemorydb/src/lib.rs:172-188 | absent key: `NotFound(id)`, store unchanged; present key: the key goes, lyrics stay, every playlist keeps its title with members `without(members, id)`, and no playlist contains `id` |
| InMemoryDb.GetPlaylistSummaries | crates/lipl-axum-inmemorydb/src/lib.rs:198-209 | sorted by `compare_title`; a permutation of the summaries of exactly the playlist-tagged entries |
| InMemoryDb.GetPlaylists | crates/lipl-axum-inmemorydb/src/lib.rs:211-222 | sorted by `playlist_compare_title`; a permutation of exactly the stored playlists |
| InMemoryDb.GetPlaylist | crates/lipl-axum-inmemorydb/src/lib.rs:224-233 | succeeds exactly when the key holds a playlist; otherwise `NotFound(id)`, also when a lyric is there |
| InMemoryDb.PostPlaylist | crates/lipl-axum-inmemorydb/src/lib.rs:235-240 | a free key returns the playlist; a taken key returns `Occupied`; either way the playlist is stored at its id and no other key changes |
| InMemoryDb.DeletePlaylist | crates/lipl-axum-inmemorydb/src/lib.rs:242-244 | absent key: `NotFound(id)`, store unchanged; present key: only that key goes, whatever its tag, and nothing else is rewritten |
| InMemoryDb.Stop | crates/lipl-axum-inmemorydb/src/lib.rs:246-248 | always succeeds and leaves the store as it was |
| InMemoryDb.CollectLyrics | crates/lipl-axum-inmemorydb/src/lib.rs:64-70 | the lyric half of the fold holds each stored lyric exactly once |
| InMemoryDb.CollectPlaylists | crates/lipl-axum-inmemorydb/src/lib.rs:71-76 | the playlist half of the fold holds each stored playlist exactly once |
| InMemoryDb.ToRepoDb | crates/lipl-axum-inmemorydb/src/lib.rs:59-80 | the lyrics are a permutation of the stored lyrics and the playlists of the stored playlists |
| InMemoryDbLemmas.GetLyricsAgreesWithGetLyric | crates/lipl-axum-inmemorydb/src/lib.rs:138-163 | a lyric is listed exactly when `get_lyric` of its id returns it |
| InMemoryDbLemmas.GetPlaylistsAgreesWithGetPlaylist | crates/lipl-axum-inmemorydb/src/lib.rs:211-233 | a playlist is listed exactly when `get_playlist` of its id returns it |
| InMemoryDbLemmas.LyricSummariesAgreeWithGetLyric | crates/lipl-axum-inmemorydb/src/lib.rs:123-163 | a summary is listed exactly when `get_lyric` finds a lyric with that id and title |
| InMemoryDbLemmas.PlaylistSummariesAgreeWithGetPlaylist | crates/lipl-axum-inmemorydb/src/lib.rs:198-233 | a summary is listed exactly when `get_playlist` finds a playlist with that id and title |
| InMemoryDbLemmas.SummaryListingsAreDisjoint | crates/lipl-axum-inmemorydb/src/lib.rs:21-30 | no identifier is listed both as a lyric and as a playlist |
| InMemoryDbLemmas.PostLyricReplacesPlaylist | crates/lipl-axum-inmemorydb/src/lib.rs:165-170 | posting a lyric under a playlist's id reports `Occupied`, yet the playlist is gone and the lyric is there |
| InMemoryDbLemmas.PostPlaylistToEmptyStore | crates/lipl-axum-inmemorydb/src/lib.rs:324-338 | a post without id to the store `new(empty(), empty())` gets the fresh id and is then the only playlist and only summary listed |
| InMemoryDbLemmas.LyricSummariesSortExample | crates/lipl-axum-inmemorydb/src/lib.rs:123-136 | after posting lyrics titled B, A, C to an empty store, the summaries come out as A, B, C whatever the iteration order |
| InMemoryDbLemmas.DeleteLyricTwiceFails | crates/lipl-axum-inmemorydb/src/lib.rs:172-188 | after a successful lyric delete, the same delete fails `NotFound` and changes nothing |
| InMemoryDbLemmas.DeletePlaylistTwiceFails | crates/lipl-axum-inmemorydb/src/lib.rs:242-244 | after a successful playlist delete, the same delete fails `NotFound` and changes nothing |
| InMemoryDbLemmas.DeleteLyricKeepsMembersLyrics | crates/lipl-axum-inmemorydb/src/lib.rs:172-184 | if every member names a stored lyric before `delete_lyric`, it still does after |
| InMemoryDbLemmas.DeletePlaylistOfPlaylistKeepsMembersLyrics | crates/lipl-axum-inmemorydb/src/lib.rs:242-244 | deleting a key that holds a playlist, or nothing, keeps every member naming a stored lyric |
| InMemoryDbLemmas.PostLyricKeepsMembersLyrics | crates/lipl-axum-inmemorydb/src/lib.rs:165-170 | posting any lyric, even one that replaces a playlist, keeps every member naming a stored lyric |
| InMemoryDbLemmas.MetaSummaryIsListed | lipl-types/src/lib.rs:153-160 | the summary built from a stored lyric's meta and id is one the store lists, whatever the hash |
| InMemoryDbLemmas.CascadeExample | crates/lipl-axum-inmemorydb/src/lib.rs:172-184 | after posting L1, L2, L3 and a playlist [L1, L2, L3], deleting L2 leaves the playlist as [L1, L3], and L2 is then not found |
| InMemoryDbLemmas.StoredLyricsOfNew | crates/lipl-axum-inmemorydb/src/lib.rs:47-57 | with distinct ids, the lyrics `new` stores are exactly the input lyrics |
| InMemoryDbLemmas.StoredPlaylistsOfNew | crates/lipl-axum-inmemorydb/src/lib.rs:47-57 | with distinct ids, the playlists `new` stores are exactly the input playlists |
| InMemoryDbLemmas.SnapshotRoundTrip | crates/lipl-axum-inmemorydb/src/lib.rs:47-80 | with distinct ids, `to_repo_db(new(ls, ps))` returns `ls` and `ps` up to order |
| InMemoryDbLemmas.LoadSaveRoundTrip | crates/lipl-axum-inmemorydb/src/lib.rs:47-80 | for every store and every iteration order, `new(to_repo_db(db))` is `db` again |
| InMemoryDbLemmas.ToRepoDbDistinct | crates/lipl-axum-inmemorydb/src/lib.rs:59-80 | a snapshot never repeats an identifier, within the lyrics, within the playlists or across the two |
| CorrectedWrites.PostLyricOccupiedOverwrites | crates/lipl-axum-inmemorydb/src/lib.rs:165-170 | a failed `post_lyric` on a taken key has replaced the stored lyric |
| CorrectedWrites.PostPlaylistOccupiedOverwrites | crates/lipl-axum-inmemorydb/src/lib.rs:235-240 | a failed `post_playlist` on a taken key has replaced the stored playlist |
| CorrectedWrites.PostLyricIfVacant | crates/lipl-axum-inmemorydb/src/lib.rs:165-170 | succeeds exactly on a free key; on a taken key reports `Occupied` and leaves the store unchanged; never loses a stored record |
| CorrectedWrites.PostPlaylistIfVacant | crates/lipl-axum-inmemorydb/src/lib.rs:235-240 | the same for playlists |
| CorrectedWrites.PostIfVacantAgreesOnFreeKeys | crates/lipl-axum-inmemorydb/src/lib.rs:165-170 | on a free key the checked post is the original post |
| CorrectedWrites.PostLyricUpsert | crates/lipl-axum-inmemorydb/src/lib.rs:165-170 | the other reading: the lyric is stored exactly as the code stores it, and the post reports success |
| CorrectedWrites.PostPlaylistUpsert | crates/lipl-axum-inmemorydb/src/lib.rs:235-240 | the same reading for playlists |
| CorrectedWrites.CorrectionsDifferOnTakenKeys | crates/lipl-axum-inmemorydb/src/lib.rs:165-170 | the two corrections agree on a free key; on a taken key one keeps the old record and the other replaces it |
| CorrectedWrites.DeletePlaylistOfLyricLeavesDangling | crates/lipl-axum-inmemorydb/src/lib.rs:242-244 | `delete_playlist` given a lyric's id succeeds and leaves a playlist naming a lyric that is gone |
| CorrectedWrites.DeletePlaylistChecked | crates/lipl-axum-inmemorydb/src/lib.rs:242-244 | succeeds exactly when the key holds a playlist and removes only it; otherwise `NotFound(id)` with the store unchanged |
| CorrectedWrites.DeletePlaylistCheckedKeepsMembersLyrics | crates/lipl-axum-inmemorydb/src/lib.rs:242-244 | the checked delete keeps every member naming a stored lyric, whatever id it is given |
| Model.LyricFromPost | src/model/mod.rs:25-33 | the lyric carries the fresh id and exactly the post's optional title and parts |
| Model.PlaylistPostFromUuids | src/model/mod.rs:61-68 | keeps the title; one encoded member per identifier, in the same order |
| Seqs.MapEach | src/model/mod.rs:65 | same length as the input; element i is the function applied to input element i |
| Model.PlaylistFromPost | src/model/mod.rs:91-99 | the fresh id and the post's title; member i is the conversion of the post's member i |
| Model.PlaylistFromIdAndPost | src/model/mod.rs:150-159 | the given id and the post's title; members have the same length and order as the post's |
| Model.LyricId | src/model/mod.rs:120-124 | `HasId for Lyric` answers the lyric's own identifier |
| Model.PlaylistId | src/model/mod.rs:135-139 | `HasId for Playlist` answers the playlist's own identifier |
| Model.FreshAndGivenIdAgree | src/model/mod.rs:91-99 | building under a fresh id is building under that id as a given id |
| Model.PlaylistPostRoundTrip | src/model/mod.rs:61-68 | encoding the members and decoding them gives the playlist back when decoding inverts encoding |
| Model.LyricToSummary | src/model/mod.rs:126-133 | copies the id and the optional title |
| Model.PlaylistToSummary | src/model/mod.rs:141-148 | copies the id and wraps the title in `Some` |

## Left out

- Locking and concurrency (`RwLock`, `Arc`, `async_trait`, lock poisoning through `unwrap`): each operation is one atomic step on the map.
- YAML `load`/`save` (`Yaml` for `InMemoryDb`): serde I/O. Only the `new`/`to_repo_db` pair they rely on is modelled.
- `Etag`: it depends on bincode and the etag crate. `LyricMetaOf` therefore takes the etag as a parameter.
- The `Display` implementations: formatting only, and they depend on base58.
- `src/model/uuid_ext.rs` and `PathBuf::to_uuid`: the base58 encoding is not part of this model, so it is a function parameter.
- Random identifier generation (`Uuid::default`, `new_v4`): a fresh-identifier parameter instead.
- The commented-out `put` code: it is disabled.
- The `LiplRepo` trait as a type: Dafny traits are not used here. The `InMemoryDb` functions are its one implementation.
- HTTP handlers, the CLI, the Postgres row conversion, the error enum, filesystem listing and timing: these are outside the core.
- Model.PlaylistFromPost: the text-to-identifier conversion panics on malformed text; here it is a total function parameter.
- Model.PlaylistFromIdAndPost: the same conversion, treated as total in the same way.
- TitleOrder.SortByTitle: the contract does not state that Rust's `sort_by` is stable. The input comes in the hash map's unspecified order, so stability cannot be observed through the repository.
- InMemoryDb.ToRepoDb: the single fold that splits entries into two lists is modelled as two filter passes over the same iteration order. That both give the fold's lists rests on an assumption taken from the name of `VecExt::add_one` (used at crates/lipl-axum-inmemorydb/src/lib.rs:68 and :74): that it appends one element; `add_one` is not part of this model, and the contract only promises each list up to order.

## Findings

| source | as written | input that shows it | evidently intended | confidence | as-written member | corrected member |
|---|---|---|---|---|---|---|
| crates/lipl-axum-inmemorydb/src/lib.rs:165-170 | `insert` runs before the occupied check, so the stored lyric is replaced and then `Err(Occupied)` is returned | store with lyric "Old" at id 1; `post_lyric(Lyric { id: 1, title: "New" })` | either a taken key is refused and the store is left unchanged, or, as the HTTP `put` handler (crates/lipl-repo-http-server/src/handler.rs:62-73) relies on, the write stands and the post reports success; `CorrectedWrites.PostLyricUpsert` models the second reading | medium; not executed | CorrectedWrites.PostLyricOccupiedOverwrites | CorrectedWrites.PostLyricIfVacant |
| crates/lipl-axum-inmemorydb/src/lib.rs:235-240 | the same for playlists | store with playlist "Old" at id 1; `post_playlist(Playlist { id: 1, title: "New" })` | either a taken key is refused and the store is left unchanged, or, as the HTTP `put` handler (crates/lipl-repo-http-server/src/handler.rs:62-73) relies on, the write stands and the post reports success; `CorrectedWrites.PostPlaylistUpsert` models the second reading | medium; not executed | CorrectedWrites.PostPlaylistOccupiedOverwrites | CorrectedWrites.PostPlaylistIfVacant |
| crates/lipl-axum-inmemorydb/src/lib.rs:242-244 | `delete_playlist` removes whatever the key holds, so a lyric is removed without the cascade | playlist "Gig" with members [1] at id 0 and a lyric at id 1; `delete_playlist(1)` | only a playlist is removed; any other key reports `NotFound`, as `get_playlist` does | medium; not executed | CorrectedWrites.DeletePlaylistOfLyricLeavesDangling | CorrectedWrites.DeletePlaylistChecked |

The store functions in `InMemoryDb` keep the code's behaviour, as the rest of this model describes the code as written. `CorrectedWrites` gives the corrected operations and proves the intended property of each.
