# Playlist analysis: a Dafny model of the sync services and the link handling

The system copies a music-streaming playlist into a relational store, then
serves summaries of it to a web front end. This project models its core in
Dafny and proves properties of that model:

- **The api service** (`api/main.py`, `api/models.py`) is called with a
  playlist id.
  - It fetches the playlist and upserts its row.
  - It walks the paged track list. Stored members that are no longer remote
    are deleted, and remote tracks that are not yet members are added.
  - While adding, it fetches audio features for tracks not yet stored, in
    batches of 100, and inserts their rows. It fetches the artists not yet
    stored, in batches of 50, and inserts those rows and the (track, artist)
    attribution rows.
  - It answers with a summary: the playlist columns, the track count, the
    five artists with the most tracks and the five most frequent genres
    (weighted by track count).
- **The earlier backend** (`backend/main.py`, `backend/models.py`) is called
  with a playlist URL.
  - It cuts the id out of the URL.
  - It upserts the playlist, every track and every artist one statement at a
    time. It inserts the genre and attribution join rows with `ON CONFLICT DO
    NOTHING`.
  - Its routes return every stored playlist, track or artist.
- **The front ends.** Both `Home.jsx` files take the playlist id out of a
  pasted link with the regular expression `/playlist\/([^?]+)/`, then either
  navigate to `/analysis/<id>` or show an error and clear the input.
  `parseDuration` in `client/src/components/Analysis.jsx` renders a duration
  in seconds as `<h>h <m>m`.

## Where each part is modelled

- **How the model is built:**
  - The database is a `class Store` whose fields are the tables: maps keyed
    by primary key, and sets of pairs for the join tables. Each SQL helper is
    a method with a `modifies` clause. Its contract gives its new state, and
    its error cases come back as outcomes (`NullKey`, `DuplicateKey`,
    `ForeignKeyViolation`).
  - The remote catalogue is a value (`Catalog.Catalog`). Its fields are the
    playlist by id, the pages behind the `next` URLs and the two batch
    endpoints. No I/O is modelled.
  - The Python loops are Dafny methods with loop invariants, proved against
    reference functions: `Batching.Chunks`, `Pagination.Walk`,
    `ApiSync.ZipBatches`, `BackendSync.PairBatches` and
    `BackendSync.ArtistTable`/`GenreRows`/`LinkRows`.
  - The front-end form is a class whose fields are the three pieces of
    React state.
- **Where things live:**
  - Batching of id lists: `batching.dfy`.
  - The token cache: `token_cache.dfy`. It is shared by both services,
    whose code is identical.
  - The pagination walk: `pagination.dfy`.
  - Payloads and rows: `catalog.dfy`.
  - The api store: `api_models.dfy`. The api sync: `api_main.dfy`. The
    summary aggregates: `aggregates.dfy`.
  - The backend store: `backend_models.dfy`. The backend sync:
    `backend_main.dfy`.
  - The link regular expression and the form: `playlist_link.dfy`.
  - The duration text: `duration_text.dfy`.
  - Python's `split`/`join` and decimal rendering: `text.dfy`.
  - Generic sequence facts: `seqs.dfy`. Shared result types: `common.dfy`.
- **Conditions the catalogue may or may not meet.** The main guarantees are
  stated under two predicates:
  - `FeaturesAnswered`: every audio-feature batch has one entry per id.
  - `ArtistsAnswered`: every artist batch holds the requested artists, in
    request order.
  - When a predicate fails, the model still states what can and cannot
    change.
- **Behaviour of the code worth knowing:**
  - Despite their names, `insert_or_update_tracks`, `insert_or_update_artists`,
    `insert_playlist_tracks` and `insert_track_artists` are plain
    `INSERT ... VALUES` statements with no conflict clause
    (`api/models.py:87-125`). A stored or repeated key fails the statement.
  - `fetch_playlist` does not check the HTTP status (`api/main.py:41-47`).
    An error answer is read as a playlist without an id.

## Model

| member | source | states |
|---|---|---|
| Batching.ChunkedList | api/main.py:11-14 | The loop yields the reference chunking. The batches concatenate back to the input. Each batch is non-empty and at most `chunk_size` long, and all but the last are exactly that long. There are no batches exactly when the input is empty. |
| Batching.ChunksFlatten | backend/main.py:9-12 | The backend's copy of `chunked_list` loses and duplicates nothing: the batches concatenate to the input. |
| Batching.ChunksSizes | api/main.py:13-14 | Batch sizes: each is between 1 and n, each but the last is exactly n, and an empty input gives no batch. |
| Batching.ChunksSameShape | api/main.py:100 | Two lists of equal length are cut into the same number of batches with equal lengths. This is the condition under which the zip of track batches with id batches pairs them up exactly. |
| Batching.ChunksElements | backend/main.py:129 | Every id in a batch is an id of the input. |
| TokenCache.Session.GetTokenHeaders | api/main.py:17-38 | A token is requested only when none is cached or its expiry is strictly before now. After a refresh the cache holds the new token and expires 60 s before the reported lifetime. A response missing either key raises and leaves the cache unchanged. The header (`BearerHeader`) is always `Authorization: Bearer <cached token>`. |
| TokenCache.RefreshedTokenLifetime | backend/main.py:17-33 | A freshly cached token is reused exactly up to and including `now + expires_in - 60`. |
| Pagination.FetchAllPlaylistTracks | api/main.py:67-83 | The `while tracks` loop computes the reference walk: it collects each page's items and stops at an empty page or a missing or empty `next`. |
| Pagination.WalkConcatenatesChain | backend/main.py:63-81 | Over a chain of visited pages, the result is the items of those pages concatenated in order. |
| Pagination.EmptyPageEndsWalk | api/main.py:72 | A page without items ends the walk, even if it has a `next` URL. |
| Pagination.WalkFuelMonotone | api/main.py:72-81 | Once the walk ends within a fetch bound, a larger bound gives the same list. |
| Catalog.TrackRowColumns | api/main.py:109-131 | The id, name, thumbnail (`Thumbnail`: the first album image's URL, or none without images), preview, popularity and duration columns come from the track, whatever feature entry it is zipped with. A null entry (`or {}`) leaves every feature column empty. |
| Text.SplitPiecesHaveNoSep | api/main.py:197 | No piece of `split(",")` contains a comma. |
| Text.JoinSplit | api/main.py:170 | Joining the pieces of a split with the separator gives the string back. |
| Text.SplitJoin | api/main.py:170 | Splitting a join of comma-free genres gives the genres back. |
| Text.FirstPiece | backend/main.py:163 | `split("?")[0]` is the prefix up to the first '?', or the whole string. |
| Text.LastPiece | backend/main.py:163 | `split("/")[-1]` is the suffix after the last '/', or the whole string. |
| Text.NatToDecimalReadsBack | client/src/components/Analysis.jsx:67 | The decimal text of a natural number is non-empty, all digits, has no leading zero and denotes the number. |
| ApiModels.MembersAdd | api/models.py:87-95 | Inserting membership rows for a playlist adds exactly their ids to its members (`Members`, which `PlaylistTrackIds` reads for `get_playlist_track_ids`). |
| ApiModels.MembersRemove | api/models.py:74-84 | Deleting membership rows for a playlist removes exactly their ids from its members (`Members`). |
| ApiModels.Store.MembersAreStored | api/models.py:151-161 | Under the foreign keys, looking a playlist's members up with `get_existing_track_ids` (`ExistingTrackIds`) finds every one of them, and a playlist with members is stored. |
| ApiModels.Store.AttributionsOfMembers | api/models.py:203-211 | Under the foreign keys, the two inner joins of the artist query drop no attribution row: the joined rows (`Attributions`) are exactly the attribution rows of member tracks. |
| ApiModels.Store.constructor | api/models.py:3-49 | A new schema has five empty tables whose foreign keys hold. |
| ApiModels.Store.ResetDatabase | api/models.py:67-71 | Dropping and recreating the tables leaves all five empty. |
| ApiModels.Store.RemovePlaylistTracks | api/models.py:74-84 | Only the playlist's rows for the given ids are deleted. Other playlists and the other tables are unchanged. |
| ApiModels.Store.InsertPlaylistTracks | api/models.py:87-95 | The insert succeeds exactly when every row is new, unrepeated and has its foreign keys. It then adds one row per id. On failure nothing changes, and the error is a key conflict or a dangling reference. |
| ApiModels.Store.InsertTrackArtists | api/models.py:98-105 | The insert succeeds exactly when the pairs are new, distinct and reference stored rows. It then adds exactly those pairs. On failure nothing changes. |
| ApiModels.Store.InsertOrUpdateTracks | api/models.py:108-115 | A plain INSERT: it succeeds exactly when the batch ids are distinct and not yet stored. It then adds the rows under their ids. On failure nothing changes. |
| ApiModels.Store.InsertOrUpdateArtists | api/models.py:118-125 | The same for artist rows. |
| ApiModels.Store.InsertOrUpdatePlaylist | api/models.py:128-148 | An upsert of the row under its id. A null id fails with nothing changed. |
| ApiModels.Store.GetPlaylistArtists | api/models.py:198-218 | One row per distinct (name, genres, thumbnail, popularity) group. Each row carries the number of joined attribution rows in its group. Rows are ordered by that count descending. |
| ApiModels.OrderByCountDesc | api/models.py:213-214 | `GROUP BY ... ORDER BY num_tracks DESC`: every group once, with its count, the largest count first. |
| Aggregates.TopArtistsAreTop | api/main.py:186-188 | `TopArtists` lists the name and count of the first `min(5, n)` rows. Over rows ordered by count, the listed artists have non-increasing counts. No unlisted artist has more tracks than a listed one. Fewer than five are listed only when there are fewer rows. |
| Aggregates.RepeatCount | api/main.py:198 | `for _ in range(num_tracks)` (`Repeat`) adds the genre exactly its track count many times. |
| Aggregates.ArtistGenresCount | api/main.py:196-199 | In one artist's part of the flat list, a non-empty genre occurs track-count times its number of segments. The empty genre never occurs. |
| Aggregates.GenresFlatCounts | api/main.py:194-200 | In the weighted genre list, each non-empty genre occurs as often as its independent reference weight. The weight is the sum over rows of track count times the genre's segments. The empty genre is dropped. |
| Aggregates.JoinedGenresReadBack | api/main.py:170 | A genre column written as the comma-join of comma-free genres gives those genres back when split, so an artist without genres contributes nothing. |
| Aggregates.BumpSpec | api/main.py:203 | Counting one more occurrence raises that name's count by one and keeps the names distinct. |
| Aggregates.TallyCounts | api/main.py:203 | `Counter(genres)`: each genre appears once, with its number of occurrences. |
| Aggregates.InsertDescSpec | api/main.py:203 | Inserting into a list sorted by count descending keeps it sorted and adds the entry once. |
| Aggregates.SortDescSpec | api/main.py:203 | `sorted(..., key=count, reverse=True)`: the entries are sorted by count descending and are a permutation of the input. |
| Aggregates.TopGenresSpec | api/main.py:193-208 | At most five genres, largest count first. Each comes with its exact number of occurrences and is listed once. No unlisted genre occurs more often than a listed one. Fewer than five only when there are fewer distinct genres. |
| ApiSync.ZipBatchesOrigin | api/main.py:100-133 | Every built row carries the track columns of some input track, so no row is invented. |
| ApiSync.ZipBatchesAnswered | api/main.py:100-133 | With one feature entry per requested id and batches of equal length, `zip(tracks, tracks_features)` (`ZipRows`) loses no track: the rows' track columns are the tracks', in order. |
| ApiSync.BuildTrackRows | api/main.py:96-133 | Every row comes from an input track, and no tracks give no rows. With one feature entry per id and distinct track ids, the rows are the tracks, one each, in order. |
| ApiSync.ArtistRowOf | api/main.py:161-172 | The row carries the artist's id, name and popularity and its first image. The genre column splits back to the genre list. |
| ApiSync.ArtistBatchesKeys | api/main.py:152-172 | When each batch is answered with its artists, the rows built from the answers (`ArtistRows`) carry exactly the requested ids, in order. |
| ApiSync.BuildArtistRows | api/main.py:151-172 | The loop builds the rows of the 50-id batches. When answered, their ids are the requested ids. No ids give no rows. |
| ApiSync.OwnPairs | api/main.py:176-180 | A track's pairs are exactly (track id, credited artist). They are duplicate-free when its credits are. |
| ApiSync.TrackArtistPairsMembers | api/main.py:176-180 | Each attribution pair links a listed track to one of its credited artists. |
| ApiSync.TrackArtistPairsCover | api/main.py:176-180 | Every credit of every listed track has its pair. |
| ApiSync.TrackArtistPairsDistinct | api/main.py:176-180 | With distinct track ids and duplicate-free credits, no pair repeats. |
| ApiSync.FilterIdsMembers | api/main.py:236-238 | The filter keeps exactly the tracks whose id is in the new-id set. |
| ApiSync.FilterIdsElements | api/main.py:236-238 | A track is kept exactly when it is listed and its id is among the kept ids. |
| ApiSync.FilterIdsDistinct | api/main.py:236-238 | The filter preserves distinct ids. |
| Catalog.IdSetCard | api/main.py:222 | `{track["id"] for track in ...}` (`IdSet`) holds the ids of `TrackIds`, and has one id per track exactly when no id repeats. |
| ApiSync.FilterIdsSpec | api/main.py:90 | `[track for track in tracks if track["id"] not in existing]` keeps exactly the kept ids, preserving distinctness. |
| ApiSync.UnstoredTracks | api/main.py:85-89 | Given the ids `get_existing_track_ids` finds (`ExistingTrackIds`), the tracks handed on are listed tracks whose id is not stored. With the stored ids they cover every listed id. They have distinct ids when the list does, and the empty list hands on none. |
| ApiSync.MissingTracks | api/main.py:232-238 | The tracks added are exactly those whose id is not a member yet. With the members kept they make up the remote ids. When nothing differs, none are added. |
| ApiSync.Without | api/main.py:145-149 | The new artist ids are exactly the credited ids not yet stored, duplicate-free. |
| ApiSync.NewArtistKeys | api/main.py:141-149 | Given the ids `get_existing_artist_ids` finds (`ExistingArtistIds`), the rows fetched for the ids not yet stored have distinct keys, none of them stored. Together with the stored keys they cover every credited id. |
| ApiSync.InsertNewArtists | api/main.py:140-174 | Stored artists are untouched. When answered, the insert succeeds and afterwards exactly the credited ids are added. With no credits, nothing changes. |
| ApiSync.UpdateOrCreateArtists | api/main.py:140-181 | On success, the attribution table gains exactly the pairs of the tracks. On failure it is unchanged. When answered with distinct ids and the tracks stored, it succeeds. |
| ApiSync.UpdateOrCreateTracks | api/main.py:96-137 | Stored tracks are never rewritten, and only ids of the given tracks are added. When both endpoints answer and the ids are new and distinct, it succeeds and every track is stored under its id with its own columns (id, name, thumbnail, preview, popularity, duration), and every credited artist is stored. |
| ApiSync.AddPlaylistTracks | api/main.py:86-93 | On success the playlist's members grow by exactly the given ids, and other playlists keep theirs. Under the answering conditions it succeeds, and every listed track that was not stored is stored with its own columns. No tracks change nothing. |
| ApiSync.CreateUnstoredTracks | api/main.py:87-91 | The first half of AddPlaylistTracks: only the tracks that the lookup does not find are handed to UpdateOrCreateTracks. No membership row changes. Under the answering conditions it succeeds, every listed id is stored afterwards, and every track that was not stored is stored with its own columns. |
| ApiSync.StaleIds | api/main.py:226-229 | `list(existing - remote)` holds exactly the stored ids that are not remote. It is empty when none are stale. |
| ApiSync.RemoveStale | api/main.py:223-229 | The playlist's members become the stored members that are still remote. Everything else is unchanged. |
| ApiSync.ApplyMembership | api/main.py:220-239 | Members still remote stay, and no non-remote member remains. On success the members are exactly the remote ids. Under the answering conditions every remote track that was not stored is stored with its own columns. When nothing differs, no row changes. It can fail only with a key conflict or a dangling reference. |
| ApiSync.SyncPlaylist | api/main.py:211-268 | A null playlist id fails with no change. Otherwise the playlist row is upserted. Stored tracks and artists are never rewritten, and other playlists keep their members. On success the members are exactly the remote ids, the track count is the remote list's length, title, description, follower count and image are the playlist's columns, and the top artists and genres are `TopArtists`/`TopGenres` of an answer of the artist query on the final tables. `get_playlist_length` raises (`NullLength`) when no member has a stored duration, and the sync succeeds only when one has. A `NullLength` failure comes after the membership writes, so the members are then exactly the remote ids as well; under the answering conditions they are the remote ids whatever the result. Under the answering conditions it succeeds exactly then, and every remote track that was not stored before is stored with its own columns. A sync with nothing to change touches only the playlist row. |
| ApiSync.SyncTwice | api/main.py:211-244 | Idempotence: when a sync succeeds, an identical second sync succeeds, reports the same track count and leaves every table as the first left it. |
| BackendModels.Store.constructor | backend/models.py:4-56 | A new schema has six empty tables whose foreign keys hold. |
| BackendModels.Store.CreateTables | backend/models.py:59-62 | `CREATE TABLE IF NOT EXISTS` changes no row of an existing schema. |
| BackendModels.Store.InsertOrUpdateArtist | backend/models.py:65-78 | An upsert: the row is stored under its id, and no other row or table changes. |
| BackendModels.Store.InsertOrUpdateTrack | backend/models.py:81-123 | An upsert of all columns under the id, and no other row or table changes. |
| BackendModels.Store.InsertOrUpdatePlaylist | backend/models.py:126-146 | An upsert under the id. It fails exactly when the id is null, and then nothing changes. |
| BackendModels.Store.InsertArtistTrack | backend/models.py:149-159 | It fails exactly when the artist or track is not stored (a foreign-key violation), and then nothing changes. Otherwise the pair is added, and an existing pair changes nothing. |
| BackendModels.Store.InsertPlaylistTrack | backend/models.py:162-172 | The same for (playlist, track). |
| BackendModels.Store.InsertArtistGenre | backend/models.py:175-185 | It fails exactly when the artist is not stored. Otherwise the (artist, genre) row is added once. |
| BackendModels.Store.GetAllPlaylists | backend/models.py:188-191 | Every stored playlist exactly once, with its id, and nothing else. |
| BackendModels.Store.GetAllTracks | backend/models.py:194-197 | Every stored track row exactly once, and nothing else. |
| BackendModels.Store.GetAllArtists | backend/models.py:200-203 | Every stored artist row exactly once, and nothing else. |
| BackendSync.ParsePlaylistIdSpec | backend/main.py:163 | The id contains neither '/' nor '?'. It is the prefix, up to the first '?', of the text after the last '/'. |
| BackendSync.TrailingSlashGivesEmptyId | backend/main.py:163 | A URL ending in '/' yields the empty id. |
| Catalog.RowsCoverTracks | backend/main.py:87-119 | With one feature entry per id and distinct ids, every track has a row under its id carrying its columns. |
| BackendSync.UpsertedTable | backend/main.py:98-121 | Upserting the rows keeps every stored key and adds only ids of the tracks. Rows of other ids are unchanged. Under the answering condition every track is stored with its columns. |
| BackendSync.UpsertTracks | backend/main.py:98-121 | One upsert per row, in order, gives the stored table overridden by the rows, later rows winning. |
| BackendSync.UpdateOrCreateTracks | backend/main.py:84-121 | Every written row comes from a track. Tracks outside the list keep their rows. Under the answering condition every track is stored with its columns. No other table changes. |
| BackendSync.PairBatchesKeys | backend/main.py:129-138 | When each batch is answered with its artists, the requested ids are paired in order. |
| BackendSync.PairBatchesMatched | backend/main.py:129-138 | When answered, `zip(artists_ids, artists)` (`ZipIds`) pairs each requested id with the artist of that id. |
| BackendSync.ArtistPairs | backend/main.py:129-138 | The request loop yields the reference pairs. When answered, they are the requested ids, each with its own artist. |
| BackendSync.RowsOfPrefix | backend/main.py:138-154 | The rows written by a prefix of the pairs are among those of all of them. |
| BackendSync.LinkRowsMembers | backend/main.py:152-154 | An attribution row (one id's rows are `LinkSet`) is written exactly for a requested id and a track crediting it. |
| BackendSync.LinkRowsAreCredits | backend/main.py:124-154 | When the requested ids are the credited ids, the attribution rows are exactly every (artist, track) credit. |
| BackendSync.GenreRowsMembers | backend/main.py:149-150 | Every requested id gets exactly the genres of the artist answered for it (one id's rows are `GenreSet`). |
| BackendSync.InsertGenres | backend/main.py:149-150 | All inserts succeed exactly when there is no genre or the artist is stored, and then every genre row is added. The first failure stops the request with the genre table unchanged. |
| BackendSync.LinkTracks | backend/main.py:152-154 | All inserts succeed exactly when every crediting track is stored and the id is a stored artist (or credits no track), and then every link is added. On failure only some of them are added. |
| BackendSync.LinkSetStep | backend/main.py:152-154 | One more track adds its link exactly when it credits the id. |
| BackendSync.StoreArtist | backend/main.py:139-154 | The artist row is upserted, then its genres and links. It succeeds exactly when the requested id is stored (or has no genres and credits no track) and every crediting track is stored. It then adds exactly those rows. |
| BackendSync.PrefixStep | backend/main.py:138-154 | Each pair adds its artist row, its genre rows and its link rows to those of the earlier pairs. |
| BackendSync.StoreNext | backend/main.py:138-154 | One pass of the zip loop adds the next pair's artist, genre and link rows on success. It never writes rows outside those of all pairs, and it succeeds for a matched pair whose tracks are stored. |
| BackendSync.StorePairs | backend/main.py:138-154 | On success the tables are the stored ones plus exactly the rows of all pairs. On failure they are bounded by them. With matched pairs and stored tracks it succeeds. |
| BackendSync.ArtistTableKeys | backend/main.py:141-147 | With matched pairs the artist rows (`ArtistRowOf`: id, name, popularity, first image) are keyed by exactly the requested ids. |
| BackendSync.AnsweredPairRows | backend/main.py:124-154 | When every credited id is answered with its own artist, there is one artist row per credited id, and the attribution rows are exactly the credits. |
| BackendSync.UpdateOrCreateArtists | backend/main.py:124-154 | The credited ids are requested once each. When answered and the tracks are stored, it succeeds. The attribution table then gains exactly every credit, and every credited artist is stored. |
| BackendSync.SyncPlaylist | backend/main.py:157-182 | The id comes from the URL. A null playlist id fails with no change. Otherwise the playlist row is upserted, and tables only grow. Success reports the playlist's name, or "Untitled". When the catalogue answers, it succeeds with every track stored with its columns, every credited artist stored and every credit linked. Membership rows are never written. |
| BackendSync.SyncTwice | backend/main.py:157-182 | When the catalogue answers, a second identical sync succeeds with the same message and leaves the playlists, the membership and attribution rows, the stored track and artist ids and each synced track's own columns as the first left them. |
| BackendSync.ResetDatabase | backend/main.py:214-219 | The reset route only reruns `create_tables`, so no row changes. |
| PlaylistLink.RunEnd | client/src/components/Home.jsx:14 | `[^?]+` is greedy: the group runs to the next '?' or the end. |
| PlaylistLink.MatchFromSpec | client/src/components/Home.jsx:14 | The search matches exactly when some position holds "playlist/" followed by a character other than '?'. The capture starts at the leftmost such position. |
| PlaylistLink.MatchExistsIff | client/src/components/Home.jsx:19-20 | `match` is truthy exactly when the link contains "playlist/" followed by a character other than '?'. |
| PlaylistLink.MatchCapture | new-frontend/src/components/Home.jsx:10 | The captured id is non-empty and free of '?'. It starts after the leftmost marker and runs to the next '?' or the end. |
| PlaylistLink.CaptureAt | new-frontend/src/components/Home.jsx:10 | The group at a qualifying position is non-empty and free of '?'. |
| PlaylistLink.CaptureKeepsSlashes | client/src/components/Home.jsx:14 | Only '?' ends the group, so `/playlist/a/b?si` captures `a/b`. |
| PlaylistLink.SubmitOutcome | client/src/components/Home.jsx:16-27 | A submit (`Submit`) navigates exactly when the link qualifies, to a route ending in a non-empty id without '?'. Otherwise it leaves the error and an empty input, and a second submit changes nothing. |
| PlaylistLink.HomeForm.constructor | new-frontend/src/components/Home.jsx:8-9 | The form starts with an empty link, no error and no navigation. |
| PlaylistLink.HomeForm.HandleSubmit | client/src/components/Home.jsx:16-27 | The form's new state is `Submit` of its old state. |
| DurationText.JsRem | client/src/components/Analysis.jsx:65 | JavaScript `%`: a non-negative left operand gives 0..b-1, and a negative one gives -(b-1)..0. |
| DurationText.MinutesRange | client/src/components/Analysis.jsx:65 | The minutes lie in 0..59 for a non-negative duration and in -59..0 for a negative one. |
| DurationText.HoursAndMinutes | client/src/components/Analysis.jsx:65-66 | For a non-negative duration, hours times 60 plus minutes is the whole number of minutes. |
| DurationText.ParseDurationText | client/src/components/Analysis.jsx:64-68 | For a non-negative duration the text is the decimal hours, "h ", one or two digits of minutes and "m". |

## Left out

- **Not modelled:**
  - HTTP, Flask, psycopg2 and the execution of SQL text. The tables are
    modelled as maps and sets.
  - Connection handling, and the commit-per-statement behaviour beyond "a
    failed statement changes nothing".
  - The `VARCHAR` length limits, and the paging of `execute_values`.
- **I/O and the clock:**
  - `time.time()` is an integer clock reading passed in. The token endpoint's
    answer is a parameter.
  - Token use is not threaded through the syncs, which take the catalogue
    as fixed answers.
  - A missing `audio_features`, `artists` or `access_token` key raises
    `KeyError` in the source. The model covers this only for the token. For
    the batch endpoints it assumes the key is present.
- **`get_playlist_length`** (`api/models.py:177-195`) sums floating-point
  durations. The model keeps only its failure: with no member track stored
  with a duration the sum is NULL, `float(None)` raises, and the sync ends
  with `NullLength` after its writes. The `duration` value in the api
  summary is not modelled.
- **`ApiSync.SyncPlaylist`:**
  - The response's `debug` lists are not modelled.
  - The request's `id` is taken as a string. A missing `id` is not modelled.
  - A sync that fails with `NullLength` has already committed its writes.
    The contract states this for the membership table (the members are
    exactly the remote ids) and, under the answering conditions, for the
    new tracks' rows. It also bounds all other tables, as on every path.
- `TokenCache.Session.GetTokenHeaders`: a JSON `null` in the token answer
  is handled like a missing key, which raises and leaves the cache unchanged.
  In the source a `null` `expires_in` also raises (`None + int`), but a
  `null` `access_token` is cached: the cache then holds the token `None`
  until it expires, and the header reads `Bearer None`
  (`api/main.py:30-38`, `backend/main.py:30-36`).
- **Null values in catalogue answers, in both services:**
  - A track's `id` and an artist's `id` are non-null strings in the model,
    and an artist batch answer is a list of artist objects. The source's
    error paths for nulls are not modelled:
    - a track with a null id makes the api's plain INSERT fail on the NULL
      key (`api/main.py:116`, `api/models.py:108-115`);
    - a null entry in an artist-batch answer crashes on `artist.get`
      (`api/main.py:162`, `backend/main.py:139`).
- **`BackendSync.SyncTwice`** does not promise that the second sync leaves
  the feature columns of the tracks, the artist rows' contents or the genre
  rows unchanged. The id set is listed in an unspecified order, so the
  second sync may put an id into a different batch. The catalogue may answer
  the same id differently in different batches, and features may then land
  on different tracks.
- **`ApiSync.BuildTrackRows`:**
  - The source zips track batches of the list with id batches of a set
    (`api/main.py:97-100`, `backend/main.py:85-87`). Python's set order is
    unspecified, so a feature record may be paired with a different track.
  - The model pairs the i-th id batch with the features the catalogue
    returns for it, and takes the feature entries as opaque.
  - The properties about a track's own columns (id, name, image, duration)
    hold whatever the pairing. Which feature record lands on which track is
    not stated.
- **`Pagination.FetchAllPlaylistTracks`:**
  - The walk carries a fetch bound (`fuel`), and a walk that does not end
    within it fails with `FuelExhausted`. The source loops for as long as
    the remote service supplies pages.
  - A `null` track item inside a page, which crashes the source on
    `track["id"]`, is not modelled.
- **`ApiModels.Store.GetPlaylistArtists`:** the order of rows with equal
  counts is unspecified, as in SQL, and the model promises none. The order
  of genres with equal counts in `Aggregates.TopGenresSpec` follows from
  `sorted` being stable, but is not stated.
- **`ApiModels.Store.ExistingTrackIds`, `ApiModels.Store.ExistingArtistIds`,
  `ApiModels.Store.PlaylistTrackIds`** return sets. The source returns lists
  in database order, and its callers only test membership or build sets.
- **`BackendSync.SyncPlaylist`:**
  - The message shows the playlist's `name`, or "Untitled" when the key is
    absent. A JSON `null` name, which the source prints as "None", is
    modelled like an absent one.
  - The request's `url` is taken as a string. A request without `url`
    raises on `None.split` (`backend/main.py:160-163`), which is not
    modelled.
- **`BackendSync.UpdateOrCreateArtists` and
  `BackendSync.UpdateOrCreateTracks`:**
  - The source requests a batch and then writes its rows before requesting
    the next.
  - The model requests all batches first, in `ArtistPairs` and
    `ApiSync.BuildTrackRows`, then writes in the same order. Because the
    catalogue is a fixed function of the ids, the writes and their results
    are the same.
- **JavaScript numbers** in `parseDuration` are finite reals. NaN,
  infinities and a 53-bit mantissa are not modelled.
- **Other front-end code is not part of this model:**
  - the dark-mode toggle and the rest of the components;
  - the rendering of the analysis page.
- **Also omitted:**
  - The api's `/test` route, a debugging endpoint that prints the artist
    query.
  - `backend/config.py`, which holds the connection settings.
