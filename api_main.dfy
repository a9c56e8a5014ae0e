/** The playlist sync of the api service (`sync_playlist` and the helpers it
    calls) over the store of `ApiModels` and a remote catalogue. Every write is
    its own committed statement; the first failing statement ends the request
    with the writes before it kept. */
module ApiSync {
  import opened Common
  import opened Seqs
  import opened Batching
  import opened Catalog
  import opened Pagination
  import opened ApiModels
  import opened Aggregates

  /** Track ids per audio-feature request, artist ids per artist request. */
  const TrackBatch := 100
  const ArtistBatch := 50

  // ---- track rows ------------------------------------------------------------------

  /** `zip(tracks, tracks_features)`: positional, cut to the shorter list. */
  function ZipRows(ts: seq<RemoteTrack>, fs: seq<Option<AudioFeatures>>): (rows: seq<TrackRow>)
    ensures |rows| == Min(|ts|, |fs|)
    ensures forall i | 0 <= i < |rows| :: rows[i] == TrackRowOf(ts[i], fs[i])
  {
    seq(Min(|ts|, |fs|), i requires 0 <= i < Min(|ts|, |fs|) => TrackRowOf(ts[i], fs[i]))
  }

  /** The rows of the first `k` pairs of (track batch, id batch), each track
      batch zipped with the feature answer for its id batch. */
  function ZipBatches(c: Catalog, tcs: seq<seq<RemoteTrack>>, ics: seq<seq<string>>, k: nat): seq<TrackRow>
    requires k <= |tcs| && k <= |ics|
  {
    if k == 0 then []
    else ZipBatches(c, tcs, ics, k - 1) + ZipRows(tcs[k - 1], c.audioFeatures(ics[k - 1]))
  }

  /** Every zipped row is built from some track of some batch. */
  lemma {:induction false} ZipBatchesOrigin(c: Catalog, tcs: seq<seq<RemoteTrack>>, ics: seq<seq<string>>, k: nat,
                                            tracks: seq<RemoteTrack>)
    requires k <= |tcs| && k <= |ics|
    requires forall j, t | 0 <= j < |tcs| && t in tcs[j] :: t in tracks
    ensures forall r | r in ZipBatches(c, tcs, ics, k) :: exists t | t in tracks :: Blank(r) == TrackFields(t)
  {
    if k > 0 {
      ZipBatchesOrigin(c, tcs, ics, k - 1, tracks);
      var z := ZipRows(tcs[k - 1], c.audioFeatures(ics[k - 1]));
      forall r | r in z ensures exists t | t in tracks :: Blank(r) == TrackFields(t) {
        var i :| 0 <= i < |z| && z[i] == r;
        TrackRowColumns(tcs[k - 1][i], c.audioFeatures(ics[k - 1])[i]);
        assert tcs[k - 1][i] in tcs[k - 1];
      }
    }
  }

  lemma BlanksAppend(a: seq<TrackRow>, b: seq<TrackRow>)
    ensures Blanks(a + b) == Blanks(a) + Blanks(b)
  {
  }

  lemma FieldsAppend(a: seq<RemoteTrack>, b: seq<RemoteTrack>)
    ensures FieldsOf(a + b) == FieldsOf(a) + FieldsOf(b)
  {
  }

  /** When every feature answer has one entry per requested id and every id
      batch is as long as its track batch, no track is lost to the zip: the
      track columns of the rows are those of the tracks, in order. */
  lemma {:induction false} ZipBatchesAnswered(c: Catalog, tcs: seq<seq<RemoteTrack>>, ics: seq<seq<string>>, k: nat)
    requires k <= |tcs| && k <= |ics|
    requires FeaturesAnswered(c)
    requires forall j | 0 <= j < k :: |tcs[j]| == |ics[j]|
    ensures Blanks(ZipBatches(c, tcs, ics, k)) == FieldsOf(Flatten(tcs[..k]))
  {
    if k > 0 {
      ZipBatchesAnswered(c, tcs, ics, k - 1);
      var z := ZipRows(tcs[k - 1], c.audioFeatures(ics[k - 1]));
      assert |c.audioFeatures(ics[k - 1])| == |ics[k - 1]|;
      forall i | 0 <= i < |z| ensures Blanks(z)[i] == FieldsOf(tcs[k - 1])[i] {
        TrackRowColumns(tcs[k - 1][i], c.audioFeatures(ics[k - 1])[i]);
      }
      assert Blanks(z) == FieldsOf(tcs[k - 1]);
      BlanksAppend(ZipBatches(c, tcs, ics, k - 1), z);
      assert tcs[..k] == tcs[..k - 1] + [tcs[k - 1]];
      FlattenAppend(tcs[..k - 1], tcs[k - 1]);
      FieldsAppend(Flatten(tcs[..k - 1]), tcs[k - 1]);
    }
  }

  /** Rows whose track columns are those of the tracks have the tracks' ids. */
  lemma RowsOfTracks(rows: seq<TrackRow>, tracks: seq<RemoteTrack>)
    requires Blanks(rows) == FieldsOf(tracks)
    ensures RowIds(rows) == TrackIds(tracks)
    ensures Keyed(rows, RowId).Keys == IdSet(tracks)
  {
    assert forall i | 0 <= i < |rows| :: rows[i].id == Blanks(rows)[i].id == tracks[i].id;
  }

  lemma DistinctIdSet(tracks: seq<RemoteTrack>)
    requires DistinctIds(tracks)
    ensures |IdSet(tracks)| == |tracks|
  {
    DistinctCard(TrackIds(tracks));
    assert (set x | x in TrackIds(tracks)) == IdSet(tracks);
  }

  /** The row-building loops of `update_or_create_tracks`: the tracks in
      batches of 100, zipped with the batches of 100 of their id set (listed in
      the set's own order) and with the feature answer for each id batch. */
  method BuildTrackRows(c: Catalog, tracks: seq<RemoteTrack>) returns (rows: seq<TrackRow>)
    ensures forall r | r in rows :: exists t | t in tracks :: Blank(r) == TrackFields(t)
    ensures tracks == [] ==> rows == []
    ensures FeaturesAnswered(c) && DistinctIds(tracks) ==> Blanks(rows) == FieldsOf(tracks)
  {
    var order := ListOfSet(IdSet(tracks));
    var tcs := ChunkedList(tracks, TrackBatch);
    var ics := ChunkedList(order, TrackBatch);
    rows := [];
    var k := 0;
    while k < |tcs| && k < |ics|
      invariant k <= |tcs| && k <= |ics|
      invariant rows == ZipBatches(c, tcs, ics, k)
    {
      rows := AppendZipped(rows, tcs[k], c.audioFeatures(ics[k]));
      k := k + 1;
    }
    TrackBatchesFacts(c, tracks, order, k);
  }

  /** The inner loop: append one row per (track, feature entry) pair. */
  method AppendZipped(acc: seq<TrackRow>, ts: seq<RemoteTrack>, fs: seq<Option<AudioFeatures>>)
    returns (rows: seq<TrackRow>)
    ensures rows == acc + ZipRows(ts, fs)
  {
    rows := acc;
    var j := 0;
    while j < |ts| && j < |fs|
      invariant j <= |ts| && j <= |fs|
      invariant rows == acc + ZipRows(ts[..j], fs[..j])
    {
      assert ZipRows(ts[..j + 1], fs[..j + 1]) == ZipRows(ts[..j], fs[..j]) + [TrackRowOf(ts[j], fs[j])];
      rows := rows + [TrackRowOf(ts[j], fs[j])];
      j := j + 1;
    }
    assert ZipRows(ts[..j], fs[..j]) == ZipRows(ts, fs);
  }

  /** What the batch loop has built once it stops, for the track batches and
      the batches of the listed id set. */
  lemma TrackBatchesFacts(c: Catalog, tracks: seq<RemoteTrack>, order: seq<string>, k: nat)
    requires Distinct(order) && |order| == |IdSet(tracks)|
    requires var tcs, ics := Chunks(tracks, TrackBatch), Chunks(order, TrackBatch);
      k <= |tcs| && k <= |ics| && (k == |tcs| || k == |ics|)
    ensures var rows := ZipBatches(c, Chunks(tracks, TrackBatch), Chunks(order, TrackBatch), k);
      forall r | r in rows :: exists t | t in tracks :: Blank(r) == TrackFields(t)
    ensures tracks == [] ==> ZipBatches(c, Chunks(tracks, TrackBatch), Chunks(order, TrackBatch), k) == []
    ensures FeaturesAnswered(c) && DistinctIds(tracks) ==>
      Blanks(ZipBatches(c, Chunks(tracks, TrackBatch), Chunks(order, TrackBatch), k)) == FieldsOf(tracks)
  {
    var tcs, ics := Chunks(tracks, TrackBatch), Chunks(order, TrackBatch);
    forall j, t | 0 <= j < |tcs| && t in tcs[j] ensures t in tracks {
      ChunksElements(tracks, TrackBatch, j, t);
    }
    ZipBatchesOrigin(c, tcs, ics, k, tracks);
    ChunksSizes(tracks, TrackBatch);
    if FeaturesAnswered(c) && DistinctIds(tracks) {
      DistinctIdSet(tracks);
      ChunksSameShape(tracks, order, TrackBatch);
      assert k == |tcs| && tcs[..k] == tcs;
      ZipBatchesAnswered(c, tcs, ics, k);
      ChunksFlatten(tracks, TrackBatch);
    }
  }

  // ---- artist rows -----------------------------------------------------------------

  /** Row of the `artists` table built from an artist object; the genre list is
      stored comma-joined. */
  function ArtistRowOf(a: RemoteArtist): (r: ArtistRow)
    ensures r.id == a.id && r.name == a.name && r.popularity == a.popularity
    ensures r.thumbnail == Thumbnail(a.images)
    ensures Text.NoSep(a.genres, ',') ==> Text.Split(r.genres, ',') == (if a.genres == [] then [""] else a.genres)
  {
    var r := ArtistRow(a.id, a.name, Thumbnail(a.images), a.popularity, Text.Join(a.genres, ','));
    if a.genres != [] && Text.NoSep(a.genres, ',') then Text.SplitJoin(a.genres, ','); r else r
  }

  function ArtistRows(answer: seq<RemoteArtist>): (rs: seq<ArtistRow>)
    ensures |rs| == |answer| && forall i | 0 <= i < |answer| :: rs[i] == ArtistRowOf(answer[i])
  {
    seq(|answer|, i requires 0 <= i < |answer| => ArtistRowOf(answer[i]))
  }

  /** The rows of the answers to the first `k` id batches. */
  function ArtistBatches(c: Catalog, ics: seq<seq<string>>, k: nat): seq<ArtistRow>
    requires k <= |ics|
  {
    if k == 0 then [] else ArtistBatches(c, ics, k - 1) + ArtistRows(c.artists(ics[k - 1]))
  }

  /** When the catalogue answers each batch with the artists of its ids, the
      rows carry exactly the requested ids, in order. */
  lemma {:induction false} ArtistBatchesKeys(c: Catalog, ics: seq<seq<string>>, k: nat)
    requires k <= |ics| && ArtistsAnswered(c)
    ensures KeysOf(ArtistBatches(c, ics, k), ArtistId) == Flatten(ics[..k])
  {
    if k > 0 {
      var rs := ArtistRows(c.artists(ics[k - 1]));
      ArtistBatchesKeys(c, ics, k - 1);
      AnsweredRowKeys(c, ics[k - 1]);
      KeysOfAppend(ArtistBatches(c, ics, k - 1), rs, ArtistId);
      FlattenPrefix(ics, k);
    }
  }

  /** The rows of one answered batch carry the requested ids, in order. */
  lemma AnsweredRowKeys(c: Catalog, ids: seq<string>)
    requires ArtistsAnswered(c)
    ensures KeysOf(ArtistRows(c.artists(ids)), ArtistId) == ids
  {
    var answer := c.artists(ids);
    assert |answer| == |ids| && forall i | 0 <= i < |ids| :: answer[i].id == ids[i];
  }

  /** The artist-row loops of `update_or_create_artists`: the new ids in batches
      of 50, each answered by one catalogue request. */
  method BuildArtistRows(c: Catalog, ids: seq<string>) returns (rows: seq<ArtistRow>)
    ensures rows == ArtistBatches(c, Chunks(ids, ArtistBatch), |Chunks(ids, ArtistBatch)|)
    ensures ArtistsAnswered(c) ==> KeysOf(rows, ArtistId) == ids
    ensures ids == [] ==> rows == []
  {
    var ics := ChunkedList(ids, ArtistBatch);
    rows := [];
    var k := 0;
    while k < |ics|
      invariant k <= |ics|
      invariant rows == ArtistBatches(c, ics, k)
    {
      rows := AppendArtistRows(rows, c.artists(ics[k]));
      k := k + 1;
    }
    if ArtistsAnswered(c) {
      ArtistBatchesKeys(c, ics, k);
      assert ics[..k] == ics;
    }
  }

  /** The inner loop: one row per answered artist, appended in order. */
  method AppendArtistRows(acc: seq<ArtistRow>, answer: seq<RemoteArtist>) returns (rows: seq<ArtistRow>)
    ensures rows == acc + ArtistRows(answer)
  {
    rows := acc;
    var j := 0;
    while j < |answer|
      invariant j <= |answer|
      invariant rows == acc + ArtistRows(answer[..j])
    {
      assert ArtistRows(answer[..j + 1]) == ArtistRows(answer[..j]) + [ArtistRowOf(answer[j])];
      rows := rows + [ArtistRowOf(answer[j])];
      j := j + 1;
    }
    assert answer[..j] == answer;
  }

  /** The attribution pairs of one track, in credit order. */
  function OwnPairs(t: RemoteTrack): (ps: seq<(string, string)>)
    ensures forall p :: p in ps <==> p.0 == t.id && p.1 in t.artistIds
    ensures Distinct(t.artistIds) ==> Distinct(ps)
  {
    var ps := seq(|t.artistIds|, j requires 0 <= j < |t.artistIds| => (t.id, t.artistIds[j]));
    assert forall a | a in t.artistIds :: (t.id, a) in ps by {
      forall a | a in t.artistIds ensures (t.id, a) in ps {
        var j :| 0 <= j < |t.artistIds| && t.artistIds[j] == a;
        assert ps[j] == (t.id, a);
      }
    }
    ps
  }

  /** `[(track.id, artist.id) for track in tracks for artist in track.artists]` */
  function TrackArtistPairs(ts: seq<RemoteTrack>): seq<(string, string)>
    decreases |ts|
  {
    if ts == [] then [] else TrackArtistPairs(ts[..|ts| - 1]) + OwnPairs(ts[|ts| - 1])
  }

  /** Each pair links a listed track to one of its credited artists. */
  lemma {:induction false} TrackArtistPairsMembers(ts: seq<RemoteTrack>)
    ensures forall p | p in TrackArtistPairs(ts) :: p.0 in IdSet(ts) && p.1 in ArtistIdSet(ts)
    decreases |ts|
  {
    if ts != [] {
      var init, t := ts[..|ts| - 1], ts[|ts| - 1];
      TrackArtistPairsMembers(init);
      assert forall u | u in init :: u in ts;
      assert t in ts;
    }
  }

  /** Every credited artist of every listed track has its pair. */
  lemma {:induction false} TrackArtistPairsCover(ts: seq<RemoteTrack>)
    ensures forall i, a | 0 <= i < |ts| && a in ts[i].artistIds :: (ts[i].id, a) in TrackArtistPairs(ts)
    decreases |ts|
  {
    if ts != [] {
      var init := ts[..|ts| - 1];
      TrackArtistPairsCover(init);
      assert forall i | 0 <= i < |init| :: init[i] == ts[i];
    }
  }

  /** With distinct track ids and duplicate-free artist lists no pair is
      listed twice. */
  lemma {:induction false} TrackArtistPairsDistinct(ts: seq<RemoteTrack>)
    requires DistinctIds(ts) && forall t | t in ts :: Distinct(t.artistIds)
    ensures Distinct(TrackArtistPairs(ts))
    decreases |ts|
  {
    if ts != [] {
      var init, t := ts[..|ts| - 1], ts[|ts| - 1];
      DistinctIdsInit(ts);
      assert forall u | u in init :: u in ts;
      assert t in ts;
      TrackArtistPairsDistinct(init);
      TrackArtistPairsMembers(init);
      DistinctConcat(TrackArtistPairs(init), OwnPairs(t));
    }
  }

  // ---- filters -----------------------------------------------------------------------

  /** The tracks, in order, whose id is in `keep`. */
  function FilterIds(ts: seq<RemoteTrack>, keep: set<string>): seq<RemoteTrack>
    decreases |ts|
  {
    if ts == [] then []
    else FilterIds(ts[..|ts| - 1], keep) + (if ts[|ts| - 1].id in keep then [ts[|ts| - 1]] else [])
  }

  /** The filter keeps exactly the tracks with a kept id. */
  lemma FilterIdsMembers(ts: seq<RemoteTrack>, keep: set<string>)
    ensures forall t | t in FilterIds(ts, keep) :: t in ts && t.id in keep
    ensures IdSet(FilterIds(ts, keep)) == IdSet(ts) * keep
  {
    FilterIdsElements(ts, keep);
    var f := FilterIds(ts, keep);
    forall id ensures id in IdSet(f) <==> id in IdSet(ts) * keep {
      if id in IdSet(f) {
        var i :| 0 <= i < |f| && f[i].id == id;
        assert f[i] in f;
      }
      if id in IdSet(ts) && id in keep {
        var i :| 0 <= i < |ts| && ts[i].id == id;
        assert ts[i] in ts;
      }
    }
  }

  /** A track is kept exactly when it is listed and its id is kept. */
  lemma {:induction false} FilterIdsElements(ts: seq<RemoteTrack>, keep: set<string>)
    ensures forall t :: t in FilterIds(ts, keep) <==> t in ts && t.id in keep
    decreases |ts|
  {
    if ts != [] {
      var init, t := ts[..|ts| - 1], ts[|ts| - 1];
      FilterIdsElements(init, keep);
      assert ts == init + [t];
      assert FilterIds(ts, keep) == FilterIds(init, keep) + (if t.id in keep then [t] else []);
    }
  }

  /** The filter preserves distinct ids. */
  lemma {:induction false} FilterIdsDistinct(ts: seq<RemoteTrack>, keep: set<string>)
    requires DistinctIds(ts)
    ensures DistinctIds(FilterIds(ts, keep))
    decreases |ts|
  {
    if ts != [] {
      var init, t := ts[..|ts| - 1], ts[|ts| - 1];
      DistinctIdsInit(ts);
      FilterIdsDistinct(init, keep);
      FilterIdsMembers(init, keep);
      var f := FilterIds(init, keep);
      if t.id in keep {
        assert TrackIds(f + [t]) == TrackIds(f) + [t.id];
        assert t.id !in TrackIds(f);
        DistinctSnoc(TrackIds(f), t.id);
      }
    }
  }

  /** The filter keeps exactly the tracks with a kept id and preserves distinct
      ids. */
  lemma FilterIdsSpec(ts: seq<RemoteTrack>, keep: set<string>)
    ensures forall t | t in FilterIds(ts, keep) :: t in ts && t.id in keep
    ensures IdSet(FilterIds(ts, keep)) == IdSet(ts) * keep
    ensures DistinctIds(ts) ==> DistinctIds(FilterIds(ts, keep))
  {
    FilterIdsMembers(ts, keep);
    if DistinctIds(ts) {
      FilterIdsDistinct(ts, keep);
    }
  }

  /** Only the empty list has no ids. */
  lemma EmptyIdSet(ts: seq<RemoteTrack>)
    ensures ts == [] <==> IdSet(ts) == {}
  {
    if ts != [] {
      assert ts[0].id in IdSet(ts);
    }
  }

  /** The ids, in order, that are not in `drop`. */
  function Without(ids: seq<string>, drop: set<string>): (r: seq<string>)
    ensures forall x :: x in r <==> x in ids && x !in drop
    ensures Distinct(ids) ==> Distinct(r)
    decreases |ids|
  {
    if ids == [] then []
    else
      var rest := Without(ids[..|ids| - 1], drop);
      var x := ids[|ids| - 1];
      assert forall y | y in ids[..|ids| - 1] :: y in ids;
      assert forall y | y in ids :: y in ids[..|ids| - 1] || y == x;
      if x !in drop then rest + [x] else rest
  }

  // ---- the sync steps ----------------------------------------------------------------

  /** The first half of `update_or_create_artists`: look up which credited
      ids are stored, fetch the others in batches of 50 and insert their rows. */
  method InsertNewArtists(store: Store, c: Catalog, credited: set<string>) returns (o: Outcome)
    requires store.Valid()
    modifies store
    ensures store.Valid()
    ensures o.Fail? ==> IntegrityError(o.error)
    ensures store.tracks == old(store.tracks) && store.playlists == old(store.playlists)
    ensures store.playlistTracks == old(store.playlistTracks) && store.trackArtists == old(store.trackArtists)
    ensures old(store.artists).Keys <= store.artists.Keys
    ensures forall a | a in old(store.artists) :: store.artists[a] == old(store.artists)[a]
    ensures ArtistsAnswered(c) ==> (o.Pass? && credited <= store.artists.Keys <= old(store.artists).Keys + credited)
    ensures credited == {} ==> (o.Pass? && store.artists == old(store.artists))
  {
    var allIds := ListOfSet(credited);
    var existing := store.ExistingArtistIds(allIds);
    var newIds := Without(allIds, existing);
    var rows := BuildArtistRows(c, newIds);
    if ArtistsAnswered(c) {
      NewArtistKeys(store.artists, credited, allIds, existing, newIds, rows);
    }
    if credited == {} {
      assert newIds == [] && rows == [];
      assert Keyed(rows, ArtistId) == map[];
      assert store.artists + map[] == store.artists;
    }
    ghost var before := store.artists;
    o := store.InsertOrUpdateArtists(rows);
    if o.Pass? {
      KeyedMergeKeeps(before, rows, ArtistId);
    }
  }

  /** `update_or_create_artists`: insert the credited artists not yet stored,
      then one attribution row per (track, credited artist). */
  method UpdateOrCreateArtists(store: Store, c: Catalog, tracks: seq<RemoteTrack>) returns (o: Outcome)
    requires store.Valid()
    modifies store
    ensures store.Valid()
    ensures o.Fail? ==> IntegrityError(o.error)
    ensures store.tracks == old(store.tracks) && store.playlists == old(store.playlists)
    ensures store.playlistTracks == old(store.playlistTracks)
    ensures old(store.artists).Keys <= store.artists.Keys
    ensures forall a | a in old(store.artists) :: store.artists[a] == old(store.artists)[a]
    ensures ArtistsAnswered(c) ==> store.artists.Keys <= old(store.artists).Keys + ArtistIdSet(tracks)
    ensures o.Pass? ==> store.trackArtists == old(store.trackArtists) + set p | p in TrackArtistPairs(tracks)
    ensures o.Fail? ==> store.trackArtists == old(store.trackArtists)
    ensures ArtistsAnswered(c) && DistinctIds(tracks) &&
            (forall t | t in tracks :: t.id in old(store.tracks) && Distinct(t.artistIds)) &&
            (forall p | p in TrackArtistPairs(tracks) :: p !in old(store.trackArtists)) ==>
            (o.Pass? && ArtistIdSet(tracks) <= store.artists.Keys)
    ensures tracks == [] ==> (o.Pass? && store.artists == old(store.artists) && store.trackArtists == old(store.trackArtists))
  {
    if tracks == [] {
      assert ArtistIdSet(tracks) == {};
    }
    o := InsertNewArtists(store, c, ArtistIdSet(tracks));
    if o.Fail? {
      return;
    }
    TrackArtistPairsMembers(tracks);
    if tracks == [] {
      assert TrackArtistPairs(tracks) == [];
      assert store.trackArtists + {} == store.trackArtists;
    }
    if DistinctIds(tracks) && forall t | t in tracks :: Distinct(t.artistIds) {
      TrackArtistPairsDistinct(tracks);
    }
    o := store.InsertTrackArtists(TrackArtistPairs(tracks));
  }

  /** The artist rows answered for the ids not yet stored have distinct keys,
      none stored, and together with the stored artists cover every credited
      id. */
  lemma NewArtistKeys(stored: map<string, ArtistRow>, credited: set<string>, allIds: seq<string>,
                      existing: set<string>, newIds: seq<string>, rows: seq<ArtistRow>)
    requires Distinct(allIds) && forall a :: a in allIds <==> a in credited
    requires forall a :: a in existing <==> a in allIds && a in stored
    requires forall a :: a in newIds <==> a in allIds && a !in existing
    requires Distinct(newIds) && KeysOf(rows, ArtistId) == newIds
    ensures Distinct(KeysOf(rows, ArtistId))
    ensures forall r | r in rows :: r.id !in stored
    ensures credited <= stored.Keys + Keyed(rows, ArtistId).Keys
    ensures Keyed(rows, ArtistId).Keys <= credited
  {
    assert forall i | 0 <= i < |rows| :: rows[i].id == newIds[i];
    assert forall r | r in rows :: r.id in newIds;
  }

  /** `update_or_create_tracks`: one row per zipped (track, features) pair,
      inserted in one statement, then the artists of the tracks. */
  method UpdateOrCreateTracks(store: Store, c: Catalog, tracks: seq<RemoteTrack>) returns (o: Outcome)
    requires store.Valid()
    modifies store
    ensures store.Valid()
    ensures o.Fail? ==> IntegrityError(o.error)
    ensures store.playlists == old(store.playlists) && store.playlistTracks == old(store.playlistTracks)
    ensures old(store.tracks).Keys <= store.tracks.Keys <= old(store.tracks).Keys + IdSet(tracks)
    ensures forall k | k in old(store.tracks) :: store.tracks[k] == old(store.tracks)[k]
    ensures old(store.artists).Keys <= store.artists.Keys
    ensures forall a | a in old(store.artists) :: store.artists[a] == old(store.artists)[a]
    ensures old(store.trackArtists) <= store.trackArtists
    ensures FeaturesAnswered(c) && ArtistsAnswered(c) && DistinctIds(tracks) &&
            (forall t | t in tracks :: t.id !in old(store.tracks) && Distinct(t.artistIds)) ==>
            o.Pass? && IdSet(tracks) <= store.tracks.Keys && ArtistIdSet(tracks) <= store.artists.Keys &&
            NewTracksStored(tracks, old(store.tracks), store.tracks)
    ensures tracks == [] ==> (o.Pass? && store.tracks == old(store.tracks) &&
            store.artists == old(store.artists) && store.trackArtists == old(store.trackArtists))
  {
    var rows := BuildTrackRows(c, tracks);
    RowKeysOfTracks(rows, tracks);
    if tracks == [] {
      assert Keyed(rows, RowId) == map[];
      assert store.tracks + map[] == store.tracks;
    }
    ghost var wellBehaved := FeaturesAnswered(c) && ArtistsAnswered(c) && DistinctIds(tracks) &&
      (forall t | t in tracks :: t.id !in store.tracks && Distinct(t.artistIds));
    if wellBehaved {
      RowsOfTracks(rows, tracks);
      RowsCoverTracks(tracks, rows);
      MergedRowsCover(store.tracks, rows, tracks);
      NewTracksHaveNoPairs(tracks, store.tracks, store.trackArtists);
    }
    o := store.InsertOrUpdateTracks(rows);
    if o.Fail? {
      return;
    }
    o := UpdateOrCreateArtists(store, c, tracks);
  }

  /** Every track of the list that `before` did not hold is in `after` under
      its id, with the track's own columns. */
  ghost predicate NewTracksStored(tracks: seq<RemoteTrack>, before: map<string, TrackRow>, after: map<string, TrackRow>) {
    forall t | t in tracks && t.id !in before :: t.id in after && Blank(after[t.id]) == TrackFields(t)
  }

  /** Rows that hold every track under its id with its own columns still do
      once merged over a table of other ids. */
  lemma MergedRowsCover(stored: map<string, TrackRow>, rows: seq<TrackRow>, tracks: seq<RemoteTrack>)
    requires forall t | t in tracks :: t.id in Keyed(rows, RowId) && Blank(Keyed(rows, RowId)[t.id]) == TrackFields(t)
    ensures NewTracksStored(tracks, stored, stored + Keyed(rows, RowId))
  {
  }

  /** Rows built from the tracks are keyed by ids of the tracks. */
  lemma RowKeysOfTracks(rows: seq<TrackRow>, tracks: seq<RemoteTrack>)
    requires forall r | r in rows :: exists t | t in tracks :: Blank(r) == TrackFields(t)
    ensures Keyed(rows, RowId).Keys <= IdSet(tracks)
  {
    forall k | k in Keyed(rows, RowId) ensures k in IdSet(tracks) {
      var i :| 0 <= i < |rows| && RowId(rows[i]) == k;
      assert rows[i] in rows;
      var t :| t in tracks && Blank(rows[i]) == TrackFields(t);
    }
  }

  /** Tracks that are not stored have no stored attribution pair yet. */
  lemma NewTracksHaveNoPairs(tracks: seq<RemoteTrack>, stored: map<string, TrackRow>, links: set<(string, string)>)
    requires forall l | l in links :: l.0 in stored
    requires forall t | t in tracks :: t.id !in stored
    ensures forall p | p in TrackArtistPairs(tracks) :: p !in links
  {
    TrackArtistPairsMembers(tracks);
    forall p | p in TrackArtistPairs(tracks) ensures p !in links {
      assert p.0 in IdSet(tracks);
      var i :| 0 <= i < |tracks| && tracks[i].id == p.0;
      assert tracks[i] in tracks;
    }
  }

  /** `add_playlist_tracks`: store the tracks not yet stored, then insert one
      membership row per given track. */
  method AddPlaylistTracks(store: Store, pid: string, c: Catalog, tracks: seq<RemoteTrack>) returns (o: Outcome)
    requires store.Valid()
    modifies store
    ensures store.Valid()
    ensures o.Fail? ==> IntegrityError(o.error)
    ensures store.playlists == old(store.playlists)
    ensures old(store.tracks).Keys <= store.tracks.Keys
    ensures forall k | k in old(store.tracks) :: store.tracks[k] == old(store.tracks)[k]
    ensures old(store.artists).Keys <= store.artists.Keys
    ensures forall a | a in old(store.artists) :: store.artists[a] == old(store.artists)[a]
    ensures o.Pass? ==> store.playlistTracks == old(store.playlistTracks) + set t | t in TrackIds(tracks) :: (pid, t)
    ensures o.Pass? ==> store.PlaylistTrackIds(pid) == old(store.PlaylistTrackIds(pid)) + IdSet(tracks)
    ensures o.Fail? ==> store.playlistTracks == old(store.playlistTracks)
    ensures forall m: (string, string) | m.0 != pid :: m in store.playlistTracks <==> m in old(store.playlistTracks)
    ensures pid in old(store.playlists) && FeaturesAnswered(c) && ArtistsAnswered(c) && DistinctIds(tracks) &&
            (forall t | t in tracks :: (pid, t.id) !in old(store.playlistTracks) && Distinct(t.artistIds)) ==>
            o.Pass?
    ensures FeaturesAnswered(c) && ArtistsAnswered(c) && DistinctIds(tracks) &&
            (forall t | t in tracks :: Distinct(t.artistIds)) ==>
            NewTracksStored(tracks, old(store.tracks), store.tracks)
    ensures tracks == [] ==> (o.Pass? && store.tracks == old(store.tracks) && store.artists == old(store.artists) &&
            store.playlistTracks == old(store.playlistTracks) && store.trackArtists == old(store.trackArtists))
  {
    o := CreateUnstoredTracks(store, c, tracks);
    if o.Fail? {
      return;
    }
    var ids := TrackIds(tracks);
    IdSetCard(tracks);
    if tracks == [] {
      assert (set t | t in ids :: (pid, t)) == {};
      assert store.playlistTracks + {} == store.playlistTracks;
    }
    o := store.InsertPlaylistTracks(pid, ids);
  }

  /** The first half of `add_playlist_tracks`: looks up which of the tracks
      are stored and stores the others with `UpdateOrCreateTracks`. */
  method CreateUnstoredTracks(store: Store, c: Catalog, tracks: seq<RemoteTrack>) returns (o: Outcome)
    requires store.Valid()
    modifies store
    ensures store.Valid()
    ensures o.Fail? ==> IntegrityError(o.error)
    ensures store.playlists == old(store.playlists) && store.playlistTracks == old(store.playlistTracks)
    ensures old(store.tracks).Keys <= store.tracks.Keys
    ensures forall k | k in old(store.tracks) :: store.tracks[k] == old(store.tracks)[k]
    ensures old(store.artists).Keys <= store.artists.Keys
    ensures forall a | a in old(store.artists) :: store.artists[a] == old(store.artists)[a]
    ensures FeaturesAnswered(c) && ArtistsAnswered(c) && DistinctIds(tracks) &&
            (forall t | t in tracks :: Distinct(t.artistIds)) ==>
            o.Pass? && IdSet(tracks) <= store.tracks.Keys &&
            NewTracksStored(tracks, old(store.tracks), store.tracks)
    ensures tracks == [] ==> (o.Pass? && store.tracks == old(store.tracks) && store.artists == old(store.artists) &&
            store.trackArtists == old(store.trackArtists))
  {
    var ids := TrackIds(tracks);
    var existing := store.ExistingTrackIds(ids);
    // `track["id"] not in existing_track_ids`, for tracks of the list
    var unstored := FilterIds(tracks, IdSet(tracks) - existing);
    UnstoredTracks(tracks, store.tracks.Keys, existing);
    if tracks == [] {
      assert unstored == [];
    }
    ghost var tracks0 := store.tracks;
    o := UpdateOrCreateTracks(store, c, unstored);
    if FeaturesAnswered(c) && ArtistsAnswered(c) && DistinctIds(tracks) &&
       (forall t | t in tracks :: Distinct(t.artistIds)) {
      NewTracksOfFilter(tracks, unstored, tracks0, store.tracks);
    }
  }

  /** When the tracks handed on include every listed track that was not
      stored, what holds for them holds for the list. */
  lemma NewTracksOfFilter(tracks: seq<RemoteTrack>, handed: seq<RemoteTrack>,
                          before: map<string, TrackRow>, after: map<string, TrackRow>)
    requires forall t | t in tracks && t.id !in before :: t in handed
    requires NewTracksStored(handed, before, after)
    ensures NewTracksStored(tracks, before, after)
  {
  }

  /** The tracks `add_playlist_tracks` hands on are the listed ones whose id
      is not stored; together with the stored ones they cover every id. */
  lemma UnstoredTracks(tracks: seq<RemoteTrack>, stored: set<string>, existing: set<string>)
    requires forall t :: t in existing <==> t in TrackIds(tracks) && t in stored
    ensures var unstored := FilterIds(tracks, IdSet(tracks) - existing);
      (forall t | t in unstored :: t in tracks && t.id !in stored) &&
      IdSet(tracks) <= stored + IdSet(unstored) &&
      (DistinctIds(tracks) ==> DistinctIds(unstored)) &&
      (tracks == [] ==> unstored == []) &&
      (forall t | t in tracks && t.id !in stored :: t in unstored)
    ensures IdSet(tracks) == set t | t in TrackIds(tracks)
  {
    var keep := IdSet(tracks) - existing;
    FilterIdsSpec(tracks, keep);
    FilterIdsElements(tracks, keep);
    var ids := TrackIds(tracks);
    forall id | id in IdSet(tracks) ensures id in ids {
      var i :| 0 <= i < |tracks| && tracks[i].id == id;
    }
    forall id | id in ids ensures id in IdSet(tracks) {
      var i :| 0 <= i < |ids| && ids[i] == id;
    }
  }

  /** Delete the members of the playlist whose id is no longer remote. */
  method RemoveStale(store: Store, pid: string, remoteIds: set<string>)
    requires store.Valid()
    modifies store
    ensures store.Valid()
    ensures store.playlists == old(store.playlists) && store.tracks == old(store.tracks)
    ensures store.artists == old(store.artists) && store.trackArtists == old(store.trackArtists)
    ensures store.PlaylistTrackIds(pid) == old(store.PlaylistTrackIds(pid)) * remoteIds
    ensures forall m: (string, string) | m.0 != pid :: m in store.playlistTracks <==> m in old(store.playlistTracks)
    ensures old(store.PlaylistTrackIds(pid)) <= remoteIds ==> store.playlistTracks == old(store.playlistTracks)
  {
    var stored := store.PlaylistTrackIds(pid);
    var stale := StaleIds(stored, remoteIds);
    store.RemovePlaylistTracks(pid, stale);
  }

  /** `list(existing - remote)`, in some order. */
  method StaleIds(stored: set<string>, remoteIds: set<string>) returns (stale: seq<string>)
    ensures (set t | t in stale) == stored - remoteIds
    ensures stored <= remoteIds ==> stale == []
  {
    stale := ListOfSet(stored - remoteIds);
    if stored <= remoteIds {
      assert stored - remoteIds == {};
      assert stale == [];
    }
  }

  /** The membership steps of `sync_playlist`: with E the stored members and
      R the remote ids, delete E - R, then add the remote tracks whose id is in
      R - E (in remote order). */
  method ApplyMembership(store: Store, pid: string, c: Catalog, remote: seq<RemoteTrack>) returns (o: Outcome)
    requires store.Valid()
    modifies store
    ensures store.Valid()
    ensures o.Fail? ==> IntegrityError(o.error)
    ensures store.playlists == old(store.playlists)
    ensures old(store.tracks).Keys <= store.tracks.Keys
    ensures forall k | k in old(store.tracks) :: store.tracks[k] == old(store.tracks)[k]
    ensures old(store.artists).Keys <= store.artists.Keys
    ensures forall a | a in old(store.artists) :: store.artists[a] == old(store.artists)[a]
    ensures forall m: (string, string) | m.0 != pid :: m in store.playlistTracks <==> m in old(store.playlistTracks)
    ensures old(store.PlaylistTrackIds(pid)) * IdSet(remote) <= store.PlaylistTrackIds(pid) <= IdSet(remote)
    ensures o.Pass? ==> store.PlaylistTrackIds(pid) == IdSet(remote)
    ensures (pid in old(store.playlists) && FeaturesAnswered(c) && ArtistsAnswered(c) && DistinctIds(remote) &&
            (forall t | t in remote :: Distinct(t.artistIds))) ==> o.Pass?
    ensures FeaturesAnswered(c) && ArtistsAnswered(c) && DistinctIds(remote) &&
            (forall t | t in remote :: Distinct(t.artistIds)) ==>
            NewTracksStored(remote, old(store.tracks), store.tracks)
    ensures old(store.PlaylistTrackIds(pid)) == IdSet(remote) ==>
      (o.Pass? && store.tracks == old(store.tracks) && store.artists == old(store.artists) &&
       store.playlistTracks == old(store.playlistTracks) && store.trackArtists == old(store.trackArtists))
  {
    var remoteIds := IdSet(remote);
    var stored := store.PlaylistTrackIds(pid);
    RemoveStale(store, pid, remoteIds);
    var added := FilterIds(remote, remoteIds - stored);
    MissingTracks(remote, stored);
    ghost var tracks0 := store.tracks;
    o := AddPlaylistTracks(store, pid, c, added);
    if FeaturesAnswered(c) && ArtistsAnswered(c) && DistinctIds(remote) &&
       (forall t | t in remote :: Distinct(t.artistIds)) {
      NewTracksOfFilter(remote, added, tracks0, store.tracks);
    }
  }

  /** The remote tracks `sync_playlist` adds are those whose id is not a
      member yet; with the members kept they make up the remote ids. */
  lemma MissingTracks(remote: seq<RemoteTrack>, stored: set<string>)
    ensures var added := FilterIds(remote, IdSet(remote) - stored);
      IdSet(added) == IdSet(remote) - stored &&
      (forall t | t in added :: t in remote && t.id !in stored) &&
      (DistinctIds(remote) ==> DistinctIds(added)) &&
      (stored == IdSet(remote) ==> added == []) &&
      stored * IdSet(remote) + IdSet(added) == IdSet(remote) &&
      (forall t | t in remote && t.id !in stored :: t in added)
  {
    var added := FilterIds(remote, IdSet(remote) - stored);
    FilterIdsSpec(remote, IdSet(remote) - stored);
    FilterIdsElements(remote, IdSet(remote) - stored);
    if stored == IdSet(remote) {
      EmptyIdSet(added);
    }
  }

  /** What the sync answers with (the playlist length is not modelled). */
  datatype SyncSummary = SyncSummary(
    title: Option<string>, description: Option<string>, followerCount: Option<int>,
    trackCount: nat, imageUrl: Option<string>,
    topGenres: seq<(string, nat)>, topArtists: seq<(Option<string>, nat)>)

  /** The remote track list of a playlist, when the walk ends within `fuel`. */
  function RemoteTracks(c: Catalog, pid: string, fuel: nat): Option<seq<RemoteTrack>> {
    Walk(c.pages, c.playlist(pid).tracks, fuel)
  }

  /** The conditions under which the sync succeeds: the catalogue answers for
      the requested playlist, its walk ends, its track ids are distinct, no
      track credits an artist twice, and feature and artist batches are
      answered in full. */
  ghost predicate WellBehaved(c: Catalog, pid: string, fuel: nat) {
    var w := RemoteTracks(c, pid, fuel);
    c.playlist(pid).id == Some(pid) && w.Some? && DistinctIds(w.value) &&
    (forall t | t in w.value :: Distinct(t.artistIds)) &&
    FeaturesAnswered(c) && ArtistsAnswered(c)
  }

  /** `sync_playlist` for the requested id: upsert the playlist, walk its
      pages, delete the stored members that are no longer remote, add the
      remote tracks that are not yet members, and summarise. */
  method SyncPlaylist(store: Store, pid: string, c: Catalog, fuel: nat)
    returns (r: Result<SyncSummary>, ghost groups: seq<ArtistGroup>)
    requires store.Valid()
    modifies store
    ensures store.Valid()
    ensures c.playlist(pid).id.None? ==> (r == Err(NullKey) &&
      store.playlists == old(store.playlists) && store.tracks == old(store.tracks) &&
      store.artists == old(store.artists) && store.playlistTracks == old(store.playlistTracks) &&
      store.trackArtists == old(store.trackArtists))
    ensures c.playlist(pid).id.Some? ==>
      store.playlists == old(store.playlists)[c.playlist(pid).id.value := PlaylistRowOf(PlaylistDataOf(c.playlist(pid)))]
    // write-once: stored tracks and artists are never rewritten
    ensures old(store.tracks).Keys <= store.tracks.Keys
    ensures forall k | k in old(store.tracks) :: store.tracks[k] == old(store.tracks)[k]
    ensures old(store.artists).Keys <= store.artists.Keys
    ensures forall a | a in old(store.artists) :: store.artists[a] == old(store.artists)[a]
    // other playlists keep their members
    ensures forall m: (string, string) | m.0 != pid :: m in store.playlistTracks <==> m in old(store.playlistTracks)
    // after a success the members are exactly the remote ids
    ensures r.Ok? ==> (RemoteTracks(c, pid, fuel).Some? &&
      store.PlaylistTrackIds(pid) == IdSet(RemoteTracks(c, pid, fuel).value) &&
      r.value.trackCount == |RemoteTracks(c, pid, fuel).value|)
    // `get_playlist_length` raises after the membership writes, so they stand
    ensures r == Err(NullLength) ==> (RemoteTracks(c, pid, fuel).Some? &&
      store.PlaylistTrackIds(pid) == IdSet(RemoteTracks(c, pid, fuel).value))
    ensures WellBehaved(c, pid, fuel) ==> store.PlaylistTrackIds(pid) == IdSet(RemoteTracks(c, pid, fuel).value)
    // whatever happens after the walk, stale members are gone and kept ones stay
    ensures c.playlist(pid).id.Some? && RemoteTracks(c, pid, fuel).Some? ==>
      old(store.PlaylistTrackIds(pid)) * IdSet(RemoteTracks(c, pid, fuel).value) <= store.PlaylistTrackIds(pid) <=
      IdSet(RemoteTracks(c, pid, fuel).value)
    // the summary: the playlist's columns, and the top lists of the artist query on the final tables
    ensures r.Ok? ==> var d := PlaylistDataOf(c.playlist(pid));
      r.value.title == d.name && r.value.description == d.description &&
      r.value.followerCount == d.followersCount && r.value.imageUrl == d.thumbnail
    ensures r.Ok? ==>
      store.ArtistAnswer(pid, groups) &&
      r.value.topArtists == TopArtists(groups) && r.value.topGenres == TopGenres(groups)
    // `get_playlist_length` raises unless some member has a stored duration
    ensures r.Ok? ==> store.LengthDefined(pid)
    ensures WellBehaved(c, pid, fuel) ==>
      (r.Ok? <==> store.LengthDefined(pid)) && (r.Err? ==> r.error == NullLength)
    // every remote track that was not stored is stored with its own columns
    ensures WellBehaved(c, pid, fuel) ==> NewTracksStored(RemoteTracks(c, pid, fuel).value, old(store.tracks), store.tracks)
    // nothing to add or delete: only the playlist row is rewritten
    ensures (c.playlist(pid).id.Some? && RemoteTracks(c, pid, fuel).Some? &&
      old(store.PlaylistTrackIds(pid)) == IdSet(RemoteTracks(c, pid, fuel).value)) ==>
      ((r.Ok? <==> store.LengthDefined(pid)) &&
      store.tracks == old(store.tracks) && store.artists == old(store.artists) &&
      store.playlistTracks == old(store.playlistTracks) && store.trackArtists == old(store.trackArtists))
  {
    groups := [];
    var remote := c.playlist(pid);
    var data := PlaylistDataOf(remote);
    var o := store.InsertOrUpdatePlaylist(data);
    if o.Fail? {
      return Err(o.error), groups;
    }
    var all := FetchAllPlaylistTracks(c.pages, remote.tracks, fuel);
    if all.None? {
      return Err(FuelExhausted), groups;
    }
    o := ApplyMembership(store, pid, c, all.value);
    if o.Fail? {
      return Err(o.error), groups;
    }
    if !store.LengthDefined(pid) {
      return Err(NullLength), groups;
    }
    var rows := store.GetPlaylistArtists(pid);
    groups := rows;
    r := Ok(SyncSummary(data.name, data.description, data.followersCount, |all.value|,
                        data.thumbnail, TopGenres(rows), TopArtists(rows)));
  }

  /** Whether two states of the store hold the same rows. */
  datatype Tables = Tables(
    playlists: map<string, PlaylistRow>, tracks: map<string, TrackRow>, artists: map<string, ArtistRow>,
    playlistTracks: set<(string, string)>, trackArtists: set<(string, string)>)

  function TablesOf(store: Store): Tables
    reads store
  {
    Tables(store.playlists, store.tracks, store.artists, store.playlistTracks, store.trackArtists)
  }

  /** Two identical syncs in a row: when the first succeeds, the second
      succeeds too, reports the same track count and leaves every table as the
      first left it. */
  method SyncTwice(store: Store, pid: string, c: Catalog, fuel: nat)
    returns (first: Result<SyncSummary>, second: Result<SyncSummary>, ghost afterFirst: Tables)
    requires store.Valid()
    modifies store
    ensures store.Valid()
    ensures first.Ok? ==> (second.Ok? && second.value.trackCount == first.value.trackCount &&
      TablesOf(store) == afterFirst)
  {
    ghost var groups;
    first, groups := SyncPlaylist(store, pid, c, fuel);
    afterFirst := TablesOf(store);
    second, groups := SyncPlaylist(store, pid, c, fuel);
    if first.Ok? {
      RewriteSame(afterFirst.playlists, c.playlist(pid).id.value, PlaylistRowOf(PlaylistDataOf(c.playlist(pid))));
    }
  }
}
