/** The sync of the earlier backend: the playlist id is cut out of a URL, every
    fetched track and artist is upserted (stored rows are overwritten), genre
    and attribution rows are inserted one by one with `DO NOTHING`, and
    membership rows are never written. Every statement commits on its own, so
    a failing statement ends the sync with the earlier writes kept. */
module BackendSync {
  import opened Common
  import opened Seqs
  import opened Text
  import opened Batching
  import opened Catalog
  import opened Pagination
  import opened BackendModels
  import ApiSync

  // ---------------------------------------------------------------------------
  // The playlist id of a URL

  /** The text after the last '/' of a URL. */
  function LastSegment(url: string): string {
    var parts := Split(url, '/');
    parts[|parts| - 1]
  }

  /** `url.split("/")[-1].split("?")[0]` */
  function ParsePlaylistId(url: string): string {
    Split(LastSegment(url), '?')[0]
  }

  /** The id is the text after the last '/', cut at its first '?': it is a
      prefix of a suffix of the URL that starts at the beginning or right after
      a '/', and it ends at the end of that suffix or right before a '?'. */
  lemma ParsePlaylistIdSpec(url: string)
    ensures '/' !in ParsePlaylistId(url) && '?' !in ParsePlaylistId(url)
    ensures var seg := LastSegment(url);
      '/' !in seg && |seg| <= |url| && url[|url| - |seg|..] == seg &&
      (|seg| == |url| || url[|url| - |seg| - 1] == '/')
    ensures var seg := LastSegment(url); var id := ParsePlaylistId(url);
      |id| <= |seg| && seg[..|id|] == id && (|id| == |seg| || seg[|id|] == '?')
  {
    var parts := Split(url, '/');
    var seg := parts[|parts| - 1];
    assert seg == LastSegment(url);
    LastPiece(url, '/');
    FirstPiece(seg, '?');
    var id := ParsePlaylistId(url);
    assert id == seg[..|id|];
    assert '/' !in id by {
      forall i | 0 <= i < |id| ensures id[i] != '/' {
        assert id[i] == seg[i];
      }
    }
  }

  /** A URL ending in '/' yields the empty id. */
  lemma TrailingSlashGivesEmptyId(url: string)
    requires |url| > 0 && url[|url| - 1] == '/'
    ensures ParsePlaylistId(url) == ""
  {
    LastPiece(url, '/');
    FirstPiece(LastSegment(url), '?');
  }

  // ---------------------------------------------------------------------------
  // Tracks

  /** The table after upserting `rows` over `stored`: every stored key stays,
      new keys are ids of the tracks, rows not among the tracks' ids keep their
      contents, and with a full feature answer every track is found under its
      id with its own columns. */
  lemma UpsertedTable(stored: map<string, TrackRow>, c: Catalog, ts: seq<RemoteTrack>, rows: seq<TrackRow>)
    requires forall r | r in rows :: exists t | t in ts :: Blank(r) == TrackFields(t)
    requires FeaturesAnswered(c) && DistinctIds(ts) ==> Blanks(rows) == FieldsOf(ts)
    ensures stored.Keys <= (stored + Keyed(rows, RowId)).Keys <= stored.Keys + IdSet(ts)
    ensures forall k | k in stored && k !in IdSet(ts) :: (stored + Keyed(rows, RowId))[k] == stored[k]
    ensures FeaturesAnswered(c) && DistinctIds(ts) ==>
      forall t | t in ts :: t.id in (stored + Keyed(rows, RowId)) && Blank((stored + Keyed(rows, RowId))[t.id]) == TrackFields(t)
  {
    forall k | k in Keyed(rows, RowId) ensures k in IdSet(ts) {
      var j :| 0 <= j < |rows| && RowId(rows[j]) == k;
      assert rows[j] in rows;
      var t :| t in ts && Blank(rows[j]) == TrackFields(t);
      assert t.id == k;
    }
    if FeaturesAnswered(c) && DistinctIds(ts) {
      RowsCoverTracks(ts, rows);
    }
  }

  /** The write loop: one `insert_or_update_track` per row, in order. */
  method UpsertTracks(store: Store, rows: seq<TrackRow>)
    requires store.Valid()
    modifies store
    ensures store.Valid()
    ensures store.tracks == old(store.tracks) + Keyed(rows, RowId)
    ensures store.playlists == old(store.playlists) && store.artists == old(store.artists)
    ensures store.artistsTracks == old(store.artistsTracks) && store.playlistsTracks == old(store.playlistsTracks)
    ensures store.artistsGenres == old(store.artistsGenres)
  {
    ghost var tracks0 := store.tracks;
    var i := 0;
    while i < |rows|
      invariant i <= |rows|
      invariant store.Valid()
      invariant store.tracks == tracks0 + Keyed(rows[..i], RowId)
      invariant store.playlists == old(store.playlists) && store.artists == old(store.artists)
      invariant store.artistsTracks == old(store.artistsTracks) && store.playlistsTracks == old(store.playlistsTracks)
      invariant store.artistsGenres == old(store.artistsGenres)
    {
      assert rows[..i + 1][..i] == rows[..i];
      OverrideUpdate(tracks0, Keyed(rows[..i], RowId), rows[i].id, rows[i]);
      store.InsertOrUpdateTrack(rows[i]);
      i := i + 1;
    }
    assert rows[..i] == rows;
  }

  /** `update_or_create_tracks`: the same batching and zipping as in the api
      (track batches from the list, id batches from the id set), then one
      upsert per zipped row, in order; later rows overwrite earlier ones and
      stored rows. */
  method UpdateOrCreateTracks(store: Store, c: Catalog, ts: seq<RemoteTrack>)
    returns (ghost rows: seq<TrackRow>)
    requires store.Valid()
    modifies store
    ensures store.Valid()
    ensures store.tracks == old(store.tracks) + Keyed(rows, RowId)
    ensures forall r | r in rows :: exists t | t in ts :: Blank(r) == TrackFields(t)
    ensures old(store.tracks).Keys <= store.tracks.Keys <= old(store.tracks).Keys + IdSet(ts)
    ensures forall k | k in old(store.tracks) && k !in IdSet(ts) :: store.tracks[k] == old(store.tracks)[k]
    ensures FeaturesAnswered(c) && DistinctIds(ts) ==>
      forall t | t in ts :: t.id in store.tracks && Blank(store.tracks[t.id]) == TrackFields(t)
    ensures store.playlists == old(store.playlists) && store.artists == old(store.artists)
    ensures store.artistsTracks == old(store.artistsTracks) && store.playlistsTracks == old(store.playlistsTracks)
    ensures store.artistsGenres == old(store.artistsGenres)
  {
    var built := ApiSync.BuildTrackRows(c, ts);
    rows := built;
    UpsertedTable(store.tracks, c, ts, built);
    UpsertTracks(store, built);
  }

  // ---------------------------------------------------------------------------
  // Artists, genres and attributions

  /** Row of the backend `artists` table built from an artist object. */
  function ArtistRowOf(a: RemoteArtist): (r: ArtistRow)
    ensures r.id == a.id && r.name == a.name && r.popularity == a.popularity
    ensures r.thumbnail == Thumbnail(a.images)
  {
    ArtistRow(a.id, a.name, Thumbnail(a.images), a.popularity)
  }

  /** `zip(artists_ids, artists)`: each returned artist with the id requested
      at its position. */
  function ZipIds(ids: seq<string>, answer: seq<RemoteArtist>): (ps: seq<(string, RemoteArtist)>)
    ensures |ps| == Min(|ids|, |answer|)
    ensures forall i | 0 <= i < |ps| :: ps[i] == (ids[i], answer[i])
  {
    seq(Min(|ids|, |answer|), i requires 0 <= i < Min(|ids|, |answer|) => (ids[i], answer[i]))
  }

  function PairId(p: (string, RemoteArtist)): string { p.0 }

  /** The zipped pairs of the answers to the first `k` id batches. */
  function PairBatches(c: Catalog, ics: seq<seq<string>>, k: nat): seq<(string, RemoteArtist)>
    requires k <= |ics|
  {
    if k == 0 then [] else PairBatches(c, ics, k - 1) + ZipIds(ics[k - 1], c.artists(ics[k - 1]))
  }

  /** Each pair holds the artist answered under its own id. */
  predicate Matched(ps: seq<(string, RemoteArtist)>) {
    forall i | 0 <= i < |ps| :: ps[i].1.id == ps[i].0
  }

  /** When the catalogue answers each batch with the artists of its ids, the
      pairs carry the requested ids in order. */
  lemma {:induction false} PairBatchesKeys(c: Catalog, ics: seq<seq<string>>, k: nat)
    requires k <= |ics| && ArtistsAnswered(c)
    ensures KeysOf(PairBatches(c, ics, k), PairId) == Flatten(ics[..k])
  {
    if k > 0 {
      var ps := ZipIds(ics[k - 1], c.artists(ics[k - 1]));
      PairBatchesKeys(c, ics, k - 1);
      AnsweredPairs(c, ics[k - 1]);
      KeysOfAppend(PairBatches(c, ics, k - 1), ps, PairId);
      FlattenPrefix(ics, k);
    }
  }

  /** ... and each of them with the artist of that id. */
  lemma {:induction false} PairBatchesMatched(c: Catalog, ics: seq<seq<string>>, k: nat)
    requires k <= |ics| && ArtistsAnswered(c)
    ensures Matched(PairBatches(c, ics, k))
  {
    if k > 0 {
      PairBatchesMatched(c, ics, k - 1);
      AnsweredPairs(c, ics[k - 1]);
      MatchedAppend(PairBatches(c, ics, k - 1), ZipIds(ics[k - 1], c.artists(ics[k - 1])));
    }
  }

  /** One answered batch zips each requested id, in order, with its artist. */
  lemma AnsweredPairs(c: Catalog, ids: seq<string>)
    requires ArtistsAnswered(c)
    ensures KeysOf(ZipIds(ids, c.artists(ids)), PairId) == ids
    ensures Matched(ZipIds(ids, c.artists(ids)))
  {
    var answer := c.artists(ids);
    assert |answer| == |ids| && forall i | 0 <= i < |ids| :: answer[i].id == ids[i];
  }

  lemma MatchedAppend(a: seq<(string, RemoteArtist)>, b: seq<(string, RemoteArtist)>)
    requires Matched(a) && Matched(b)
    ensures Matched(a + b)
  {
    forall i | 0 <= i < |a + b| ensures (a + b)[i].1.id == (a + b)[i].0 {
      if i >= |a| {
        assert (a + b)[i] == b[i - |a|];
      }
    }
  }

  /** The request loop of `update_or_create_artists`: the ids in batches of
      50, each answered by one catalogue request and zipped with its ids. */
  method ArtistPairs(c: Catalog, ids: seq<string>) returns (pairs: seq<(string, RemoteArtist)>)
    ensures pairs == PairBatches(c, Chunks(ids, ApiSync.ArtistBatch), |Chunks(ids, ApiSync.ArtistBatch)|)
    ensures ArtistsAnswered(c) ==> KeysOf(pairs, PairId) == ids && Matched(pairs)
  {
    var ics := ChunkedList(ids, ApiSync.ArtistBatch);
    pairs := [];
    var k := 0;
    while k < |ics|
      invariant k <= |ics|
      invariant pairs == PairBatches(c, ics, k)
    {
      pairs := pairs + ZipIds(ics[k], c.artists(ics[k]));
      k := k + 1;
    }
    if ArtistsAnswered(c) {
      PairBatchesKeys(c, ics, k);
      PairBatchesMatched(c, ics, k);
      assert ics[..k] == ics;
    }
  }

  /** The genre rows written for one requested id. */
  function GenreSet(aid: string, genres: seq<string>): (s: set<(string, string)>)
    ensures forall g :: (aid, g) in s <==> g in genres
    ensures forall r | r in s :: r.0 == aid
  {
    set g | g in genres :: (aid, g)
  }

  /** The attribution rows written for one requested id: one per track that
      credits it. */
  function LinkSet(aid: string, ts: seq<RemoteTrack>): set<(string, string)> {
    set t | t in ts && aid in t.artistIds :: (aid, t.id)
  }

  lemma LinkSetMembers(aid: string, ts: seq<RemoteTrack>)
    ensures forall r | r in LinkSet(aid, ts) :: r.0 == aid && exists t | t in ts :: t.id == r.1 && aid in t.artistIds
    ensures forall t | t in ts && aid in t.artistIds :: (aid, t.id) in LinkSet(aid, ts)
  {
  }

  /** The artist rows of a list of pairs as a table, later pairs winning. */
  function ArtistTable(ps: seq<(string, RemoteArtist)>): map<string, ArtistRow>
    decreases |ps|
  {
    if ps == [] then map[]
    else var r := ArtistRowOf(ps[|ps| - 1].1); ArtistTable(ps[..|ps| - 1])[r.id := r]
  }

  function GenreRows(ps: seq<(string, RemoteArtist)>): set<(string, string)>
    decreases |ps|
  {
    if ps == [] then {}
    else GenreRows(ps[..|ps| - 1]) + GenreSet(ps[|ps| - 1].0, ps[|ps| - 1].1.genres)
  }

  function LinkRows(ps: seq<(string, RemoteArtist)>, ts: seq<RemoteTrack>): set<(string, string)>
    decreases |ps|
  {
    if ps == [] then {}
    else LinkRows(ps[..|ps| - 1], ts) + LinkSet(ps[|ps| - 1].0, ts)
  }

  /** The rows of a prefix of the pairs are among the rows of all of them. */
  lemma {:induction false} RowsOfPrefix(ps: seq<(string, RemoteArtist)>, ts: seq<RemoteTrack>, j: nat)
    requires j <= |ps|
    ensures GenreRows(ps[..j]) <= GenreRows(ps) && LinkRows(ps[..j], ts) <= LinkRows(ps, ts)
    decreases |ps|
  {
    if j < |ps| {
      var init := ps[..|ps| - 1];
      assert init[..j] == ps[..j];
      RowsOfPrefix(init, ts, j);
    } else {
      assert ps[..j] == ps;
    }
  }

  /** An attribution row is written exactly for a requested id and a track
      crediting it. */
  lemma {:induction false} LinkRowsMembers(ps: seq<(string, RemoteArtist)>, ts: seq<RemoteTrack>)
    ensures forall l | l in LinkRows(ps, ts) ::
      l.0 in KeysOf(ps, PairId) && exists t | t in ts :: t.id == l.1 && l.0 in t.artistIds
    ensures forall a, t | a in KeysOf(ps, PairId) && t in ts && a in t.artistIds :: (a, t.id) in LinkRows(ps, ts)
    decreases |ps|
  {
    if ps != [] {
      var init := ps[..|ps| - 1];
      LinkRowsMembers(init, ts);
      LinkSetMembers(ps[|ps| - 1].0, ts);
      KeysOfAppend(init, [ps[|ps| - 1]], PairId);
      assert ps == init + [ps[|ps| - 1]];
    }
  }

  /** When the requested ids are exactly the credited ones, the attribution
      rows are exactly the (artist, track) credits of the tracks. */
  lemma LinkRowsAreCredits(ps: seq<(string, RemoteArtist)>, ts: seq<RemoteTrack>)
    requires (set a | a in KeysOf(ps, PairId)) == ArtistIdSet(ts)
    ensures LinkRows(ps, ts) == Credits(ts)
  {
    LinkRowsMembers(ps, ts);
    forall l | l in Credits(ts) ensures l in LinkRows(ps, ts) {
      var t, a :| t in ts && a in t.artistIds && l == (a, t.id);
      assert a in ArtistIdSet(ts);
    }
  }

  /** Every (artist, track) credit of the tracks. */
  function Credits(ts: seq<RemoteTrack>): set<(string, string)> {
    set t, a | t in ts && a in t.artistIds :: (a, t.id)
  }

  /** Every requested id gets the genres of the artist answered for it. */
  lemma {:induction false} GenreRowsMembers(ps: seq<(string, RemoteArtist)>)
    ensures forall r | r in GenreRows(ps) :: exists p | p in ps :: p.0 == r.0 && r.1 in p.1.genres
    ensures forall p, g | p in ps && g in p.1.genres :: (p.0, g) in GenreRows(ps)
    decreases |ps|
  {
    if ps != [] {
      var init := ps[..|ps| - 1];
      GenreRowsMembers(init);
      assert ps == init + [ps[|ps| - 1]];
    }
  }

  /** `for genre in artist.get("genres", [])`: one insert per genre under the
      requested id; all of them fail alike when that id is not a stored artist. */
  method InsertGenres(store: Store, aid: string, genres: seq<string>) returns (o: Outcome)
    requires store.Valid()
    modifies store
    ensures store.Valid()
    ensures o.Pass? <==> genres == [] || aid in old(store.artists)
    ensures o.Fail? ==> o.error == ForeignKeyViolation && store.artistsGenres == old(store.artistsGenres)
    ensures o.Pass? ==> store.artistsGenres == old(store.artistsGenres) + GenreSet(aid, genres)
    ensures store.playlists == old(store.playlists) && store.tracks == old(store.tracks)
    ensures store.artists == old(store.artists)
    ensures store.artistsTracks == old(store.artistsTracks) && store.playlistsTracks == old(store.playlistsTracks)
  {
    o := Pass;
    var i := 0;
    while i < |genres|
      invariant i <= |genres|
      invariant store.Valid()
      invariant o == Pass && (i > 0 ==> aid in store.artists)
      invariant store.artistsGenres == old(store.artistsGenres) + GenreSet(aid, genres[..i])
      invariant store.playlists == old(store.playlists) && store.tracks == old(store.tracks)
      invariant store.artists == old(store.artists)
      invariant store.artistsTracks == old(store.artistsTracks) && store.playlistsTracks == old(store.playlistsTracks)
    {
      assert GenreSet(aid, genres[..i + 1]) == GenreSet(aid, genres[..i]) + {(aid, genres[i])} by {
        assert genres[..i + 1] == genres[..i] + [genres[i]];
      }
      o := store.InsertArtistGenre(aid, genres[i]);
      if o.Fail? {
        assert genres[..0] == [];
        return;
      }
      i := i + 1;
    }
    assert genres[..i] == genres;
  }

  /** `for track in all_tracks: if artist_id in [...]`: one attribution insert
      per crediting track, in track order; the first one whose artist or track
      is not stored fails and ends the loop. */
  method LinkTracks(store: Store, aid: string, ts: seq<RemoteTrack>) returns (o: Outcome)
    requires store.Valid()
    modifies store
    ensures store.Valid()
    ensures o.Pass? <==> CreditsStored(aid, ts, old(store.artists), old(store.tracks))
    ensures o.Fail? ==> o.error == ForeignKeyViolation
    ensures o.Pass? ==> store.artistsTracks == old(store.artistsTracks) + LinkSet(aid, ts)
    ensures old(store.artistsTracks) <= store.artistsTracks <= old(store.artistsTracks) + LinkSet(aid, ts)
    ensures store.playlists == old(store.playlists) && store.tracks == old(store.tracks)
    ensures store.artists == old(store.artists)
    ensures store.playlistsTracks == old(store.playlistsTracks) && store.artistsGenres == old(store.artistsGenres)
  {
    ghost var links0 := store.artistsTracks;
    o := Pass;
    var i := 0;
    while i < |ts|
      invariant i <= |ts|
      invariant store.Valid()
      invariant CreditsStored(aid, ts[..i], store.artists, store.tracks)
      invariant store.artistsTracks == links0 + LinkSet(aid, ts[..i])
      invariant o == Pass
      invariant store.playlists == old(store.playlists) && store.tracks == old(store.tracks)
      invariant store.artists == old(store.artists)
      invariant store.playlistsTracks == old(store.playlistsTracks) && store.artistsGenres == old(store.artistsGenres)
    {
      var t := ts[i];
      LinkSetStep(aid, ts, i, store.artists, store.tracks);
      ghost var before := store.artistsTracks;
      if aid in t.artistIds {
        o := store.InsertArtistTrack(aid, t.id);
      }
      RowsStep(links0, LinkSet(aid, ts[..i]), if aid in t.artistIds then {(aid, t.id)} else {},
        LinkSet(aid, ts[..i + 1]), LinkSet(aid, ts), before, store.artistsTracks);
      if o.Fail? {
        return;
      }
      i := i + 1;
    }
    assert ts[..i] == ts;
  }

  /** Every track of `ts` that credits `aid` can be linked to it. */
  predicate CreditsStored(aid: string, ts: seq<RemoteTrack>, artists: map<string, ArtistRow>, tracks: map<string, TrackRow>) {
    forall t | t in ts && aid in t.artistIds :: aid in artists && t.id in tracks
  }

  /** One more track: its link is added when it credits `aid`. */
  lemma LinkSetStep(aid: string, ts: seq<RemoteTrack>, i: nat, artists: map<string, ArtistRow>, tracks: map<string, TrackRow>)
    requires i < |ts|
    ensures LinkSet(aid, ts[..i + 1]) ==
      LinkSet(aid, ts[..i]) + (if aid in ts[i].artistIds then {(aid, ts[i].id)} else {})
    ensures LinkSet(aid, ts[..i + 1]) <= LinkSet(aid, ts)
    ensures CreditsStored(aid, ts[..i + 1], artists, tracks) <==>
      CreditsStored(aid, ts[..i], artists, tracks) &&
      (aid in ts[i].artistIds ==> aid in artists && ts[i].id in tracks)
  {
    assert ts[..i + 1] == ts[..i] + [ts[i]];
  }

  /** The body of the zip loop for one (requested id, artist) pair: upsert the
      artist row, then its genre rows, then its attribution rows. An artist
      answered under another id leaves the requested id without an artist row,
      and its genre or attribution rows then violate the foreign key. */
  method StoreArtist(store: Store, aid: string, a: RemoteArtist, ts: seq<RemoteTrack>) returns (o: Outcome)
    requires store.Valid()
    modifies store
    ensures store.Valid()
    ensures store.artists == old(store.artists)[a.id := ArtistRowOf(a)]
    ensures var stored := aid == a.id || aid in old(store.artists);
      o.Pass? <==> ((a.genres == [] || stored) &&
        forall t | t in ts && aid in t.artistIds :: stored && t.id in old(store.tracks))
    ensures o.Fail? ==> o.error == ForeignKeyViolation
    ensures o.Pass? ==>
      store.artistsGenres == old(store.artistsGenres) + GenreSet(aid, a.genres) &&
      store.artistsTracks == old(store.artistsTracks) + LinkSet(aid, ts)
    ensures old(store.artistsGenres) <= store.artistsGenres <= old(store.artistsGenres) + GenreSet(aid, a.genres)
    ensures old(store.artistsTracks) <= store.artistsTracks <= old(store.artistsTracks) + LinkSet(aid, ts)
    ensures store.playlists == old(store.playlists) && store.tracks == old(store.tracks)
    ensures store.playlistsTracks == old(store.playlistsTracks)
  {
    store.InsertOrUpdateArtist(ArtistRowOf(a));
    o := InsertGenres(store, aid, a.genres);
    if o.Fail? {
      return;
    }
    o := LinkTracks(store, aid, ts);
  }

  /** The rows of the first `i + 1` pairs are the rows of the first `i` and
      those of pair `i`. */
  lemma PrefixStep(ps: seq<(string, RemoteArtist)>, ts: seq<RemoteTrack>, i: nat)
    requires i < |ps|
    ensures ArtistTable(ps[..i + 1]) == ArtistTable(ps[..i])[ps[i].1.id := ArtistRowOf(ps[i].1)]
    ensures GenreRows(ps[..i + 1]) == GenreRows(ps[..i]) + GenreSet(ps[i].0, ps[i].1.genres)
    ensures LinkRows(ps[..i + 1], ts) == LinkRows(ps[..i], ts) + LinkSet(ps[i].0, ts)
  {
    assert ps[..i + 1][..i] == ps[..i];
  }

  /** The zip loop of `update_or_create_artists` over the answered pairs: each
      pair is stored in turn, and the first failing statement ends the loop
      with the earlier rows kept. */
  method StorePairs(store: Store, ps: seq<(string, RemoteArtist)>, ts: seq<RemoteTrack>) returns (o: Outcome)
    requires store.Valid()
    modifies store
    ensures store.Valid()
    ensures o.Pass? ==>
      store.artists == old(store.artists) + ArtistTable(ps) &&
      store.artistsGenres == old(store.artistsGenres) + GenreRows(ps) &&
      store.artistsTracks == old(store.artistsTracks) + LinkRows(ps, ts)
    ensures old(store.artistsGenres) <= store.artistsGenres <= old(store.artistsGenres) + GenreRows(ps)
    ensures old(store.artistsTracks) <= store.artistsTracks <= old(store.artistsTracks) + LinkRows(ps, ts)
    ensures o.Fail? ==> o.error == ForeignKeyViolation
    ensures old(store.artists).Keys <= store.artists.Keys
    ensures Matched(ps) && (forall t | t in ts :: t.id in old(store.tracks)) ==> o.Pass?
    ensures store.playlists == old(store.playlists) && store.tracks == old(store.tracks)
    ensures store.playlistsTracks == old(store.playlistsTracks)
  {
    ghost var artists0, genres0, links0 := store.artists, store.artistsGenres, store.artistsTracks;
    o := Pass;
    var i := 0;
    while i < |ps|
      invariant i <= |ps|
      invariant store.Valid()
      invariant store.artists == artists0 + ArtistTable(ps[..i])
      invariant store.artistsGenres == genres0 + GenreRows(ps[..i])
      invariant store.artistsTracks == links0 + LinkRows(ps[..i], ts)
      invariant store.playlists == old(store.playlists) && store.tracks == old(store.tracks)
      invariant store.playlistsTracks == old(store.playlistsTracks)
      invariant o == Pass
    {
      o := StoreNext(store, ps, ts, i, artists0, genres0, links0);
      if o.Fail? {
        return;
      }
      i := i + 1;
    }
    assert ps[..i] == ps;
  }

  /** One turn of the zip loop: after the rows of the first `i` pairs, store
      pair `i`. */
  method StoreNext(store: Store, ps: seq<(string, RemoteArtist)>, ts: seq<RemoteTrack>, i: nat,
                   ghost artists0: map<string, ArtistRow>, ghost genres0: set<(string, string)>,
                   ghost links0: set<(string, string)>) returns (o: Outcome)
    requires i < |ps| && store.Valid()
    requires store.artists == artists0 + ArtistTable(ps[..i])
    requires store.artistsGenres == genres0 + GenreRows(ps[..i])
    requires store.artistsTracks == links0 + LinkRows(ps[..i], ts)
    modifies store
    ensures store.Valid()
    ensures o.Pass? ==>
      store.artists == artists0 + ArtistTable(ps[..i + 1]) &&
      store.artistsGenres == genres0 + GenreRows(ps[..i + 1]) &&
      store.artistsTracks == links0 + LinkRows(ps[..i + 1], ts)
    ensures old(store.artistsGenres) <= store.artistsGenres <= genres0 + GenreRows(ps)
    ensures old(store.artistsTracks) <= store.artistsTracks <= links0 + LinkRows(ps, ts)
    ensures o.Fail? ==> o.error == ForeignKeyViolation
    ensures old(store.artists).Keys <= store.artists.Keys
    ensures Matched(ps) && (forall t | t in ts :: t.id in old(store.tracks)) ==> o.Pass?
    ensures store.playlists == old(store.playlists) && store.tracks == old(store.tracks)
    ensures store.playlistsTracks == old(store.playlistsTracks)
  {
    PrefixStep(ps, ts, i);
    RowsOfPrefix(ps, ts, i + 1);
    OverrideUpdate(artists0, ArtistTable(ps[..i]), ps[i].1.id, ArtistRowOf(ps[i].1));
    ghost var genres1, links1 := store.artistsGenres, store.artistsTracks;
    o := StoreArtist(store, ps[i].0, ps[i].1, ts);
    RowsStep(genres0, GenreRows(ps[..i]), GenreSet(ps[i].0, ps[i].1.genres), GenreRows(ps[..i + 1]),
      GenreRows(ps), genres1, store.artistsGenres);
    RowsStep(links0, LinkRows(ps[..i], ts), LinkSet(ps[i].0, ts), LinkRows(ps[..i + 1], ts),
      LinkRows(ps, ts), links1, store.artistsTracks);
  }

  /** A join table holding `base` and the rows of earlier pairs, to which a
      statement adds some of the next pair's rows, stays within the rows of
      all pairs; when all of them are added it holds the rows up to that pair. */
  lemma RowsStep<T>(base: set<T>, prefix: set<T>, step: set<T>, next: set<T>, all: set<T>,
                    before: set<T>, after: set<T>)
    requires before == base + prefix && next == prefix + step && next <= all
    requires before <= after <= before + step
    ensures before <= after <= base + all
    ensures after == before + step ==> after == base + next
  {
  }

  /** `update_or_create_artists`: the credited ids (in the order of the set),
      answered in batches of 50, each pair stored in turn. `order` is the
      order the id set was listed in. */
  method UpdateOrCreateArtists(store: Store, c: Catalog, ts: seq<RemoteTrack>)
    returns (o: Outcome, ghost order: seq<string>)
    requires store.Valid()
    modifies store
    ensures store.Valid()
    ensures Distinct(order) && (set a | a in order) == ArtistIdSet(ts)
    ensures var ps := PairBatches(c, Chunks(order, ApiSync.ArtistBatch), |Chunks(order, ApiSync.ArtistBatch)|);
      o.Pass? ==>
        store.artists == old(store.artists) + ArtistTable(ps) &&
        store.artistsGenres == old(store.artistsGenres) + GenreRows(ps) &&
        store.artistsTracks == old(store.artistsTracks) + LinkRows(ps, ts)
    ensures var ps := PairBatches(c, Chunks(order, ApiSync.ArtistBatch), |Chunks(order, ApiSync.ArtistBatch)|);
      old(store.artistsGenres) <= store.artistsGenres <= old(store.artistsGenres) + GenreRows(ps) &&
      old(store.artistsTracks) <= store.artistsTracks <= old(store.artistsTracks) + LinkRows(ps, ts)
    ensures o.Fail? ==> o.error == ForeignKeyViolation
    ensures old(store.artists).Keys <= store.artists.Keys
    ensures ArtistsAnswered(c) && (forall t | t in ts :: t.id in old(store.tracks)) ==> o.Pass?
    ensures ArtistsAnswered(c) && o.Pass? ==>
      store.artistsTracks == old(store.artistsTracks) + Credits(ts) &&
      store.artists.Keys == old(store.artists).Keys + ArtistIdSet(ts)
    ensures store.playlists == old(store.playlists) && store.tracks == old(store.tracks)
    ensures store.playlistsTracks == old(store.playlistsTracks)
  {
    var ids := ListOfSet(ArtistIdSet(ts));
    order := ids;
    var ps := ArtistPairs(c, ids);
    if ArtistsAnswered(c) {
      AnsweredPairRows(ps, ts, ids);
    }
    ghost var artists0 := store.artists;
    o := StorePairs(store, ps, ts);
    if ArtistsAnswered(c) && o.Pass? {
      MergedKeys(artists0, ArtistTable(ps), ArtistIdSet(ts));
    }
  }

  /** A table merged over a stored one holds the stored keys and its own. */
  lemma MergedKeys<K, V>(stored: map<K, V>, table: map<K, V>, keys: set<K>)
    requires table.Keys == keys
    ensures (stored + table).Keys == stored.Keys + keys
  {
  }

  /** Pairs answered for every credited id, each with the artist of its id,
      write one artist row per credited id and exactly the credits. */
  lemma AnsweredPairRows(ps: seq<(string, RemoteArtist)>, ts: seq<RemoteTrack>, ids: seq<string>)
    requires KeysOf(ps, PairId) == ids && Matched(ps)
    requires forall a :: a in ids <==> a in ArtistIdSet(ts)
    ensures LinkRows(ps, ts) == Credits(ts)
    ensures ArtistTable(ps).Keys == ArtistIdSet(ts)
  {
    assert (set a | a in KeysOf(ps, PairId)) == ArtistIdSet(ts);
    LinkRowsAreCredits(ps, ts);
    ArtistTableKeys(ps);
  }

  /** When each pair is answered with the artist of its id, the table holds a
      row under every requested id. */
  lemma {:induction false} ArtistTableKeys(ps: seq<(string, RemoteArtist)>)
    requires Matched(ps)
    ensures ArtistTable(ps).Keys == set a | a in KeysOf(ps, PairId)
    decreases |ps|
  {
    if ps != [] {
      var init := ps[..|ps| - 1];
      assert Matched(init) by {
        forall i | 0 <= i < |init| ensures init[i].1.id == init[i].0 {
          assert init[i] == ps[i];
        }
      }
      ArtistTableKeys(init);
      KeysOfAppend(init, [ps[|ps| - 1]], PairId);
      assert ps == init + [ps[|ps| - 1]];
    }
  }

  // ---------------------------------------------------------------------------
  // The sync route

  /** The name the response message shows: `playlist.get('name', 'Untitled')`. */
  function DisplayName(p: RemotePlaylist): string {
    if p.name.Some? then p.name.value else "Untitled"
  }

  /** The catalogue answers so that the backend sync writes everything it
      fetched: the playlist has an id, the walk ends within `fuel` fetches, the
      walk's track ids are distinct, and every batch is answered in full. */
  ghost predicate WellBehaved(c: Catalog, pid: string, fuel: nat) {
    var p := c.playlist(pid);
    p.id.Some? && Walk(c.pages, p.tracks, fuel).Some? &&
    DistinctIds(Walk(c.pages, p.tracks, fuel).value) &&
    FeaturesAnswered(c) && ArtistsAnswered(c)
  }

  /** `sync_playlist` of the backend: parse the id out of the URL, upsert the
      playlist, walk its pages, upsert the tracks, then the artists with their
      genre and attribution rows. The membership table is never written. */
  method SyncPlaylist(store: Store, url: string, c: Catalog, fuel: nat) returns (r: Result<string>)
    requires store.Valid()
    modifies store
    ensures store.Valid()
    ensures store.playlistsTracks == old(store.playlistsTracks)
    ensures var p := c.playlist(ParsePlaylistId(url));
      p.id.None? ==> (r == Err(NullKey) && store.playlists == old(store.playlists) &&
        store.tracks == old(store.tracks) && store.artists == old(store.artists) &&
        store.artistsTracks == old(store.artistsTracks) && store.artistsGenres == old(store.artistsGenres))
    ensures var p := c.playlist(ParsePlaylistId(url));
      p.id.Some? ==> store.playlists == old(store.playlists)[p.id.value := PlaylistRowOf(PlaylistDataOf(p))]
    ensures old(store.tracks).Keys <= store.tracks.Keys && old(store.artists).Keys <= store.artists.Keys
    ensures old(store.artistsTracks) <= store.artistsTracks && old(store.artistsGenres) <= store.artistsGenres
    ensures r.Ok? ==> r.value == DisplayName(c.playlist(ParsePlaylistId(url)))
    ensures WellBehaved(c, ParsePlaylistId(url), fuel) ==> r.Ok?
    ensures WellBehaved(c, ParsePlaylistId(url), fuel) ==>
      var all := Walk(c.pages, c.playlist(ParsePlaylistId(url)).tracks, fuel).value;
      (forall t | t in all :: t.id in store.tracks && Blank(store.tracks[t.id]) == TrackFields(t)) &&
      store.tracks.Keys == old(store.tracks).Keys + IdSet(all) &&
      store.artists.Keys == old(store.artists).Keys + ArtistIdSet(all) &&
      store.artistsTracks == old(store.artistsTracks) + Credits(all)
  {
    var pid := ParsePlaylistId(url);
    var playlist := c.playlist(pid);
    var o := store.InsertOrUpdatePlaylist(PlaylistDataOf(playlist));
    if o.Fail? {
      return Err(o.error);
    }
    var fetched := FetchAllPlaylistTracks(c.pages, playlist.tracks, fuel);
    if fetched.None? {
      return Err(FuelExhausted);
    }
    var all := fetched.value;
    ghost var tracks0 := store.tracks;
    ghost var rows := UpdateOrCreateTracks(store, c, all);
    if WellBehaved(c, pid, fuel) {
      AllKeysStored(tracks0, store.tracks, all);
    }
    ghost var order;
    o, order := UpdateOrCreateArtists(store, c, all);
    if o.Fail? {
      return Err(o.error);
    }
    r := Ok(DisplayName(playlist));
  }

  /** Two identical backend syncs in a row when the catalogue answers: both
      succeed with the same message, and the second leaves the playlists,
      the membership and attribution rows, the stored track and artist ids
      and every track's own columns as the first left them. */
  method SyncTwice(store: Store, url: string, c: Catalog, fuel: nat)
    returns (first: Result<string>, second: Result<string>,
             ghost playlists1: map<string, PlaylistRow>, ghost tracks1: map<string, TrackRow>,
             ghost artists1: map<string, ArtistRow>, ghost links1: set<(string, string)>)
    requires store.Valid()
    modifies store
    ensures store.Valid()
    ensures WellBehaved(c, ParsePlaylistId(url), fuel) ==>
      first.Ok? && second == first &&
      store.playlists == playlists1 && store.artistsTracks == links1 &&
      store.tracks.Keys == tracks1.Keys && store.artists.Keys == artists1.Keys &&
      forall k | k in tracks1 && k in IdSet(Walk(c.pages, c.playlist(ParsePlaylistId(url)).tracks, fuel).value) ::
        Blank(store.tracks[k]) == Blank(tracks1[k])
    ensures store.playlistsTracks == old(store.playlistsTracks)
  {
    first := SyncPlaylist(store, url, c, fuel);
    playlists1, tracks1, artists1, links1 := store.playlists, store.tracks, store.artists, store.artistsTracks;
    second := SyncPlaylist(store, url, c, fuel);
    if WellBehaved(c, ParsePlaylistId(url), fuel) {
      var p := c.playlist(ParsePlaylistId(url));
      RewriteSame(playlists1, p.id.value, PlaylistRowOf(PlaylistDataOf(p)));
      SameOwnColumns(Walk(c.pages, p.tracks, fuel).value, tracks1, store.tracks);
    }
  }

  /** A table that grew by ids of the tracks only, and holds every one of
      them, grew by exactly their ids. */
  lemma AllKeysStored(before: map<string, TrackRow>, after: map<string, TrackRow>, all: seq<RemoteTrack>)
    requires before.Keys <= after.Keys <= before.Keys + IdSet(all)
    requires forall t | t in all :: t.id in after
    ensures after.Keys == before.Keys + IdSet(all)
  {
  }

  /** Two tables that both hold every track under its id with its own
      columns agree on those columns for every id of the tracks. */
  lemma SameOwnColumns(all: seq<RemoteTrack>, m1: map<string, TrackRow>, m2: map<string, TrackRow>)
    requires forall t | t in all :: t.id in m1 && Blank(m1[t.id]) == TrackFields(t)
    requires forall t | t in all :: t.id in m2 && Blank(m2[t.id]) == TrackFields(t)
    ensures forall k | k in m1 && k in IdSet(all) :: k in m2 && Blank(m2[k]) == Blank(m1[k])
  {
    forall k | k in m1 && k in IdSet(all) ensures k in m2 && Blank(m2[k]) == Blank(m1[k]) {
      var t :| t in all && t.id == k;
    }
  }

  /** The backend's `reset_database` route only runs `create_tables`: no row is
      deleted. */
  method ResetDatabase(store: Store)
    requires store.Valid()
    ensures store.Valid()
    ensures unchanged(store)
  {
    store.CreateTables();
  }
}
