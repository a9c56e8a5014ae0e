/** The remote music catalogue as the sync code sees it (JSON payloads reduced
    to the fields it reads), and the rows the code builds from those payloads
    before writing them to the store. */
module Catalog {
  import opened Common
  import opened Seqs
  import opened Text

  datatype Image = Image(url: Option<string>)

  /** The ten columns the code copies from an audio-features record; each is
      absent when the record lacks the key. The values are opaque payload. */
  datatype AudioFeatures = AudioFeatures(
    danceability: Option<real>, energy: Option<real>, loudness: Option<real>,
    speechiness: Option<real>, acousticness: Option<real>,
    instrumentalness: Option<real>, liveness: Option<real>, valence: Option<real>,
    tempo: Option<real>, mode: Option<int>)

  /** `{}.get(...)` for every feature column. */
  const NoFeatures := AudioFeatures(None, None, None, None, None, None, None, None, None, None)

  /** A track object of a playlist page (the `track` field of an item). */
  datatype RemoteTrack = RemoteTrack(
    id: string, name: Option<string>, albumImages: seq<Image>,
    previewUrl: Option<string>, popularity: Option<int>, durationMs: Option<int>,
    artistIds: seq<string>)

  datatype RemoteArtist = RemoteArtist(
    id: string, name: Option<string>, images: seq<Image>, popularity: Option<int>,
    genres: seq<string>)

  /** One page of playlist items; `next` is the URL of the following page. */
  datatype Page = Page(items: seq<RemoteTrack>, next: Option<string>)

  /** A playlist object; `id` is absent in an error response. */
  datatype RemotePlaylist = RemotePlaylist(
    id: Option<string>, name: Option<string>, description: Option<string>,
    images: seq<Image>, followersTotal: Option<int>, tracks: Page)

  /** The responses of the catalogue: a playlist by id, the page behind a
      `next` URL, an audio-feature batch and an artist batch for a list of ids. */
  datatype Catalog = Catalog(
    playlist: string -> RemotePlaylist,
    pages: map<string, Page>,
    audioFeatures: seq<string> -> seq<Option<AudioFeatures>>,
    artists: seq<string> -> seq<RemoteArtist>)

  /** The catalogue answers every audio-feature batch with one entry per id. */
  ghost predicate FeaturesAnswered(c: Catalog) {
    forall ids: seq<string> :: |c.audioFeatures(ids)| == |ids|
  }

  /** The catalogue answers every artist batch with the artists of those ids,
      in request order. */
  ghost predicate ArtistsAnswered(c: Catalog) {
    forall ids: seq<string> :: |c.artists(ids)| == |ids| &&
      forall i | 0 <= i < |ids| :: c.artists(ids)[i].id == ids[i]
  }

  /** Row of the `playlists` table as built by `update_or_create_playlist`. */
  datatype PlaylistData = PlaylistData(
    id: Option<string>, name: Option<string>, description: Option<string>,
    thumbnail: Option<string>, followersCount: Option<int>)

  /** The non-key columns of the `playlists` table. */
  datatype PlaylistRow = PlaylistRow(
    name: Option<string>, description: Option<string>, thumbnail: Option<string>,
    followersCount: Option<int>)

  function PlaylistRowOf(d: PlaylistData): PlaylistRow {
    PlaylistRow(d.name, d.description, d.thumbnail, d.followersCount)
  }

  /** Row of the `tracks` table. */
  datatype TrackRow = TrackRow(
    id: string, name: Option<string>, thumbnail: Option<string>,
    previewUrl: Option<string>, popularity: Option<int>, features: AudioFeatures,
    durationMs: Option<int>)

  /** `images[0].get("url") if images else None` */
  function Thumbnail(images: seq<Image>): Option<string> {
    if images == [] then None else images[0].url
  }

  function PlaylistDataOf(p: RemotePlaylist): PlaylistData {
    PlaylistData(p.id, p.name, p.description, Thumbnail(p.images), p.followersTotal)
  }

  /** The row built from a track and the feature entry zipped with it; a null
      entry is read as `{}`. */
  function TrackRowOf(t: RemoteTrack, f: Option<AudioFeatures>): TrackRow {
    var features := if f.Some? then f.value else NoFeatures;
    TrackRow(t.id, t.name, Thumbnail(t.albumImages), t.previewUrl, t.popularity,
             features, t.durationMs)
  }

  /** The columns of a row that come from the track itself. */
  function TrackFields(t: RemoteTrack): TrackRow {
    TrackRow(t.id, t.name, Thumbnail(t.albumImages), t.previewUrl, t.popularity,
             NoFeatures, t.durationMs)
  }

  function Blank(r: TrackRow): TrackRow { r.(features := NoFeatures) }

  /** Whatever feature entry a track is zipped with, the identity, name, image,
      preview, popularity and duration columns come from the track; a null
      entry leaves every feature column empty and raises nothing. */
  lemma TrackRowColumns(t: RemoteTrack, f: Option<AudioFeatures>)
    ensures Blank(TrackRowOf(t, f)) == TrackFields(t)
    ensures TrackRowOf(t, f).id == t.id && TrackRowOf(t, f).durationMs == t.durationMs
    ensures f.None? ==> TrackRowOf(t, f) == TrackFields(t)
    ensures f.None? ==> TrackRowOf(t, f).features == NoFeatures
    ensures f.Some? ==> TrackRowOf(t, f).features == f.value
  {
  }

  function TrackIds(ts: seq<RemoteTrack>): (ids: seq<string>)
    ensures |ids| == |ts| && forall i | 0 <= i < |ts| :: ids[i] == ts[i].id
  {
    seq(|ts|, i requires 0 <= i < |ts| => ts[i].id)
  }

  function IdSet(ts: seq<RemoteTrack>): (s: set<string>)
    ensures forall id :: id in s <==> exists i | 0 <= i < |ts| :: ts[i].id == id
  {
    set t | t in ts :: t.id
  }

  predicate DistinctIds(ts: seq<RemoteTrack>) {
    Distinct(TrackIds(ts))
  }

  /** With one feature entry per id and distinct ids, there is a row for every
      track, found under its id, holding the track's own columns. */
  lemma RowsCoverTracks(ts: seq<RemoteTrack>, rows: seq<TrackRow>)
    requires Blanks(rows) == FieldsOf(ts) && DistinctIds(ts)
    ensures forall t | t in ts :: t.id in Keyed(rows, RowId) && Blank(Keyed(rows, RowId)[t.id]) == TrackFields(t)
  {
    assert |rows| == |ts|;
    assert forall i | 0 <= i < |ts| :: rows[i].id == Blank(rows[i]).id == TrackFields(ts[i]).id;
    assert RowIds(rows) == TrackIds(ts);
    forall t | t in ts
      ensures t.id in Keyed(rows, RowId) && Blank(Keyed(rows, RowId)[t.id]) == TrackFields(t)
    {
      var i :| 0 <= i < |ts| && ts[i] == t;
      KeyedAt(rows, RowId, i);
      assert RowId(rows[i]) == t.id;
    }
  }

  /** The id set of a track list holds the ids of its id list, and has one id
      per track exactly when no id repeats. */
  lemma IdSetCard(ts: seq<RemoteTrack>)
    ensures IdSet(ts) == set id | id in TrackIds(ts)
    ensures |IdSet(ts)| == |ts| <==> DistinctIds(ts)
  {
    var ids := TrackIds(ts);
    assert IdSet(ts) == set id | id in ids by {
      forall id | id in ids ensures id in IdSet(ts) {
        var i :| 0 <= i < |ids| && ids[i] == id;
        assert ts[i] in ts;
      }
    }
    if DistinctIds(ts) {
      DistinctCard(ids);
    }
    if |IdSet(ts)| == |ts| {
      CardDistinct(ids);
    }
  }

  function RowId(r: TrackRow): string { r.id }

  function RowIds(rows: seq<TrackRow>): seq<string> { KeysOf(rows, RowId) }

  function Blanks(rows: seq<TrackRow>): (bs: seq<TrackRow>)
    ensures |bs| == |rows| && forall i | 0 <= i < |rows| :: bs[i] == Blank(rows[i])
  {
    seq(|rows|, i requires 0 <= i < |rows| => Blank(rows[i]))
  }

  function FieldsOf(ts: seq<RemoteTrack>): (fs: seq<TrackRow>)
    ensures |fs| == |ts| && forall i | 0 <= i < |ts| :: fs[i] == TrackFields(ts[i])
  {
    seq(|ts|, i requires 0 <= i < |ts| => TrackFields(ts[i]))
  }

  /** Artist ids credited on a list of tracks, each once. */
  function ArtistIdSet(ts: seq<RemoteTrack>): set<string> {
    set t, a | t in ts && a in t.artistIds :: a
  }

  /** With distinct ids, the tracks before the last have distinct ids, none of
      them the last one's. */
  lemma DistinctIdsInit(ts: seq<RemoteTrack>)
    requires ts != [] && DistinctIds(ts)
    ensures DistinctIds(ts[..|ts| - 1]) && ts[|ts| - 1].id !in IdSet(ts[..|ts| - 1])
  {
    var init := ts[..|ts| - 1];
    assert TrackIds(init) == TrackIds(ts)[..|ts| - 1];
    DistinctPrefix(TrackIds(ts), |ts| - 1);
  }
}
