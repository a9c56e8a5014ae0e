/** The Postgres store of the api service as in-memory tables: the five tables
    of its schema, the write statements (each committed on success, leaving the
    tables unchanged on failure) and the read queries. */
module ApiModels {
  import opened Common
  import opened Seqs
  import opened Catalog

  /** Row of the `artists` table; `genres` is the comma-joined genre list. */
  datatype ArtistRow = ArtistRow(
    id: string, name: Option<string>, thumbnail: Option<string>,
    popularity: Option<int>, genres: string)

  function ArtistId(r: ArtistRow): string { r.id }

  /** The columns `get_playlist_artists` groups by. */
  datatype ArtistProfile = ArtistProfile(
    name: Option<string>, genres: string, thumbnail: Option<string>, popularity: Option<int>)

  function ProfileOf(r: ArtistRow): ArtistProfile {
    ArtistProfile(r.name, r.genres, r.thumbnail, r.popularity)
  }

  /** One result row of `get_playlist_artists`. */
  datatype ArtistGroup = ArtistGroup(profile: ArtistProfile, numTracks: nat)

  function Profiles(rows: seq<ArtistGroup>): (ps: seq<ArtistProfile>)
    ensures |ps| == |rows| && forall i | 0 <= i < |rows| :: ps[i] == rows[i].profile
  {
    seq(|rows|, i requires 0 <= i < |rows| => rows[i].profile)
  }

  predicate SortedByCountDesc(rows: seq<ArtistGroup>) {
    forall i, j | 0 <= i < j < |rows| :: rows[i].numTracks >= rows[j].numTracks
  }

  /** The track ids paired with a playlist in a set of membership rows. */
  function Members(rows: set<(string, string)>, pid: string): (ids: set<string>)
    ensures forall t :: t in ids <==> (pid, t) in rows
  {
    set m | m in rows && m.0 == pid :: m.1
  }

  /** Adding rows for one playlist adds exactly their ids to its members. */
  lemma MembersAdd(rows: set<(string, string)>, pid: string, ids: seq<string>)
    ensures Members(rows + set t | t in ids :: (pid, t), pid) == Members(rows, pid) + set t | t in ids
  {
    var added := set t | t in ids :: (pid, t);
    assert forall t :: (pid, t) in added <==> t in ids;
  }

  /** Deleting rows of one playlist removes exactly their ids from its members. */
  lemma MembersRemove(rows: set<(string, string)>, pid: string, ids: seq<string>)
    ensures Members(rows - set t | t in ids :: (pid, t), pid) == Members(rows, pid) - set t | t in ids
  {
    var removed := set t | t in ids :: (pid, t);
    assert forall t :: (pid, t) in removed <==> t in ids;
  }

  class Store {
    var playlists: map<string, PlaylistRow>
    var tracks: map<string, TrackRow>
    var artists: map<string, ArtistRow>
    var playlistTracks: set<(string, string)>  // (playlist_id, track_id)
    var trackArtists: set<(string, string)>    // (track_id, artist_id)

    /** The foreign keys of both join tables. */
    ghost predicate Valid()
      reads this
    {
      (forall m | m in playlistTracks :: m.0 in playlists && m.1 in tracks) &&
      (forall a | a in trackArtists :: a.0 in tracks && a.1 in artists)
    }

    ghost predicate Empty()
      reads this
    {
      playlists == map[] && tracks == map[] && artists == map[] &&
      playlistTracks == {} && trackArtists == {}
    }

    /** A freshly created schema. */
    constructor ()
      ensures Valid() && Empty()
    {
      playlists, tracks, artists := map[], map[], map[];
      playlistTracks, trackArtists := {}, {};
    }

    /** `reset_database`: drop all five tables and create them again. */
    method ResetDatabase()
      modifies this
      ensures Valid() && Empty()
    {
      playlists, tracks, artists := map[], map[], map[];
      playlistTracks, trackArtists := {}, {};
    }

    /** `get_playlist_track_ids`: the track ids the playlist has in the
        membership table. */
    function PlaylistTrackIds(pid: string): (ids: set<string>)
      reads this
      ensures forall t :: t in ids <==> (pid, t) in playlistTracks
    {
      Members(playlistTracks, pid)
    }

    /** `get_existing_track_ids`: the given ids that are stored tracks. */
    function ExistingTrackIds(ids: seq<string>): (found: set<string>)
      reads this
      ensures forall t :: t in found <==> t in ids && t in tracks
    {
      set t | t in ids && t in tracks
    }

    /** `get_existing_artist_ids`: the given ids that are stored artists. */
    function ExistingArtistIds(ids: seq<string>): (found: set<string>)
      reads this
      ensures forall a :: a in found <==> a in ids && a in artists
    {
      set a | a in ids && a in artists
    }

    /** `remove_playlist_tracks`: delete the playlist's rows for the given
        tracks; nothing else changes. */
    method RemovePlaylistTracks(pid: string, trackIds: seq<string>)
      requires Valid()
      modifies this
      ensures Valid()
      ensures playlistTracks == old(playlistTracks) - set t | t in trackIds :: (pid, t)
      ensures PlaylistTrackIds(pid) == old(PlaylistTrackIds(pid)) - set t | t in trackIds
      ensures forall m: (string, string) | m.0 != pid :: m in playlistTracks <==> m in old(playlistTracks)
      ensures playlists == old(playlists) && tracks == old(tracks) && artists == old(artists)
      ensures trackArtists == old(trackArtists)
    {
      MembersRemove(playlistTracks, pid, trackIds);
      playlistTracks := playlistTracks - set t | t in trackIds :: (pid, t);
    }

    /** `insert_playlist_tracks` is a plain INSERT of one row per id. */
    method InsertPlaylistTracks(pid: string, trackIds: seq<string>) returns (o: Outcome)
      requires Valid()
      modifies this
      ensures Valid()
      ensures o.Fail? ==> IntegrityError(o.error)
      ensures o.Pass? <==>
        Distinct(trackIds) &&
        (forall t | t in trackIds :: (pid, t) !in old(playlistTracks)) &&
        (forall t | t in trackIds :: pid in old(playlists) && t in old(tracks))
      ensures o.Pass? ==> playlistTracks == old(playlistTracks) + set t | t in trackIds :: (pid, t)
      ensures o.Pass? ==> PlaylistTrackIds(pid) == old(PlaylistTrackIds(pid)) + set t | t in trackIds
      ensures o.Fail? ==> playlistTracks == old(playlistTracks)
      ensures forall m: (string, string) | m.0 != pid :: m in playlistTracks <==> m in old(playlistTracks)
      ensures playlists == old(playlists) && tracks == old(tracks) && artists == old(artists)
      ensures trackArtists == old(trackArtists)
    {
      if !Distinct(trackIds) || exists t | t in trackIds :: (pid, t) in playlistTracks {
        return Fail(DuplicateKey);
      }
      if exists t | t in trackIds :: pid !in playlists || t !in tracks {
        return Fail(ForeignKeyViolation);
      }
      MembersAdd(playlistTracks, pid, trackIds);
      playlistTracks := playlistTracks + set t | t in trackIds :: (pid, t);
      return Pass;
    }

    /** `insert_track_artists` is a plain INSERT of (track, artist) rows. */
    method InsertTrackArtists(pairs: seq<(string, string)>) returns (o: Outcome)
      requires Valid()
      modifies this
      ensures Valid()
      ensures o.Fail? ==> IntegrityError(o.error)
      ensures o.Pass? <==>
        Distinct(pairs) &&
        (forall p | p in pairs :: p !in old(trackArtists)) &&
        (forall p | p in pairs :: p.0 in old(tracks) && p.1 in old(artists))
      ensures o.Pass? ==> trackArtists == old(trackArtists) + set p | p in pairs
      ensures o.Fail? ==> trackArtists == old(trackArtists)
      ensures playlists == old(playlists) && tracks == old(tracks) && artists == old(artists)
      ensures playlistTracks == old(playlistTracks)
    {
      if !Distinct(pairs) || exists p | p in pairs :: p in trackArtists {
        return Fail(DuplicateKey);
      }
      if exists p | p in pairs :: p.0 !in tracks || p.1 !in artists {
        return Fail(ForeignKeyViolation);
      }
      trackArtists := trackArtists + set p | p in pairs;
      return Pass;
    }

    /** `insert_or_update_tracks`, despite its name, is a plain INSERT: a
        stored id, or one repeated in the batch, fails the whole batch. */
    method InsertOrUpdateTracks(rows: seq<TrackRow>) returns (o: Outcome)
      requires Valid()
      modifies this
      ensures Valid()
      ensures o.Fail? ==> IntegrityError(o.error)
      ensures o.Pass? <==> Distinct(RowIds(rows)) && forall r | r in rows :: r.id !in old(tracks)
      ensures o.Pass? ==> tracks == old(tracks) + Keyed(rows, RowId)
      ensures o.Fail? ==> tracks == old(tracks)
      ensures playlists == old(playlists) && artists == old(artists)
      ensures playlistTracks == old(playlistTracks) && trackArtists == old(trackArtists)
    {
      if !Distinct(RowIds(rows)) || exists r | r in rows :: r.id in tracks {
        return Fail(DuplicateKey);
      }
      tracks := tracks + Keyed(rows, RowId);
      return Pass;
    }

    /** `insert_or_update_artists`, also a plain INSERT. */
    method InsertOrUpdateArtists(rows: seq<ArtistRow>) returns (o: Outcome)
      requires Valid()
      modifies this
      ensures Valid()
      ensures o.Fail? ==> IntegrityError(o.error)
      ensures o.Pass? <==> Distinct(KeysOf(rows, ArtistId)) && forall r | r in rows :: r.id !in old(artists)
      ensures o.Pass? ==> artists == old(artists) + Keyed(rows, ArtistId)
      ensures o.Fail? ==> artists == old(artists)
      ensures playlists == old(playlists) && tracks == old(tracks)
      ensures playlistTracks == old(playlistTracks) && trackArtists == old(trackArtists)
    {
      if !Distinct(KeysOf(rows, ArtistId)) || exists r | r in rows :: r.id in artists {
        return Fail(DuplicateKey);
      }
      artists := artists + Keyed(rows, ArtistId);
      return Pass;
    }

    /** `insert_or_update_playlist`: INSERT ... ON CONFLICT (id) DO UPDATE of
        the four non-key columns; a NULL id is rejected. */
    method InsertOrUpdatePlaylist(d: PlaylistData) returns (o: Outcome)
      requires Valid()
      modifies this
      ensures Valid()
      ensures o.Pass? <==> d.id.Some?
      ensures o.Pass? ==> playlists == old(playlists)[d.id.value := PlaylistRowOf(d)]
      ensures o.Fail? ==> o.error == NullKey && playlists == old(playlists)
      ensures tracks == old(tracks) && artists == old(artists)
      ensures playlistTracks == old(playlistTracks) && trackArtists == old(trackArtists)
    {
      if d.id.None? {
        return Fail(NullKey);
      }
      playlists := playlists[d.id.value := PlaylistRowOf(d)];
      return Pass;
    }

    /** The attribution rows the artist query joins for a playlist: a stored
        (track, artist) pair whose track is a member of the playlist. */
    function Attributions(pid: string): set<(string, string)>
      reads this
    {
      set p | p in trackArtists && (pid, p.0) in playlistTracks && p.0 in tracks && p.1 in artists
    }

    /** The distinct (name, genres, thumbnail, popularity) groups of the query. */
    function Groups(pid: string): set<ArtistProfile>
      reads this
    {
      set p | p in Attributions(pid) :: ProfileOf(artists[p.1])
    }

    /** `COUNT(tracks.id)` of one group: the attribution rows in it. */
    function GroupCount(pid: string, g: ArtistProfile): nat
      reads this
    {
      |set p | p in Attributions(pid) && ProfileOf(artists[p.1]) == g|
    }

    /** Every attribution row of a member track is joined: under the foreign
        keys the two inner joins with `tracks` and `artists` drop none. */
    lemma AttributionsOfMembers(pid: string)
      requires Valid()
      ensures forall p :: p in Attributions(pid) <==> p in trackArtists && p.0 in PlaylistTrackIds(pid)
    {
    }

    /** Under the foreign keys every member of a playlist is a stored track, so
        looking its members up among the stored tracks finds all of them, and a
        playlist is only a member owner when it is stored. */
    lemma MembersAreStored(pid: string, ids: seq<string>)
      requires Valid()
      requires forall t :: t in ids <==> t in PlaylistTrackIds(pid)
      ensures ExistingTrackIds(ids) == PlaylistTrackIds(pid)
      ensures PlaylistTrackIds(pid) != {} ==> pid in playlists
    {
      if PlaylistTrackIds(pid) != {} {
        var t :| t in PlaylistTrackIds(pid);
        assert (pid, t) in playlistTracks;
      }
    }

    /** Whether `get_playlist_length`'s `SUM(duration_ms)` is non-null: some
        member track is stored with a duration. With no such track the sum
        is NULL and `float(None)` raises. */
    predicate LengthDefined(pid: string)
      reads this
    {
      exists m | m in playlistTracks :: m.0 == pid && m.1 in tracks && tracks[m.1].durationMs.Some?
    }

    /** What `get_playlist_artists` may answer: every group once, with its
        count, ordered by count descending. */
    ghost predicate ArtistAnswer(pid: string, rows: seq<ArtistGroup>)
      reads this
    {
      (forall g :: g in Groups(pid) <==> g in Profiles(rows)) &&
      Distinct(Profiles(rows)) &&
      (forall i | 0 <= i < |rows| :: rows[i].numTracks == GroupCount(pid, rows[i].profile)) &&
      SortedByCountDesc(rows)
    }

    /** `get_playlist_artists`: one row per group with its count, ordered by
        count descending (ties in no particular order). */
    method GetPlaylistArtists(pid: string) returns (rows: seq<ArtistGroup>)
      ensures forall g :: g in Groups(pid) <==> g in Profiles(rows)
      ensures Distinct(Profiles(rows))
      ensures forall i | 0 <= i < |rows| :: rows[i].numTracks == GroupCount(pid, rows[i].profile)
      ensures SortedByCountDesc(rows)
    {
      var counts := map g | g in Groups(pid) :: GroupCount(pid, g);
      rows := OrderByCountDesc(counts);
    }
  }

  /** `GROUP BY ... ORDER BY num_tracks DESC` over precomputed group counts:
      every group once, with its count, largest count first. */
  method OrderByCountDesc(counts: map<ArtistProfile, nat>) returns (rows: seq<ArtistGroup>)
    ensures forall g :: g in counts <==> g in Profiles(rows)
    ensures Distinct(Profiles(rows))
    ensures forall i | 0 <= i < |rows| :: rows[i].profile in counts && rows[i].numTracks == counts[rows[i].profile]
    ensures SortedByCountDesc(rows)
  {
    var remaining := counts.Keys;
    rows := [];
    while remaining != {}
      invariant remaining <= counts.Keys && Selected(counts, rows, remaining)
      decreases |remaining|
    {
      MaxKeyExists(counts, remaining);
      var g :| g in remaining && forall h | h in remaining :: counts[h] <= counts[g];
      SelectStep(counts, rows, remaining, g);
      rows := rows + [ArtistGroup(g, counts[g])];
      remaining := remaining - {g};
    }
  }

  /** The state of the selection loop: `rows` lists the groups taken so far,
      each once with its count and largest first, and every group still
      `remaining` counts no more than any taken one. */
  ghost predicate Selected(counts: map<ArtistProfile, nat>, rows: seq<ArtistGroup>, remaining: set<ArtistProfile>) {
    (forall g :: g in counts <==> g in Profiles(rows) || g in remaining) &&
    (forall i | 0 <= i < |rows| :: rows[i].profile !in remaining) &&
    (forall i | 0 <= i < |rows| :: rows[i].profile in counts && rows[i].numTracks == counts[rows[i].profile]) &&
    Distinct(Profiles(rows)) &&
    SortedByCountDesc(rows) &&
    (forall i, g | 0 <= i < |rows| && g in remaining :: counts[g] <= rows[i].numTracks)
  }

  /** Taking a remaining group of the largest count keeps the loop state. */
  lemma SelectStep(counts: map<ArtistProfile, nat>, rows: seq<ArtistGroup>, remaining: set<ArtistProfile>,
                   g: ArtistProfile)
    requires remaining <= counts.Keys && Selected(counts, rows, remaining)
    requires g in remaining && forall h | h in remaining :: counts[h] <= counts[g]
    ensures Selected(counts, rows + [ArtistGroup(g, counts[g])], remaining - {g})
  {
    var next := rows + [ArtistGroup(g, counts[g])];
    assert Profiles(next) == Profiles(rows) + [g];
    assert g !in Profiles(rows);
    DistinctSnoc(Profiles(rows), g);
    assert forall i | 0 <= i < |rows| :: next[i] == rows[i];
  }
}
