/** The Postgres store of the earlier backend as in-memory tables: six tables,
    upserts (`ON CONFLICT (id) DO UPDATE`) for the three entity tables,
    insert-or-ignore (`ON CONFLICT DO NOTHING`) for the three join tables, and
    the `SELECT *` reads. Every statement commits on its own; a failed one
    changes nothing. */
module BackendModels {
  import opened Common
  import opened Seqs
  import opened Catalog

  /** Row of the backend `artists` table (it has no genres column). */
  datatype ArtistRow = ArtistRow(
    id: string, name: Option<string>, thumbnail: Option<string>, popularity: Option<int>)

  class Store {
    var playlists: map<string, PlaylistRow>
    var tracks: map<string, TrackRow>
    var artists: map<string, ArtistRow>
    var artistsTracks: set<(string, string)>    // (artist_id, track_id)
    var playlistsTracks: set<(string, string)>  // (playlist_id, track_id)
    var artistsGenres: set<(string, string)>    // (artist_id, genre)

    /** Every entity row sits under its own id, and the join tables' foreign
        keys hold. */
    ghost predicate Valid()
      reads this
    {
      (forall k | k in tracks :: tracks[k].id == k) &&
      (forall k | k in artists :: artists[k].id == k) &&
      (forall l | l in artistsTracks :: l.0 in artists && l.1 in tracks) &&
      (forall m | m in playlistsTracks :: m.0 in playlists && m.1 in tracks) &&
      (forall g | g in artistsGenres :: g.0 in artists)
    }

    /** A freshly created schema. */
    constructor ()
      ensures Valid()
      ensures playlists == map[] && tracks == map[] && artists == map[]
      ensures artistsTracks == {} && playlistsTracks == {} && artistsGenres == {}
    {
      playlists, tracks, artists := map[], map[], map[];
      artistsTracks, playlistsTracks, artistsGenres := {}, {}, {};
    }

    /** `create_tables`: every statement is CREATE TABLE IF NOT EXISTS, so on
        an existing schema no row changes. */
    method CreateTables()
      requires Valid()
      ensures Valid()
      ensures unchanged(this)
    {
    }

    /** `insert_or_update_artist`: insert the row, or overwrite name,
        thumbnail and popularity of the stored row with that id; no other row
        changes. */
    method InsertOrUpdateArtist(a: ArtistRow)
      requires Valid()
      modifies this
      ensures Valid()
      ensures artists == old(artists)[a.id := a]
      ensures forall k | k in old(artists) && k != a.id :: artists[k] == old(artists)[k]
      ensures playlists == old(playlists) && tracks == old(tracks)
      ensures artistsTracks == old(artistsTracks) && playlistsTracks == old(playlistsTracks)
      ensures artistsGenres == old(artistsGenres)
    {
      artists := artists[a.id := a];
    }

    /** `insert_or_update_track`: insert the row, or overwrite all fifteen
        non-key columns of the stored row with that id; no other row changes. */
    method InsertOrUpdateTrack(t: TrackRow)
      requires Valid()
      modifies this
      ensures Valid()
      ensures tracks == old(tracks)[t.id := t]
      ensures forall k | k in old(tracks) && k != t.id :: tracks[k] == old(tracks)[k]
      ensures playlists == old(playlists) && artists == old(artists)
      ensures artistsTracks == old(artistsTracks) && playlistsTracks == old(playlistsTracks)
      ensures artistsGenres == old(artistsGenres)
    {
      tracks := tracks[t.id := t];
    }

    /** `insert_or_update_playlist`: insert the row, or overwrite name,
        description, thumbnail and followers count of the stored row; a NULL id
        violates the primary key. */
    method InsertOrUpdatePlaylist(d: PlaylistData) returns (o: Outcome)
      requires Valid()
      modifies this
      ensures Valid()
      ensures o.Pass? <==> d.id.Some?
      ensures o.Fail? ==> o.error == NullKey && playlists == old(playlists)
      ensures o.Pass? ==> playlists == old(playlists)[d.id.value := PlaylistRowOf(d)]
      ensures tracks == old(tracks) && artists == old(artists)
      ensures artistsTracks == old(artistsTracks) && playlistsTracks == old(playlistsTracks)
      ensures artistsGenres == old(artistsGenres)
    {
      if d.id.None? {
        return Fail(NullKey);
      }
      playlists := playlists[d.id.value := PlaylistRowOf(d)];
      o := Pass;
    }

    /** `insert_artist_track`: add the link unless it is stored already; a
        link to an artist or a track that is not stored violates a foreign key,
        which `DO NOTHING` does not suppress. */
    method InsertArtistTrack(aid: string, tid: string) returns (o: Outcome)
      requires Valid()
      modifies this
      ensures Valid()
      ensures o.Pass? <==> aid in old(artists) && tid in old(tracks)
      ensures o.Fail? ==> o.error == ForeignKeyViolation
      ensures o.Pass? ==> artistsTracks == old(artistsTracks) + {(aid, tid)}
      ensures o.Fail? || (aid, tid) in old(artistsTracks) ==> artistsTracks == old(artistsTracks)
      ensures playlists == old(playlists) && tracks == old(tracks) && artists == old(artists)
      ensures playlistsTracks == old(playlistsTracks) && artistsGenres == old(artistsGenres)
    {
      if aid !in artists || tid !in tracks {
        return Fail(ForeignKeyViolation);
      }
      artistsTracks := artistsTracks + {(aid, tid)};
      o := Pass;
    }

    /** `insert_playlist_track`: add the membership unless it is stored
        already; a missing playlist or track violates a foreign key. */
    method InsertPlaylistTrack(pid: string, tid: string) returns (o: Outcome)
      requires Valid()
      modifies this
      ensures Valid()
      ensures o.Pass? <==> pid in old(playlists) && tid in old(tracks)
      ensures o.Fail? ==> o.error == ForeignKeyViolation
      ensures o.Pass? ==> playlistsTracks == old(playlistsTracks) + {(pid, tid)}
      ensures o.Fail? || (pid, tid) in old(playlistsTracks) ==> playlistsTracks == old(playlistsTracks)
      ensures playlists == old(playlists) && tracks == old(tracks) && artists == old(artists)
      ensures artistsTracks == old(artistsTracks) && artistsGenres == old(artistsGenres)
    {
      if pid !in playlists || tid !in tracks {
        return Fail(ForeignKeyViolation);
      }
      playlistsTracks := playlistsTracks + {(pid, tid)};
      o := Pass;
    }

    /** `insert_artist_genre`: add the genre row unless it is stored already;
        a missing artist violates the foreign key. */
    method InsertArtistGenre(aid: string, genre: string) returns (o: Outcome)
      requires Valid()
      modifies this
      ensures Valid()
      ensures o.Pass? <==> aid in old(artists)
      ensures o.Fail? ==> o.error == ForeignKeyViolation
      ensures o.Pass? ==> artistsGenres == old(artistsGenres) + {(aid, genre)}
      ensures o.Fail? || (aid, genre) in old(artistsGenres) ==> artistsGenres == old(artistsGenres)
      ensures playlists == old(playlists) && tracks == old(tracks) && artists == old(artists)
      ensures artistsTracks == old(artistsTracks) && playlistsTracks == old(playlistsTracks)
    {
      if aid !in artists {
        return Fail(ForeignKeyViolation);
      }
      artistsGenres := artistsGenres + {(aid, genre)};
      o := Pass;
    }

    /** `get_all_playlists`: every stored playlist once, with its id, in some
        order. */
    method GetAllPlaylists() returns (rows: seq<(string, PlaylistRow)>)
      ensures |rows| == |playlists|
      ensures forall i | 0 <= i < |rows| :: rows[i].0 in playlists && playlists[rows[i].0] == rows[i].1
      ensures forall k | k in playlists :: (k, playlists[k]) in rows
      ensures forall i, j | 0 <= i < j < |rows| :: rows[i].0 != rows[j].0
    {
      var table := playlists;
      var ids := ListOfSet(table.Keys);
      rows := seq(|ids|, i requires 0 <= i < |ids| => (ids[i], table[ids[i]]));
      forall k | k in playlists ensures (k, playlists[k]) in rows {
        var i :| 0 <= i < |ids| && ids[i] == k;
        assert rows[i] == (k, playlists[k]);
      }
    }

    /** `get_all_tracks`: every stored track row once, in some order. */
    method GetAllTracks() returns (rows: seq<TrackRow>)
      requires Valid()
      ensures |rows| == |tracks|
      ensures forall i | 0 <= i < |rows| :: rows[i].id in tracks && tracks[rows[i].id] == rows[i]
      ensures forall k | k in tracks :: tracks[k] in rows
      ensures Distinct(RowIds(rows))
    {
      var table := tracks;
      var ids := ListOfSet(table.Keys);
      rows := seq(|ids|, i requires 0 <= i < |ids| => table[ids[i]]);
      assert RowIds(rows) == ids;
      forall k | k in tracks ensures tracks[k] in rows {
        var i :| 0 <= i < |ids| && ids[i] == k;
        assert rows[i] == tracks[k];
      }
    }

    /** `get_all_artists`: every stored artist row once, in some order. */
    method GetAllArtists() returns (rows: seq<ArtistRow>)
      requires Valid()
      ensures |rows| == |artists|
      ensures forall i | 0 <= i < |rows| :: rows[i].id in artists && artists[rows[i].id] == rows[i]
      ensures forall k | k in artists :: artists[k] in rows
      ensures forall i, j | 0 <= i < j < |rows| :: rows[i].id != rows[j].id
    {
      var table := artists;
      var ids := ListOfSet(table.Keys);
      rows := seq(|ids|, i requires 0 <= i < |ids| => table[ids[i]]);
      forall k | k in artists ensures artists[k] in rows {
        var i :| 0 <= i < |ids| && ids[i] == k;
        assert rows[i] == artists[k];
      }
    }
  }
}
