/** Why the script inserts its rows in an order the database accepts: every
    foreign key the table definitions declare refers to a row that an earlier
    INSERT statement of the same script has already written. */
module ScriptFacts {
  import opened Cells
  import opened TableOps
  import opened Normalizer
  import opened NormalizerFacts
  import opened Emitter

  /** The INSERT statements of one section, each as (table, values). */
  function Tagged(s: Section): (r: seq<(string, seq<Cell>)>)
    ensures |r| == |s.frame.rows|
    ensures forall i :: 0 <= i < |r| ==> r[i] == (s.table, s.frame.rows[i])
  {
    seq(|s.frame.rows|, i requires 0 <= i < |s.frame.rows| => (s.table, s.frame.rows[i]))
  }

  /** The INSERT statements of the script, in the order the script writes
      them, each as (table, values). */
  function EmittedRows(ss: seq<Section>): seq<(string, seq<Cell>)> {
    if ss == [] then [] else EmittedRows(ss[..|ss| - 1]) + Tagged(ss[|ss| - 1])
  }

  /** The writes of a section are its header and then, one for one, the
      INSERT line of each of its tagged statements. */
  lemma SectionWritesTagged(s: Section)
    ensures |SectionWrites(s)| == 1 + |Tagged(s)| && SectionWrites(s)[0] == s.header
    ensures forall i :: 0 <= i < |Tagged(s)| ==>
      SectionWrites(s)[i + 1] == InsertStatement(Tagged(s)[i].0, s.frame.columns, Tagged(s)[i].1)
  {
  }

  /** The script's insert writes are one header per section plus one line per
      tagged statement. */
  lemma {:induction false} SectionsWritesCount(ss: seq<Section>)
    ensures |SectionsWrites(ss)| == |ss| + |EmittedRows(ss)|
  {
    if ss != [] {
      SectionsWritesCount(ss[..|ss| - 1]);
      SectionWritesTagged(ss[|ss| - 1]);
    }
  }

  /** Every `child` statement's value in column `col` was written earlier by a
      `parent` statement, in that statement's column `pcol`. */
  ghost predicate ReferencesPrecede(e: seq<(string, seq<Cell>)>, child: string, col: nat, parent: string, pcol: nat) {
    forall i :: 0 <= i < |e| && e[i].0 == child && col < |e[i].1| ==>
      exists j :: 0 <= j < i && e[j].0 == parent && pcol < |e[j].1| && e[j].1[pcol] == e[i].1[col]
  }

  /** Each row of `child` with a column `col` finds a row of `parent` holding
      the same value in its column `pcol`. */
  ghost predicate RowsResolved(child: seq<seq<Cell>>, col: nat, parent: seq<seq<Cell>>, pcol: nat) {
    forall row :: row in child && col < |row| ==>
      exists prow :: prow in parent && pcol < |prow| && prow[pcol] == row[col]
  }

  /** Appending statements keeps references resolved when each appended
      `child` statement finds its parent among the statements before them. */
  lemma AppendResolved(a: seq<(string, seq<Cell>)>, b: seq<(string, seq<Cell>)>,
                       child: string, col: nat, parent: string, pcol: nat)
    requires ReferencesPrecede(a, child, col, parent, pcol)
    requires forall k :: 0 <= k < |b| && b[k].0 == child && col < |b[k].1| ==>
      exists pr :: (parent, pr) in a && pcol < |pr| && pr[pcol] == b[k].1[col]
    ensures ReferencesPrecede(a + b, child, col, parent, pcol)
  {
    var e := a + b;
    forall i | 0 <= i < |e| && e[i].0 == child && col < |e[i].1|
      ensures exists j :: 0 <= j < i && e[j].0 == parent && pcol < |e[j].1| && e[j].1[pcol] == e[i].1[col]
    {
      if i < |a| {
        assert e[i] == a[i];
        var j :| 0 <= j < i && a[j].0 == parent && pcol < |a[j].1| && a[j].1[pcol] == a[i].1[col];
        assert e[j] == a[j];
      } else {
        var k := i - |a|;
        assert e[i] == b[k];
        var pr :| (parent, pr) in a && pcol < |pr| && pr[pcol] == b[k].1[col];
        var j :| 0 <= j < |a| && a[j] == (parent, pr);
        assert e[j] == a[j];
      }
    }
  }

  lemma EmittedSnoc(ss: seq<Section>, k: nat)
    requires k < |ss|
    ensures EmittedRows(ss[..k + 1]) == EmittedRows(ss[..k]) + Tagged(ss[k])
  {
    assert ss[..k + 1][..k] == ss[..k];
  }

  /** Every statement of section `p` is among the statements of the first `n`
      sections once `p < n`. */
  lemma {:induction false} SectionEmitted(ss: seq<Section>, n: nat, p: nat, m: nat)
    requires p < n <= |ss| && m < |ss[p].frame.rows|
    ensures (ss[p].table, ss[p].frame.rows[m]) in EmittedRows(ss[..n])
    decreases n
  {
    EmittedSnoc(ss, n - 1);
    if p == n - 1 {
      assert Tagged(ss[p])[m] == (ss[p].table, ss[p].frame.rows[m]);
    } else {
      SectionEmitted(ss, n - 1, p, m);
    }
  }

  /** A foreign key from section `c` (column `col`) to section `p` (column
      `pcol`) is resolved by the script when `p` comes first, no other section
      writes `c`'s table, and every value of `c` appears in `p`. */
  lemma {:induction false} ForeignKeyResolved(ss: seq<Section>, n: nat, p: nat, c: nat, col: nat, pcol: nat)
    requires p < c < |ss| && n <= |ss|
    requires forall k :: 0 <= k < |ss| && k != c ==> ss[k].table != ss[c].table
    requires RowsResolved(ss[c].frame.rows, col, ss[p].frame.rows, pcol)
    ensures ReferencesPrecede(EmittedRows(ss[..n]), ss[c].table, col, ss[p].table, pcol)
    decreases n
  {
    if n == 0 {
      assert ss[..0] == [];
    } else {
      var a := EmittedRows(ss[..n - 1]);
      var b := Tagged(ss[n - 1]);
      ForeignKeyResolved(ss, n - 1, p, c, col, pcol);
      EmittedSnoc(ss, n - 1);
      forall k | 0 <= k < |b| && b[k].0 == ss[c].table && col < |b[k].1|
        ensures exists pr :: (ss[p].table, pr) in a && pcol < |pr| && pr[pcol] == b[k].1[col]
      {
        assert n - 1 == c;
        var row := ss[c].frame.rows[k];
        assert row in ss[c].frame.rows;
        var prow :| prow in ss[p].frame.rows && pcol < |prow| && prow[pcol] == row[col];
        var m :| 0 <= m < |ss[p].frame.rows| && ss[p].frame.rows[m] == prow;
        SectionEmitted(ss, n - 1, p, m);
      }
      AppendResolved(a, b, ss[c].table, col, ss[p].table, pcol);
    }
  }

  // ---------------------------------------------------------------------------
  // The five foreign keys of the table definitions

  /** Every foreign-key value of the six tables names a row of the table it
      refers to: AlbumArtists to Albums and Artists, Tracks to Albums,
      TrackArtists to Tracks and Artists. */
  ghost predicate ReferentialIntegrity(t: Tables) {
    (forall p :: p in t.albumArtists ==> exists al :: al in t.albums && al.albumId == p.albumId) &&
    (forall p :: p in t.albumArtists ==> exists a :: a in t.artists && a.artistId == p.artistId) &&
    (forall tr :: tr in t.tracks ==> exists al :: al in t.albums && al.albumId == tr.albumId) &&
    (forall p :: p in t.trackArtists ==> exists tr :: tr in t.tracks && tr.trackId == p.trackId) &&
    (forall p :: p in t.trackArtists ==> exists a :: a in t.artists && a.artistId == p.artistId)
  }

  lemma AlbumArtistsKeys(clean: seq<SourceRow>)
    ensures var albums, artists := AlbumsTable(clean), ArtistsTable(clean);
      forall p :: p in AlbumArtistsTable(clean, artists, albums) ==>
        (exists al :: al in albums && al.albumId == p.albumId) &&
        (exists a :: a in artists && a.artistId == p.artistId)
  {
    var albums, artists := AlbumsTable(clean), ArtistsTable(clean);
    AlbumArtistsComeFromRows(clean);
    forall p | p in AlbumArtistsTable(clean, artists, albums)
      ensures (exists al :: al in albums && al.albumId == p.albumId) &&
              (exists a :: a in artists && a.artistId == p.artistId)
    {
      var q :| q in Explode(clean, ArtistNames) &&
        Album(p.albumId, q.0.albumName) in albums && Artist(p.artistId, q.1) in artists;
      assert Album(p.albumId, q.0.albumName).albumId == p.albumId;
      assert Artist(p.artistId, q.1).artistId == p.artistId;
    }
  }

  lemma TracksKeys(clean: seq<SourceRow>)
    ensures var albums := AlbumsTable(clean);
      forall tr :: tr in TracksTable(clean, albums) ==> exists al :: al in albums && al.albumId == tr.albumId
  {
    var albums := AlbumsTable(clean);
    TracksComeFromRows(clean);
    forall tr | tr in TracksTable(clean, albums)
      ensures exists al :: al in albums && al.albumId == tr.albumId
    {
      var r :| r in clean && Album(tr.albumId, r.albumName) in albums &&
        tr == Track(r.trackId, r.trackName, tr.albumId, r.popularity, r.durationMs, r.explicit);
      assert Album(tr.albumId, r.albumName).albumId == tr.albumId;
    }
  }

  lemma TrackArtistsKeys(clean: seq<SourceRow>)
    ensures var artists := ArtistsTable(clean);
      forall p :: p in TrackArtistsTable(clean, artists) ==> exists a :: a in artists && a.artistId == p.artistId
  {
    var artists := ArtistsTable(clean);
    TrackArtistsComeFromRows(clean);
    forall p | p in TrackArtistsTable(clean, artists)
      ensures exists a :: a in artists && a.artistId == p.artistId
    {
      var q :| q in Explode(clean, ArtistNames) && p.trackId == q.0.trackId && Artist(p.artistId, q.1) in artists;
      assert Artist(p.artistId, q.1).artistId == p.artistId;
    }
  }

  /** The normalizer's tables satisfy every foreign key the table definitions
      declare. */
  lemma NormalizeKeepsReferences(rows: seq<SourceRow>)
    ensures ReferentialIntegrity(Normalize(rows))
  {
    var t := Normalize(rows);
    var clean := Clean(rows);
    var artists, albums := ArtistsTable(clean), AlbumsTable(clean);
    assert t == Tables(artists, albums, AlbumArtistsTable(clean, artists, albums),
                       TracksTable(clean, albums), TrackArtistsTable(clean, artists),
                       AudioFeaturesTable(clean));
    AlbumArtistsKeys(clean);
    TracksKeys(clean);
    TrackArtistsKeys(clean);
    TrackArtistsReferToTracks(rows);
    forall p | p in t.trackArtists
      ensures exists tr :: tr in t.tracks && tr.trackId == p.trackId
    {
      assert p.trackId in KeySet(t.tracks, TrackIdOf);
      var tr :| tr in t.tracks && TrackIdOf(tr) == p.trackId;
    }
  }

  // ---------------------------------------------------------------------------
  // The order of the insert sections

  /** The six sections of the script, with their tables: Artists, Albums,
      AlbumArtists, Tracks, TrackArtists, AudioFeatures, each table once. */
  ghost predicate ScriptOrder(ss: seq<Section>, t: Tables) {
    |ss| == 6 &&
    ss[0].table == "Artists" && ss[0].frame == ArtistsFrame(t.artists) &&
    ss[1].table == "Albums" && ss[1].frame == AlbumsFrame(t.albums) &&
    ss[2].table == "AlbumArtists" && ss[2].frame == AlbumArtistsFrame(t.albumArtists) &&
    ss[3].table == "Tracks" && ss[3].frame == TracksFrame(t.tracks) &&
    ss[4].table == "TrackArtists" && ss[4].frame == TrackArtistsFrame(t.trackArtists) &&
    ss[5].table == "AudioFeatures" && ss[5].frame == AudioFeaturesFrame(t.audioFeatures) &&
    forall i, j :: 0 <= i < j < |ss| ==> ss[i].table != ss[j].table
  }

  lemma SectionsInOrder(t: Tables)
    ensures ScriptOrder(Sections(t), t)
  {
    var ss := Sections(t);
    forall i, j | 0 <= i < j < |ss|
      ensures ss[i].table != ss[j].table
    {
    }
  }

  /** Column `col` of each row of `values` holds the id of an album, so the
      Albums statements carry it in their column 0. */
  lemma RefersToAlbums(values: seq<seq<Cell>>, col: nat, albums: seq<Album>)
    requires forall row :: row in values ==> col < |row| && exists al :: al in albums && row[col] == Str(al.albumId)
    ensures RowsResolved(values, col, AlbumsFrame(albums).rows, 0)
  {
    forall row | row in values && col < |row|
      ensures exists prow :: prow in AlbumsFrame(albums).rows && 0 < |prow| && prow[0] == row[col]
    {
      var al :| al in albums && row[col] == Str(al.albumId);
      var m :| 0 <= m < |albums| && albums[m] == al;
      assert AlbumsFrame(albums).rows[m] == [Str(al.albumId), al.albumName];
      assert AlbumsFrame(albums).rows[m] in AlbumsFrame(albums).rows;
    }
  }

  /** Column `col` of each row of `values` holds the id of an artist, so the
      Artists statements carry it in their column 0. */
  lemma RefersToArtists(values: seq<seq<Cell>>, col: nat, artists: seq<Artist>)
    requires forall row :: row in values ==> col < |row| && exists a :: a in artists && row[col] == Str(a.artistId)
    ensures RowsResolved(values, col, ArtistsFrame(artists).rows, 0)
  {
    forall row | row in values && col < |row|
      ensures exists prow :: prow in ArtistsFrame(artists).rows && 0 < |prow| && prow[0] == row[col]
    {
      var a :| a in artists && row[col] == Str(a.artistId);
      var m :| 0 <= m < |artists| && artists[m] == a;
      assert ArtistsFrame(artists).rows[m] == [Str(a.artistId), a.artistName];
      assert ArtistsFrame(artists).rows[m] in ArtistsFrame(artists).rows;
    }
  }

  /** Column `col` of each row of `values` holds the id of a track, so the
      Tracks statements carry it in their column 0. */
  lemma RefersToTracks(values: seq<seq<Cell>>, col: nat, tracks: seq<Track>)
    requires forall row :: row in values ==> col < |row| && exists tr :: tr in tracks && row[col] == tr.trackId
    ensures RowsResolved(values, col, TracksFrame(tracks).rows, 0)
  {
    forall row | row in values && col < |row|
      ensures exists prow :: prow in TracksFrame(tracks).rows && 0 < |prow| && prow[0] == row[col]
    {
      var tr :| tr in tracks && row[col] == tr.trackId;
      var m :| 0 <= m < |tracks| && tracks[m] == tr;
      assert TracksFrame(tracks).rows[m] == TrackValues(tr);
      assert TracksFrame(tracks).rows[m] in TracksFrame(tracks).rows;
    }
  }

  /** The AlbumArtists statements carry an album id and an artist id. */
  lemma AlbumArtistsRows(links: seq<AlbumArtist>, albums: seq<Album>, artists: seq<Artist>)
    requires forall p :: p in links ==> exists al :: al in albums && al.albumId == p.albumId
    requires forall p :: p in links ==> exists a :: a in artists && a.artistId == p.artistId
    ensures RowsResolved(AlbumArtistsFrame(links).rows, 0, AlbumsFrame(albums).rows, 0)
    ensures RowsResolved(AlbumArtistsFrame(links).rows, 1, ArtistsFrame(artists).rows, 0)
  {
    var f := AlbumArtistsFrame(links);
    forall row | row in f.rows
      ensures 1 < |row| && (exists al :: al in albums && row[0] == Str(al.albumId)) &&
              (exists a :: a in artists && row[1] == Str(a.artistId))
    {
      var k :| 0 <= k < |f.rows| && f.rows[k] == row;
      assert links[k] in links;
    }
    RefersToAlbums(f.rows, 0, albums);
    RefersToArtists(f.rows, 1, artists);
  }

  /** The Tracks statements carry an album id in column 2. */
  lemma TracksRows(tracks: seq<Track>, albums: seq<Album>)
    requires forall tr :: tr in tracks ==> exists al :: al in albums && al.albumId == tr.albumId
    ensures RowsResolved(TracksFrame(tracks).rows, 2, AlbumsFrame(albums).rows, 0)
  {
    var f := TracksFrame(tracks);
    forall row | row in f.rows
      ensures 2 < |row| && exists al :: al in albums && row[2] == Str(al.albumId)
    {
      var k :| 0 <= k < |f.rows| && f.rows[k] == row;
      assert tracks[k] in tracks;
    }
    RefersToAlbums(f.rows, 2, albums);
  }

  /** The TrackArtists statements carry a track id and an artist id. */
  lemma TrackArtistsRows(links: seq<TrackArtist>, tracks: seq<Track>, artists: seq<Artist>)
    requires forall p :: p in links ==> exists tr :: tr in tracks && tr.trackId == p.trackId
    requires forall p :: p in links ==> exists a :: a in artists && a.artistId == p.artistId
    ensures RowsResolved(TrackArtistsFrame(links).rows, 0, TracksFrame(tracks).rows, 0)
    ensures RowsResolved(TrackArtistsFrame(links).rows, 1, ArtistsFrame(artists).rows, 0)
  {
    var f := TrackArtistsFrame(links);
    forall row | row in f.rows
      ensures 1 < |row| && (exists tr :: tr in tracks && row[0] == tr.trackId) &&
              (exists a :: a in artists && row[1] == Str(a.artistId))
    {
      var k :| 0 <= k < |f.rows| && f.rows[k] == row;
      assert links[k] in links;
    }
    RefersToTracks(f.rows, 0, tracks);
    RefersToArtists(f.rows, 1, artists);
  }

  /** With every foreign-key value present in its parent table, the rows of
      the script satisfy all five foreign keys as they are inserted. */
  lemma ScriptResolves(ss: seq<Section>, t: Tables)
    requires ScriptOrder(ss, t)
    requires RowsResolved(AlbumArtistsFrame(t.albumArtists).rows, 0, AlbumsFrame(t.albums).rows, 0)
    requires RowsResolved(AlbumArtistsFrame(t.albumArtists).rows, 1, ArtistsFrame(t.artists).rows, 0)
    requires RowsResolved(TracksFrame(t.tracks).rows, 2, AlbumsFrame(t.albums).rows, 0)
    requires RowsResolved(TrackArtistsFrame(t.trackArtists).rows, 0, TracksFrame(t.tracks).rows, 0)
    requires RowsResolved(TrackArtistsFrame(t.trackArtists).rows, 1, ArtistsFrame(t.artists).rows, 0)
    ensures var e := EmittedRows(ss);
      ReferencesPrecede(e, "AlbumArtists", 0, "Albums", 0) &&
      ReferencesPrecede(e, "AlbumArtists", 1, "Artists", 0) &&
      ReferencesPrecede(e, "Tracks", 2, "Albums", 0) &&
      ReferencesPrecede(e, "TrackArtists", 0, "Tracks", 0) &&
      ReferencesPrecede(e, "TrackArtists", 1, "Artists", 0)
  {
    assert ss[..6] == ss;
    ForeignKeyResolved(ss, 6, 1, 2, 0, 0);
    ForeignKeyResolved(ss, 6, 0, 2, 1, 0);
    ForeignKeyResolved(ss, 6, 1, 3, 2, 0);
    ForeignKeyResolved(ss, 6, 3, 4, 0, 0);
    ForeignKeyResolved(ss, 6, 0, 4, 1, 0);
  }

  /** The script writes Artists, Albums, AlbumArtists, Tracks, TrackArtists and
      AudioFeatures in that order, so each foreign key declared by the table
      definitions refers to a row an earlier statement has already inserted. */
  lemma ForeignKeysInsertedFirst(rows: seq<SourceRow>)
    ensures var e := EmittedRows(Sections(Normalize(rows)));
      ReferencesPrecede(e, "AlbumArtists", 0, "Albums", 0) &&
      ReferencesPrecede(e, "AlbumArtists", 1, "Artists", 0) &&
      ReferencesPrecede(e, "Tracks", 2, "Albums", 0) &&
      ReferencesPrecede(e, "TrackArtists", 0, "Tracks", 0) &&
      ReferencesPrecede(e, "TrackArtists", 1, "Artists", 0)
  {
    var t := Normalize(rows);
    NormalizeKeepsReferences(rows);
    AlbumArtistsRows(t.albumArtists, t.albums, t.artists);
    TracksRows(t.tracks, t.albums);
    TrackArtistsRows(t.trackArtists, t.tracks, t.artists);
    SectionsInOrder(t);
    ScriptResolves(Sections(t), t);
  }
}
