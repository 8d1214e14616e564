/** What the normalizer guarantees about the six tables it builds. */
module NormalizerFacts {
  import opened Cells
  import opened Decimal
  import opened TableOps
  import opened Normalizer

  // ---------------------------------------------------------------------------
  // Cleaning

  /** After cleaning, every row has its three required keys, the key triples
      are pairwise distinct, and the rows kept are exactly the first row of
      each triple among the non-null rows, in their original order. */
  lemma CleanKeepsFirstNonNull(rows: seq<SourceRow>)
    ensures forall r :: r in Clean(rows) ==> r in rows && HasRequiredKeys(r)
    ensures DistinctKeys(Clean(rows), TrackKey)
    ensures forall r :: r in rows && HasRequiredKeys(r) ==> TrackKey(r) in KeySet(Clean(rows), TrackKey)
    ensures var kept := Filter(rows, HasRequiredKeys);
      |Clean(rows)| == |FirstIndices(kept, TrackKey)| &&
      forall m :: 0 <= m < |Clean(rows)| ==> Clean(rows)[m] == kept[FirstIndices(kept, TrackKey)[m]]
  {
    var kept := Filter(rows, HasRequiredKeys);
    DedupKeepsFirstOccurrences(kept, TrackKey);
    forall r | r in rows && HasRequiredKeys(r)
      ensures TrackKey(r) in KeySet(Clean(rows), TrackKey)
    {
      assert r in kept;
      assert TrackKey(r) in KeySet(kept, TrackKey);
    }
  }

  /** Cleaning keeps, in input order, the first row of each key triple,
      except those whose triple has a null: the rows of `rows` themselves at
      the positions `FirstIndices(rows, TrackKey)`, filtered. */
  lemma CleanIsFirstOfEachKey(rows: seq<SourceRow>)
    ensures Clean(rows) == Filter(DedupKeepFirst(rows, TrackKey), HasRequiredKeys)
  {
    assert KeyDecides(HasRequiredKeys, TrackKey);
    DedupAfterFilter(rows, HasRequiredKeys, TrackKey);
  }

  /** The first row of a non-null key triple survives cleaning. */
  lemma FirstRowSurvives(rows: seq<SourceRow>, i: nat)
    requires i < |rows| && HasRequiredKeys(rows[i]) && IsFirst(rows, TrackKey, i)
    ensures rows[i] in Clean(rows)
  {
    var idx := FirstIndices(rows, TrackKey);
    DedupKeepsFirstOccurrences(rows, TrackKey);
    var m :| 0 <= m < |idx| && idx[m] == i;
    assert DedupKeepFirst(rows, TrackKey)[m] == rows[i];
    assert rows[i] in Filter(DedupKeepFirst(rows, TrackKey), HasRequiredKeys);
    CleanIsFirstOfEachKey(rows);
  }

  // ---------------------------------------------------------------------------
  // Artists

  /** Artist names are pairwise distinct, the artist at position i has id
      "ART" + zfill(str(i + 1), 6), and so the ids are pairwise distinct. */
  lemma ArtistsDistinctAndNumbered(clean: seq<SourceRow>)
    ensures DistinctKeys(ArtistsTable(clean), ArtistNameOf)
    ensures forall i :: 0 <= i < |ArtistsTable(clean)| ==>
      ArtistsTable(clean)[i].artistId == MakeId(ArtistPrefix, i + 1)
    ensures forall i, j :: 0 <= i < j < |ArtistsTable(clean)| ==>
      ArtistsTable(clean)[i].artistId != ArtistsTable(clean)[j].artistId
  {
    var names := DedupKeepFirst(ExplodedNames(clean), Whole);
    var artists := AssignArtistIds(names);
    forall i, j | 0 <= i < j < |artists|
      ensures artists[i].artistName != artists[j].artistName
      ensures artists[i].artistId != artists[j].artistId
    {
      assert Whole(names[i]) != Whole(names[j]);
      MakeIdInjective(ArtistPrefix, i + 1, j + 1);
    }
    assert artists == ArtistsTable(clean);
  }

  /** The artists, in order, are the first occurrence of each name in the
      exploded artist column: ids follow first-seen order. */
  lemma ArtistsInFirstSeenOrder(clean: seq<SourceRow>)
    ensures var names := ExplodedNames(clean);
      var idx := FirstIndices(names, Whole);
      |ArtistsTable(clean)| == |idx| &&
      forall m :: 0 <= m < |idx| ==>
        ArtistsTable(clean)[m] == Artist(MakeId(ArtistPrefix, m + 1), names[idx[m]])
  {
    DedupKeepsFirstOccurrences(ExplodedNames(clean), Whole);
  }

  /** Every name of the exploded artist column has an artist row. */
  lemma ArtistsCoverExplodedNames(clean: seq<SourceRow>)
    ensures forall q :: q in Explode(clean, ArtistNames) ==> q.1 in KeySet(ArtistsTable(clean), ArtistNameOf)
  {
    var pairs := Explode(clean, ArtistNames);
    var exploded := ExplodedNames(clean);
    var names := DedupKeepFirst(exploded, Whole);
    var artists := ArtistsTable(clean);
    DedupWholeMembers(exploded);
    forall q | q in pairs
      ensures q.1 in KeySet(artists, ArtistNameOf)
    {
      var k :| 0 <= k < |pairs| && pairs[k] == q;
      assert exploded[k] == q.1;
      assert q.1 in names;
      var i :| 0 <= i < |names| && names[i] == q.1;
      assert artists[i] in artists;
    }
  }

  /** Every artist row carries a name of the exploded artist column. */
  lemma ArtistsComeFromRows(clean: seq<SourceRow>)
    ensures forall a :: a in ArtistsTable(clean) ==> exists q :: q in Explode(clean, ArtistNames) && q.1 == a.artistName
  {
    var pairs := Explode(clean, ArtistNames);
    var exploded := ExplodedNames(clean);
    var names := DedupKeepFirst(exploded, Whole);
    var artists := ArtistsTable(clean);
    forall a | a in artists
      ensures exists q :: q in pairs && q.1 == a.artistName
    {
      var i :| 0 <= i < |artists| && artists[i] == a;
      assert names[i] in exploded;
      var k :| 0 <= k < |exploded| && exploded[k] == names[i];
      assert pairs[k] in pairs;
    }
  }

  /** A row whose artists cell is not a string (a null one in particular) is
      not dropped by cleaning when it is the first row of its non-null key
      triple; its null artist name then gets an Artists row and id. */
  lemma NullArtistGetsId(rows: seq<SourceRow>, i: nat)
    requires i < |rows| && HasRequiredKeys(rows[i]) && IsFirst(rows, TrackKey, i)
    requires !rows[i].artists.Str?
    ensures rows[i] in Clean(rows)
    ensures exists k :: 0 <= k < |ArtistsTable(Clean(rows))| && ArtistsTable(Clean(rows))[k].artistName == Null
  {
    var clean := Clean(rows);
    var r := rows[i];
    FirstRowSurvives(rows, i);
    assert ArtistNames(r) == [Null];
    assert (r, Null) in Explode(clean, ArtistNames);
    ArtistsCoverExplodedNames(clean);
    var a :| a in ArtistsTable(clean) && ArtistNameOf(a) == Null;
    var k :| 0 <= k < |ArtistsTable(clean)| && ArtistsTable(clean)[k] == a;
  }

  // ---------------------------------------------------------------------------
  // Albums

  /** Album names are pairwise distinct, the album at position i has id
      "ALB" + zfill(str(i + 1), 6), and so the ids are pairwise distinct. */
  lemma AlbumsDistinctAndNumbered(clean: seq<SourceRow>)
    ensures DistinctKeys(AlbumsTable(clean), AlbumTitle)
    ensures forall i :: 0 <= i < |AlbumsTable(clean)| ==>
      AlbumsTable(clean)[i].albumId == MakeId(AlbumPrefix, i + 1)
    ensures forall i, j :: 0 <= i < j < |AlbumsTable(clean)| ==>
      AlbumsTable(clean)[i].albumId != AlbumsTable(clean)[j].albumId
  {
    var names := DedupKeepFirst(Project(clean, AlbumNameOf), Whole);
    var albums := AlbumsTable(clean);
    forall i, j | 0 <= i < j < |albums|
      ensures albums[i].albumName != albums[j].albumName
      ensures albums[i].albumId != albums[j].albumId
    {
      assert Whole(names[i]) != Whole(names[j]);
      MakeIdInjective(AlbumPrefix, i + 1, j + 1);
    }
  }

  /** The albums, in order, are the first occurrence of each album name of the
      cleaned rows. */
  lemma AlbumsInFirstSeenOrder(clean: seq<SourceRow>)
    ensures var names := Project(clean, AlbumNameOf);
      var idx := FirstIndices(names, Whole);
      |AlbumsTable(clean)| == |idx| &&
      forall m :: 0 <= m < |idx| ==>
        AlbumsTable(clean)[m] == Album(MakeId(AlbumPrefix, m + 1), names[idx[m]])
  {
    DedupKeepsFirstOccurrences(Project(clean, AlbumNameOf), Whole);
  }

  /** The album names in Albums are exactly those of the cleaned rows. */
  lemma AlbumsMatchRows(clean: seq<SourceRow>)
    ensures KeySet(AlbumsTable(clean), AlbumTitle) == KeySet(clean, AlbumNameOf)
  {
    AlbumsOnlyFromRows(clean);
    AlbumsFromRows(clean);
  }

  lemma AlbumsOnlyFromRows(clean: seq<SourceRow>)
    ensures KeySet(AlbumsTable(clean), AlbumTitle) <= KeySet(clean, AlbumNameOf)
  {
    var projected := Project(clean, AlbumNameOf);
    var names := DedupKeepFirst(projected, Whole);
    var albums := AssignAlbumIds(names);
    forall c | c in KeySet(albums, AlbumTitle) ensures c in KeySet(clean, AlbumNameOf) {
      var a :| a in albums && AlbumTitle(a) == c;
      var i :| 0 <= i < |albums| && albums[i] == a;
      assert c == names[i] && names[i] in names;
      assert c in projected;
      var k :| 0 <= k < |projected| && projected[k] == c;
      assert AlbumNameOf(clean[k]) == c && clean[k] in clean;
    }
    assert albums == AlbumsTable(clean);
  }

  lemma AlbumsFromRows(clean: seq<SourceRow>)
    ensures KeySet(clean, AlbumNameOf) <= KeySet(AlbumsTable(clean), AlbumTitle)
  {
    var projected := Project(clean, AlbumNameOf);
    var names := DedupKeepFirst(projected, Whole);
    var albums := AlbumsTable(clean);
    DedupWholeMembers(projected);
    forall c | c in KeySet(clean, AlbumNameOf) ensures c in KeySet(albums, AlbumTitle) {
      var r :| r in clean && AlbumNameOf(r) == c;
      var k :| 0 <= k < |clean| && clean[k] == r;
      assert projected[k] == c;
      assert c in names;
      var i :| 0 <= i < |names| && names[i] == c;
      assert albums[i].albumName == c;
      assert albums[i] in albums;
    }
  }

  /** Every album name of a cleaned row appears in Albums exactly once. */
  lemma AlbumOfEachRowOnce(clean: seq<SourceRow>, r: SourceRow)
    requires r in clean
    ensures exists i :: 0 <= i < |AlbumsTable(clean)| && AlbumsTable(clean)[i].albumName == r.albumName
    ensures forall i, j ::
      (0 <= i < |AlbumsTable(clean)| && 0 <= j < |AlbumsTable(clean)| &&
       AlbumsTable(clean)[i].albumName == r.albumName && AlbumsTable(clean)[j].albumName == r.albumName)
      ==> i == j
  {
    var albums := AlbumsTable(clean);
    assert r.albumName in KeySet(albums, AlbumTitle) by {
      AlbumsFromRows(clean);
      assert AlbumNameOf(r) in KeySet(clean, AlbumNameOf);
    }
    assert DistinctKeys(albums, AlbumTitle) by {
      AlbumsDistinctAndNumbered(clean);
    }
    TitleOnce(albums, r.albumName);
  }

  lemma TitleOnce(albums: seq<Album>, name: Cell)
    requires DistinctKeys(albums, AlbumTitle) && name in KeySet(albums, AlbumTitle)
    ensures exists i :: 0 <= i < |albums| && albums[i].albumName == name
    ensures forall i, j ::
      (0 <= i < |albums| && 0 <= j < |albums| && albums[i].albumName == name && albums[j].albumName == name)
      ==> i == j
  {
    var a :| a in albums && AlbumTitle(a) == name;
    var i :| 0 <= i < |albums| && albums[i] == a;
    assert albums[i].albumName == name;
    forall i, j | 0 <= i < |albums| && 0 <= j < |albums| &&
      albums[i].albumName == name && albums[j].albumName == name
      ensures i == j
    {
      assert AlbumTitle(albums[i]) == AlbumTitle(albums[j]);
    }
  }

  // ---------------------------------------------------------------------------
  // AlbumArtists

  /** AlbumArtists pairs are pairwise distinct, and each pair comes from an
      exploded (row, artist name) pair: its album_id is the id Albums gives the
      row's album and its artist_id the id Artists gives the name. */
  lemma AlbumArtistsComeFromRows(clean: seq<SourceRow>)
    ensures var aa := AlbumArtistsTable(clean, ArtistsTable(clean), AlbumsTable(clean));
      DistinctKeys(aa, Whole) &&
      forall p :: p in aa ==>
        exists q :: q in Explode(clean, ArtistNames) &&
          Album(p.albumId, q.0.albumName) in AlbumsTable(clean) && Artist(p.artistId, q.1) in ArtistsTable(clean)
  {
    var artists, albums := ArtistsTable(clean), AlbumsTable(clean);
    var pairs := Explode(clean, ArtistNames);
    var withArtist := InnerJoin(pairs, artists, NameOf, ArtistNameOf);
    var withAlbum := InnerJoin(withArtist, albums, PairAlbumName, AlbumTitle);
    var projected := Project(withAlbum, AlbumArtistOf);
    var aa := AlbumArtistsTable(clean, artists, albums);
    DedupWholeMembers(projected);
    forall p | p in aa
      ensures exists q :: q in pairs && Album(p.albumId, q.0.albumName) in albums && Artist(p.artistId, q.1) in artists
    {
      var k :| 0 <= k < |projected| && projected[k] == p;
      var t := withAlbum[k];
      assert t in withAlbum;
      assert t.0 in withArtist;
      assert t.1 == Album(p.albumId, t.0.0.0.albumName);
      assert t.0.1 == Artist(p.artistId, t.0.0.1);
    }
  }

  /** Every exploded (row, artist name) pair has its AlbumArtists pair: no
      artist of a row is lost by the two joins. */
  lemma AlbumArtistsCoverRows(clean: seq<SourceRow>)
    ensures forall q :: q in Explode(clean, ArtistNames) ==>
      exists p :: p in AlbumArtistsTable(clean, ArtistsTable(clean), AlbumsTable(clean)) &&
        Album(p.albumId, q.0.albumName) in AlbumsTable(clean) && Artist(p.artistId, q.1) in ArtistsTable(clean)
  {
    var artists, albums := ArtistsTable(clean), AlbumsTable(clean);
    var links := AlbumArtistsTable(clean, artists, albums);
    var exploded := Explode(clean, ArtistNames);
    assert forall q :: q in exploded ==> q.1 in KeySet(artists, ArtistNameOf) by {
      ArtistsCoverExplodedNames(clean);
    }
    assert KeySet(clean, AlbumNameOf) <= KeySet(albums, AlbumTitle) by {
      AlbumsFromRows(clean);
    }
    forall q | q in exploded
      ensures exists p :: p in links && Album(p.albumId, q.0.albumName) in albums && Artist(p.artistId, q.1) in artists
    {
      var ar :| ar in artists && ArtistNameOf(ar) == q.1;
      assert AlbumNameOf(q.0) in KeySet(clean, AlbumNameOf);
      var al :| al in albums && AlbumTitle(al) == q.0.albumName;
      AlbumArtistOfPair(clean, q, ar, al);
      assert AlbumArtist(al.albumId, ar.artistId) in links;
    }
  }

  /** The pair of one exploded (row, name) with its artist and album rows. */
  lemma AlbumArtistOfPair(clean: seq<SourceRow>, q: (SourceRow, Cell), ar: Artist, al: Album)
    requires q in Explode(clean, ArtistNames)
    requires ar in ArtistsTable(clean) && ar.artistName == q.1
    requires al in AlbumsTable(clean) && al.albumName == q.0.albumName
    ensures AlbumArtist(al.albumId, ar.artistId) in AlbumArtistsTable(clean, ArtistsTable(clean), AlbumsTable(clean))
  {
    var artists, albums := ArtistsTable(clean), AlbumsTable(clean);
    var withArtist := InnerJoin(Explode(clean, ArtistNames), artists, NameOf, ArtistNameOf);
    var withAlbum := InnerJoin(withArtist, albums, PairAlbumName, AlbumTitle);
    var projected := Project(withAlbum, AlbumArtistOf);
    assert ((q, ar), al) in withAlbum by {
      assert (q, ar) in withArtist;
    }
    assert AlbumArtist(al.albumId, ar.artistId) in projected by {
      var k :| 0 <= k < |withAlbum| && withAlbum[k] == ((q, ar), al);
      assert projected[k] == AlbumArtist(al.albumId, ar.artistId);
    }
    DedupWholeMembers(projected);
  }

  // ---------------------------------------------------------------------------
  // Tracks

  function TrackIdOf(t: Track): Cell { t.trackId }

  /** Tracks rows have pairwise distinct (track_id, track_name), and each is a
      cleaned row carrying the id Albums gives its album. */
  lemma TracksComeFromRows(clean: seq<SourceRow>)
    ensures var tracks := TracksTable(clean, AlbumsTable(clean));
      DistinctKeys(tracks, TrackIdName) &&
      forall t :: t in tracks ==>
        exists r :: r in clean &&
          Album(t.albumId, r.albumName) in AlbumsTable(clean) &&
          t == Track(r.trackId, r.trackName, t.albumId, r.popularity, r.durationMs, r.explicit)
  {
    var albums := AlbumsTable(clean);
    var joined := InnerJoin(clean, albums, AlbumNameOf, AlbumTitle);
    var projected := Project(joined, TrackOf);
    var kept := Filter(projected, TrackHasKeys);
    var tracks := TracksTable(clean, albums);
    forall t | t in tracks
      ensures exists r :: r in clean && Album(t.albumId, r.albumName) in albums &&
                          t == Track(r.trackId, r.trackName, t.albumId, r.popularity, r.durationMs, r.explicit)
    {
      assert t in kept;
      var k :| 0 <= k < |projected| && projected[k] == t;
      var j := joined[k];
      assert j in joined;
      assert j.1 == Album(t.albumId, j.0.albumName);
    }
  }

  /** The inner join with Albums loses no cleaned row, and every cleaned row's
      (track_id, track_name) appears in Tracks. */
  lemma TracksKeepEveryRow(rows: seq<SourceRow>)
    ensures var clean := Clean(rows);
      |InnerJoin(clean, AlbumsTable(clean), AlbumNameOf, AlbumTitle)| == |clean| &&
      forall r :: r in clean ==> (r.trackId, r.trackName) in KeySet(Normalize(rows).tracks, TrackIdName)
  {
    var clean := Clean(rows);
    var albums := AlbumsTable(clean);
    var joined := InnerJoin(clean, albums, AlbumNameOf, AlbumTitle);
    var projected := Project(joined, TrackOf);
    var kept := Filter(projected, TrackHasKeys);
    CleanKeepsFirstNonNull(rows);
    AlbumsDistinctAndNumbered(clean);
    AlbumsMatchRows(clean);
    forall l | l in clean ensures AlbumNameOf(l) in KeySet(albums, AlbumTitle) {
      assert AlbumNameOf(l) in KeySet(clean, AlbumNameOf);
    }
    JoinOnUniqueKey(clean, albums, AlbumNameOf, AlbumTitle);
    forall r | r in clean
      ensures (r.trackId, r.trackName) in KeySet(Normalize(rows).tracks, TrackIdName)
    {
      var k :| 0 <= k < |clean| && clean[k] == r;
      var t := projected[k];
      assert t == TrackOf(joined[k]) && joined[k].0 == r;
      assert TrackHasKeys(t);
      assert t in kept;
      assert TrackIdName(t) in KeySet(kept, TrackIdName);
    }
  }

  function RowIdName(r: SourceRow): (Cell, Cell) { (r.trackId, r.trackName) }

  /** Tracks holds, in order, the first cleaned row of each (track_id,
      track_name), with the album_id Albums gives its album: for a track
      listed under two albums, the album, popularity, duration_ms and
      explicit of the earlier row are the ones kept. */
  lemma TracksFirstPerIdName(rows: seq<SourceRow>)
    ensures var clean := Clean(rows);
      var albums := AlbumsTable(clean);
      var tracks := TracksTable(clean, albums);
      var idx := FirstIndices(clean, RowIdName);
      |tracks| == |idx| &&
      forall m :: 0 <= m < |tracks| ==>
        var r := clean[idx[m]];
        Album(tracks[m].albumId, r.albumName) in albums &&
        tracks[m] == Track(r.trackId, r.trackName, tracks[m].albumId, r.popularity, r.durationMs, r.explicit)
  {
    var clean := Clean(rows);
    var albums := AlbumsTable(clean);
    var joined := InnerJoin(clean, albums, AlbumNameOf, AlbumTitle);
    var projected := Project(joined, TrackOf);
    JoinedInCleanOrder(clean);
    var idx := FirstIndices(clean, RowIdName);
    assert FirstIndices(projected, TrackIdName) == idx by {
      FirstIndicesSameKeys(projected, clean, TrackIdName, RowIdName);
    }
    DedupKeepsFirstOccurrences(projected, TrackIdName);
    var tracks := DedupKeepFirst(projected, TrackIdName);
    assert tracks == TracksTable(clean, albums) by {
      TrackRowsHaveKeys(rows);
    }
    forall m | 0 <= m < |tracks|
      ensures Album(tracks[m].albumId, clean[idx[m]].albumName) in albums
      ensures tracks[m] == Track(clean[idx[m]].trackId, clean[idx[m]].trackName, tracks[m].albumId,
                                 clean[idx[m]].popularity, clean[idx[m]].durationMs, clean[idx[m]].explicit)
    {
      var k := idx[m];
      assert tracks[m] == TrackOf(joined[k]);
      assert joined[k].1 == Album(tracks[m].albumId, clean[k].albumName);
    }
  }

  /** Joining rows with the Albums built from them loses no row and adds
      none: row i of the join pairs row i with its album. */
  lemma JoinedInCleanOrder(clean: seq<SourceRow>)
    ensures var albums := AlbumsTable(clean);
      var joined := InnerJoin(clean, albums, AlbumNameOf, AlbumTitle);
      |joined| == |clean| && forall i :: 0 <= i < |clean| ==>
        joined[i].0 == clean[i] && joined[i].1 in albums && AlbumTitle(joined[i].1) == AlbumNameOf(clean[i])
  {
    var albums := AlbumsTable(clean);
    assert DistinctKeys(albums, AlbumTitle) by {
      AlbumsDistinctAndNumbered(clean);
    }
    assert forall l :: l in clean ==> AlbumNameOf(l) in KeySet(albums, AlbumTitle) by {
      AlbumsMatchRows(clean);
      forall l | l in clean ensures AlbumNameOf(l) in KeySet(albums, AlbumTitle) {
        assert AlbumNameOf(l) in KeySet(clean, AlbumNameOf);
      }
    }
    JoinOnUniqueKey(clean, albums, AlbumNameOf, AlbumTitle);
  }

  /** The `dropna` on Tracks drops nothing: cleaned rows have both keys. */
  lemma TrackRowsHaveKeys(rows: seq<SourceRow>)
    ensures var clean := Clean(rows);
      var projected := Project(InnerJoin(clean, AlbumsTable(clean), AlbumNameOf, AlbumTitle), TrackOf);
      Filter(projected, TrackHasKeys) == projected
  {
    var clean := Clean(rows);
    var joined := InnerJoin(clean, AlbumsTable(clean), AlbumNameOf, AlbumTitle);
    var projected := Project(joined, TrackOf);
    JoinedInCleanOrder(clean);
    forall i | 0 <= i < |projected| ensures TrackHasKeys(projected[i]) {
      assert clean[i] in clean;
    }
    FilterKeepsAll(projected, TrackHasKeys);
  }

  // ---------------------------------------------------------------------------
  // TrackArtists

  /** TrackArtists pairs are pairwise distinct, and each pair comes from an
      exploded (row, artist name) pair: the row's track_id with the id Artists
      gives the name. */
  lemma TrackArtistsComeFromRows(clean: seq<SourceRow>)
    ensures var ta := TrackArtistsTable(clean, ArtistsTable(clean));
      DistinctKeys(ta, Whole) &&
      forall p :: p in ta ==>
        exists q :: q in Explode(clean, ArtistNames) &&
          p.trackId == q.0.trackId && Artist(p.artistId, q.1) in ArtistsTable(clean)
  {
    var artists := ArtistsTable(clean);
    var withArtist := InnerJoin(Explode(clean, ArtistNames), artists, NameOf, ArtistNameOf);
    var projected := Project(withArtist, TrackArtistOf);
    DedupWholeMembers(projected);
    forall p | p in TrackArtistsTable(clean, artists)
      ensures exists q :: q in Explode(clean, ArtistNames) &&
                          p.trackId == q.0.trackId && Artist(p.artistId, q.1) in artists
    {
      var k :| 0 <= k < |projected| && projected[k] == p;
      assert withArtist[k] in withArtist;
      assert withArtist[k].1 == Artist(p.artistId, withArtist[k].0.1);
    }
  }

  /** Every exploded (row, artist name) pair has its TrackArtists pair. */
  lemma TrackArtistsCoverRows(clean: seq<SourceRow>)
    ensures forall q :: q in Explode(clean, ArtistNames) ==>
      exists a :: a in ArtistsTable(clean) && a.artistName == q.1 &&
        TrackArtist(q.0.trackId, a.artistId) in TrackArtistsTable(clean, ArtistsTable(clean))
  {
    var artists := ArtistsTable(clean);
    var withArtist := InnerJoin(Explode(clean, ArtistNames), artists, NameOf, ArtistNameOf);
    var projected := Project(withArtist, TrackArtistOf);
    ArtistsCoverExplodedNames(clean);
    DedupWholeMembers(projected);
    forall q | q in Explode(clean, ArtistNames)
      ensures exists a :: a in artists && a.artistName == q.1 &&
                          TrackArtist(q.0.trackId, a.artistId) in TrackArtistsTable(clean, artists)
    {
      var a :| a in artists && ArtistNameOf(a) == q.1;
      assert (q, a) in withArtist;
      var k :| 0 <= k < |withArtist| && withArtist[k] == (q, a);
      assert projected[k] == TrackArtist(q.0.trackId, a.artistId);
    }
  }

  /** Every TrackArtists track_id is the track_id of some Tracks row, so the
      emitted foreign key to Tracks can be met. */
  lemma TrackArtistsReferToTracks(rows: seq<SourceRow>)
    ensures forall p :: p in Normalize(rows).trackArtists ==> p.trackId in KeySet(Normalize(rows).tracks, TrackIdOf)
  {
    var clean := Clean(rows);
    var tracks := Normalize(rows).tracks;
    TrackArtistsComeFromRows(clean);
    TracksKeepEveryRow(rows);
    forall p | p in Normalize(rows).trackArtists
      ensures p.trackId in KeySet(tracks, TrackIdOf)
    {
      var q :| q in Explode(clean, ArtistNames) && p.trackId == q.0.trackId && Artist(p.artistId, q.1) in ArtistsTable(clean);
      var t :| t in tracks && TrackIdName(t) == (q.0.trackId, q.0.trackName);
      assert TrackIdOf(t) == p.trackId;
    }
  }

  // ---------------------------------------------------------------------------
  // AudioFeatures

  function RowTrackId(r: SourceRow): Cell { r.trackId }

  /** AudioFeatures has no null track_id, its track_ids are pairwise distinct,
      they are exactly the track_ids of the cleaned rows, and each row holds the
      features of a cleaned row with that track_id. */
  lemma AudioFeaturesOnePerTrack(clean: seq<SourceRow>)
    ensures var af := AudioFeaturesTable(clean);
      DistinctKeys(af, FeatureTrackId) &&
      (forall f :: f in af ==> f.trackId != Null && exists r :: r in clean && f == AudioFeature(r.trackId, r.features)) &&
      KeySet(af, FeatureTrackId) == KeySet(clean, RowTrackId) - {Null}
  {
    var projected := Project(clean, AudioFeatureOf);
    var kept := Filter(projected, FeatureHasTrackId);
    var af := AudioFeaturesTable(clean);
    forall f | f in af
      ensures exists r :: r in clean && f == AudioFeature(r.trackId, r.features)
    {
      assert f in projected;
      var k :| 0 <= k < |projected| && projected[k] == f;
      assert clean[k] in clean;
    }
    forall c | c in KeySet(clean, RowTrackId) - {Null}
      ensures c in KeySet(af, FeatureTrackId)
    {
      var r :| r in clean && RowTrackId(r) == c;
      var k :| 0 <= k < |clean| && clean[k] == r;
      assert projected[k] in kept;
      assert FeatureTrackId(projected[k]) in KeySet(kept, FeatureTrackId);
    }
    forall c | c in KeySet(af, FeatureTrackId)
      ensures c in KeySet(clean, RowTrackId) - {Null}
    {
      var f :| f in af && FeatureTrackId(f) == c;
      var r :| r in clean && f == AudioFeature(r.trackId, r.features);
      assert RowTrackId(r) == c;
    }
  }

  /** AudioFeatures holds, in order, the features of the first cleaned row
      of each track_id: a track_id under two names keeps the earlier row's
      features. */
  lemma AudioFeaturesFirstPerTrack(rows: seq<SourceRow>)
    ensures var clean := Clean(rows);
      var af := AudioFeaturesTable(clean);
      var idx := FirstIndices(clean, RowTrackId);
      |af| == |idx| && forall m :: 0 <= m < |af| ==> af[m] == AudioFeatureOf(clean[idx[m]])
  {
    var clean := Clean(rows);
    var projected := Project(clean, AudioFeatureOf);
    assert Filter(projected, FeatureHasTrackId) == projected by {
      forall i | 0 <= i < |projected| ensures FeatureHasTrackId(projected[i]) {
        assert clean[i] in clean;
      }
      FilterKeepsAll(projected, FeatureHasTrackId);
    }
    var idx := FirstIndices(clean, RowTrackId);
    assert FirstIndices(projected, FeatureTrackId) == idx by {
      FirstIndicesSameKeys(projected, clean, FeatureTrackId, RowTrackId);
    }
    DedupKeepsFirstOccurrences(projected, FeatureTrackId);
    assert DedupKeepFirst(projected, FeatureTrackId) == AudioFeaturesTable(clean);
  }

  /** Every Tracks track_id is the track_id of a cleaned row. */
  lemma TrackIdsFromRows(clean: seq<SourceRow>)
    ensures KeySet(TracksTable(clean, AlbumsTable(clean)), TrackIdOf) <= KeySet(clean, RowTrackId)
  {
    var tracks := TracksTable(clean, AlbumsTable(clean));
    forall t | t in tracks
      ensures TrackIdOf(t) in KeySet(clean, RowTrackId)
    {
      TrackIdFromRow(clean, t);
    }
  }

  lemma TrackIdFromRow(clean: seq<SourceRow>, t: Track)
    requires t in TracksTable(clean, AlbumsTable(clean))
    ensures TrackIdOf(t) in KeySet(clean, RowTrackId)
  {
    TracksComeFromRows(clean);
    var r :| r in clean && Album(t.albumId, r.albumName) in AlbumsTable(clean) &&
      t == Track(r.trackId, r.trackName, t.albumId, r.popularity, r.durationMs, r.explicit);
    assert RowTrackId(r) == TrackIdOf(t);
  }

  /** Every Tracks track_id is a non-null track_id of a cleaned row. */
  lemma TrackIdsAreRowIds(clean: seq<SourceRow>)
    ensures KeySet(TracksTable(clean, AlbumsTable(clean)), TrackIdOf) <= KeySet(clean, RowTrackId) - {Null}
  {
    var tracks := TracksTable(clean, AlbumsTable(clean));
    TrackIdsFromRows(clean);
    forall c | c in KeySet(tracks, TrackIdOf) ensures c != Null {
      var t :| t in tracks && TrackIdOf(t) == c;
    }
  }

  /** Every non-null track_id of a cleaned row is a Tracks track_id. */
  lemma RowIdsAreTrackIds(rows: seq<SourceRow>)
    ensures KeySet(Clean(rows), RowTrackId) - {Null} <= KeySet(Normalize(rows).tracks, TrackIdOf)
  {
    var clean := Clean(rows);
    var tracks := Normalize(rows).tracks;
    TracksKeepEveryRow(rows);
    forall c | c in KeySet(clean, RowTrackId) - {Null}
      ensures c in KeySet(tracks, TrackIdOf)
    {
      var r :| r in clean && RowTrackId(r) == c;
      var t :| t in tracks && TrackIdName(t) == (r.trackId, r.trackName);
      assert TrackIdOf(t) == c;
    }
  }

  /** The track_ids of Tracks and of AudioFeatures are the same set: every
      track has exactly one AudioFeatures row and vice versa. */
  lemma TracksMatchAudioFeatures(rows: seq<SourceRow>)
    ensures KeySet(Normalize(rows).tracks, TrackIdOf) == KeySet(Normalize(rows).audioFeatures, FeatureTrackId)
    ensures DistinctKeys(Normalize(rows).audioFeatures, FeatureTrackId)
  {
    var clean := Clean(rows);
    var t := Normalize(rows);
    assert t.tracks == TracksTable(clean, AlbumsTable(clean)) && t.audioFeatures == AudioFeaturesTable(clean);
    AudioFeaturesOnePerTrack(clean);
    TrackIdsAreRowIds(clean);
    RowIdsAreTrackIds(rows);
  }
}
