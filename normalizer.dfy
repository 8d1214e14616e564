/** The normalizer: from the flat table of track rows to the six relational
    tables Artists, Albums, AlbumArtists, Tracks, TrackArtists, AudioFeatures. */
module Normalizer {
  import opened Cells
  import opened Decimal
  import opened Text
  import opened TableOps

  /** The twelve audio-feature columns, in the order the source lists them. */
  datatype Features = Features(
    danceability: Cell, energy: Cell, key: Cell, loudness: Cell, mode: Cell,
    speechiness: Cell, acousticness: Cell, instrumentalness: Cell,
    liveness: Cell, valence: Cell, tempo: Cell, timeSignature: Cell)

  /** One row of the flat input table. `artists` is the ';'-joined artist list. */
  datatype SourceRow = SourceRow(
    trackId: Cell, trackName: Cell, albumName: Cell, artists: Cell,
    popularity: Cell, durationMs: Cell, explicit: Cell, features: Features)

  datatype Artist = Artist(artistId: string, artistName: Cell)
  datatype Album = Album(albumId: string, albumName: Cell)
  datatype AlbumArtist = AlbumArtist(albumId: string, artistId: string)
  datatype Track = Track(
    trackId: Cell, trackName: Cell, albumId: string,
    popularity: Cell, durationMs: Cell, explicit: Cell)
  datatype TrackArtist = TrackArtist(trackId: Cell, artistId: string)
  datatype AudioFeature = AudioFeature(trackId: Cell, features: Features)

  datatype Tables = Tables(
    artists: seq<Artist>, albums: seq<Album>, albumArtists: seq<AlbumArtist>,
    tracks: seq<Track>, trackArtists: seq<TrackArtist>, audioFeatures: seq<AudioFeature>)

  const ArtistDelimiter: char := ';'
  const ArtistPrefix: string := "ART"
  const AlbumPrefix: string := "ALB"

  // ---------------------------------------------------------------------------
  // Cleaning

  predicate HasRequiredKeys(r: SourceRow) {
    r.trackId != Null && r.trackName != Null && r.albumName != Null
  }

  function TrackKey(r: SourceRow): (Cell, Cell, Cell) {
    (r.trackId, r.trackName, r.albumName)
  }

  /** Drop rows with a null track_id, track_name or album_name, then keep the
      first row of each (track_id, track_name, album_name). */
  function Clean(rows: seq<SourceRow>): (clean: seq<SourceRow>)
    ensures forall r :: r in clean ==> r in rows && HasRequiredKeys(r)
    ensures DistinctKeys(clean, TrackKey)
  {
    DedupKeepFirst(Filter(rows, HasRequiredKeys), TrackKey)
  }

  // ---------------------------------------------------------------------------
  // Artists

  /** The artist names of a row: `str.split(';')` of a string cell; any other
      cell (in particular a null one) yields a single null name. */
  function ArtistNames(r: SourceRow): (names: seq<Cell>)
    ensures |names| >= 1
  {
    match r.artists
    case Str(s) =>
      var parts := Split(s, ArtistDelimiter);
      seq(|parts|, i requires 0 <= i < |parts| => Str(parts[i]))
    case _ => [Null]
  }

  function NameOf(p: (SourceRow, Cell)): Cell { p.1 }

  /** The exploded artist column: one name per (row, artist) pair, row by row. */
  function ExplodedNames(clean: seq<SourceRow>): seq<Cell> {
    Project(Explode(clean, ArtistNames), NameOf)
  }

  function AssignArtistIds(names: seq<Cell>): (artists: seq<Artist>)
    ensures |artists| == |names|
    ensures forall i :: 0 <= i < |names| ==> artists[i] == Artist(MakeId(ArtistPrefix, i + 1), names[i])
  {
    seq(|names|, i requires 0 <= i < |names| => Artist(MakeId(ArtistPrefix, i + 1), names[i]))
  }

  function ArtistsTable(clean: seq<SourceRow>): (artists: seq<Artist>)
    ensures forall i :: 0 <= i < |artists| ==> artists[i].artistId == MakeId(ArtistPrefix, i + 1)
  {
    AssignArtistIds(DedupKeepFirst(ExplodedNames(clean), Whole))
  }

  function ArtistNameOf(a: Artist): Cell { a.artistName }

  // ---------------------------------------------------------------------------
  // Albums

  function AlbumNameOf(r: SourceRow): Cell { r.albumName }

  function AssignAlbumIds(names: seq<Cell>): (albums: seq<Album>)
    ensures |albums| == |names|
    ensures forall i :: 0 <= i < |names| ==> albums[i] == Album(MakeId(AlbumPrefix, i + 1), names[i])
  {
    seq(|names|, i requires 0 <= i < |names| => Album(MakeId(AlbumPrefix, i + 1), names[i]))
  }

  function AlbumsTable(clean: seq<SourceRow>): (albums: seq<Album>)
    ensures forall i :: 0 <= i < |albums| ==> albums[i].albumId == MakeId(AlbumPrefix, i + 1)
  {
    AssignAlbumIds(DedupKeepFirst(Project(clean, AlbumNameOf), Whole))
  }

  function AlbumTitle(a: Album): Cell { a.albumName }

  // ---------------------------------------------------------------------------
  // AlbumArtists

  function PairAlbumName(q: ((SourceRow, Cell), Artist)): Cell { q.0.0.albumName }

  function AlbumArtistOf(t: (((SourceRow, Cell), Artist), Album)): AlbumArtist {
    AlbumArtist(t.1.albumId, t.0.1.artistId)
  }

  /** Explode (album_name, artists), join on the artist name, then on the album
      name, keep the id pair, drop duplicate pairs. */
  function AlbumArtistsTable(clean: seq<SourceRow>, artists: seq<Artist>, albums: seq<Album>): (links: seq<AlbumArtist>)
    ensures DistinctKeys(links, Whole)
  {
    var withArtist := InnerJoin(Explode(clean, ArtistNames), artists, NameOf, ArtistNameOf);
    var withAlbum := InnerJoin(withArtist, albums, PairAlbumName, AlbumTitle);
    DedupKeepFirst(Project(withAlbum, AlbumArtistOf), Whole)
  }

  // ---------------------------------------------------------------------------
  // Tracks

  function TrackOf(p: (SourceRow, Album)): Track {
    Track(p.0.trackId, p.0.trackName, p.1.albumId, p.0.popularity, p.0.durationMs, p.0.explicit)
  }

  /** The `dropna` on Tracks; album_id is a generated string and never null. */
  predicate TrackHasKeys(t: Track) {
    t.trackId != Null && t.trackName != Null
  }

  function TrackIdName(t: Track): (Cell, Cell) { (t.trackId, t.trackName) }

  /** Inner-join the rows to Albums on album_name, drop rows with null keys,
      keep the first row of each (track_id, track_name). */
  function TracksTable(clean: seq<SourceRow>, albums: seq<Album>): (tracks: seq<Track>)
    ensures DistinctKeys(tracks, TrackIdName)
    ensures forall t :: t in tracks ==> TrackHasKeys(t)
  {
    var joined := InnerJoin(clean, albums, AlbumNameOf, AlbumTitle);
    DedupKeepFirst(Filter(Project(joined, TrackOf), TrackHasKeys), TrackIdName)
  }

  // ---------------------------------------------------------------------------
  // TrackArtists

  function TrackArtistOf(q: ((SourceRow, Cell), Artist)): TrackArtist {
    TrackArtist(q.0.0.trackId, q.1.artistId)
  }

  function TrackArtistsTable(clean: seq<SourceRow>, artists: seq<Artist>): (links: seq<TrackArtist>)
    ensures DistinctKeys(links, Whole)
  {
    var withArtist := InnerJoin(Explode(clean, ArtistNames), artists, NameOf, ArtistNameOf);
    DedupKeepFirst(Project(withArtist, TrackArtistOf), Whole)
  }

  // ---------------------------------------------------------------------------
  // AudioFeatures

  function AudioFeatureOf(r: SourceRow): AudioFeature { AudioFeature(r.trackId, r.features) }

  predicate FeatureHasTrackId(f: AudioFeature) { f.trackId != Null }

  function FeatureTrackId(f: AudioFeature): Cell { f.trackId }

  function AudioFeaturesTable(clean: seq<SourceRow>): (features: seq<AudioFeature>)
    ensures DistinctKeys(features, FeatureTrackId)
    ensures forall f :: f in features ==> f.trackId != Null
  {
    DedupKeepFirst(Filter(Project(clean, AudioFeatureOf), FeatureHasTrackId), FeatureTrackId)
  }

  // ---------------------------------------------------------------------------
  // The whole normalizer

  function Normalize(rows: seq<SourceRow>): Tables {
    var clean := Clean(rows);
    var artists := ArtistsTable(clean);
    var albums := AlbumsTable(clean);
    Tables(artists, albums, AlbumArtistsTable(clean, artists, albums),
           TracksTable(clean, albums), TrackArtistsTable(clean, artists),
           AudioFeaturesTable(clean))
  }
}
