/** The SQL emitter: `save_insert_queries` and the script that writes the
    table definitions and then the INSERT statements of the six tables. */
module Emitter {
  import opened Wrappers
  import opened Cells
  import opened Text
  import opened SqlText
  import opened Normalizer

  /** A table as `save_insert_queries` sees it: its column names, and its rows
      as value lists in column order. The six frames below select and rename
      the columns as the source does, one value per column in every row. */
  datatype Frame = Frame(columns: seq<string>, rows: seq<seq<Cell>>)

  function ArtistsFrame(artists: seq<Artist>): (f: Frame)
    ensures |f.rows| == |artists| && forall i :: 0 <= i < |f.rows| ==> |f.rows[i]| == |f.columns|
  {
    Frame(["artist_id", "artist_name"],
          seq(|artists|, i requires 0 <= i < |artists| => [Str(artists[i].artistId), artists[i].artistName]))
  }

  function AlbumsFrame(albums: seq<Album>): (f: Frame)
    ensures |f.rows| == |albums| && forall i :: 0 <= i < |f.rows| ==> |f.rows[i]| == |f.columns|
  {
    Frame(["album_id", "album_name"],
          seq(|albums|, i requires 0 <= i < |albums| => [Str(albums[i].albumId), albums[i].albumName]))
  }

  function AlbumArtistsFrame(links: seq<AlbumArtist>): (f: Frame)
    ensures |f.rows| == |links| && forall i :: 0 <= i < |f.rows| ==> |f.rows[i]| == |f.columns|
  {
    Frame(["album_id", "artist_id"],
          seq(|links|, i requires 0 <= i < |links| => [Str(links[i].albumId), Str(links[i].artistId)]))
  }

  function TrackValues(t: Track): seq<Cell> {
    [t.trackId, t.trackName, Str(t.albumId), t.popularity, t.durationMs, t.explicit]
  }

  function TracksFrame(tracks: seq<Track>): (f: Frame)
    ensures |f.rows| == |tracks| && forall i :: 0 <= i < |f.rows| ==> |f.rows[i]| == |f.columns|
  {
    Frame(["track_id", "track_name", "album_id", "popularity", "duration_ms", "explicit"],
          seq(|tracks|, i requires 0 <= i < |tracks| => TrackValues(tracks[i])))
  }

  function TrackArtistsFrame(links: seq<TrackArtist>): (f: Frame)
    ensures |f.rows| == |links| && forall i :: 0 <= i < |f.rows| ==> |f.rows[i]| == |f.columns|
  {
    Frame(["track_id", "artist_id"],
          seq(|links|, i requires 0 <= i < |links| => [links[i].trackId, Str(links[i].artistId)]))
  }

  function FeatureValues(f: AudioFeature): seq<Cell> {
    var x := f.features;
    [f.trackId, x.danceability, x.energy, x.key, x.loudness, x.mode, x.speechiness,
     x.acousticness, x.instrumentalness, x.liveness, x.valence, x.tempo, x.timeSignature]
  }

  function AudioFeaturesFrame(features: seq<AudioFeature>): (f: Frame)
    ensures |f.rows| == |features| && forall i :: 0 <= i < |f.rows| ==> |f.rows[i]| == |f.columns|
  {
    Frame(["track_id", "danceability", "energy", "key", "loudness", "mode", "speechiness",
           "acousticness", "instrumentalness", "liveness", "valence", "tempo", "time_signature"],
          seq(|features|, i requires 0 <= i < |features| => FeatureValues(features[i])))
  }

  // ---------------------------------------------------------------------------
  // Statements

  /** `str(x)` of a value that is neither missing nor a string. */
  function ScalarText(c: Cell): string
    requires !c.Null? && !c.Str?
  {
    match c
    case Int(i) => Decimal.IntToString(i)
    case Bool(b) => BoolText(b)
    case Num(text) => text
  }

  /** The text of a statement up to its values. */
  function StatementHead(table: string, columns: seq<string>): string {
    "INSERT INTO " + table + " (" + Join(columns, ", ") + ") VALUES ("
  }

  const StatementTail: string := " ON CONFLICT DO NOTHING;\n"

  /** The one INSERT statement `save_insert_queries` writes for a row. */
  function InsertStatement(table: string, columns: seq<string>, row: seq<Cell>): string {
    StatementHead(table, columns) + Join(EncodeAll(row), ", ") + ")" + StatementTail
  }

  /** The statements `save_insert_queries` writes for a whole table: one per
      row, in row order. */
  function Statements(table: string, columns: seq<string>, rows: seq<seq<Cell>>): seq<string> {
    seq(|rows|, i requires 0 <= i < |rows| => InsertStatement(table, columns, rows[i]))
  }

  /** An emitted statement starts with its table and columns, and what follows
      reads back as exactly the row's values, after which only the
      ON CONFLICT clause and the newline remain. */
  lemma InsertStatementReadsBack(table: string, columns: seq<string>, row: seq<Cell>)
    requires |row| >= 1
    requires forall i :: 0 <= i < |row| ==> Readable(row[i])
    ensures var s, h := InsertStatement(table, columns, row), StatementHead(table, columns);
      |h| <= |s| && s[..|h|] == h && ReadValues(s[|h|..]) == Some((ValuesOf(row), StatementTail))
  {
    var s, h := InsertStatement(table, columns, row), StatementHead(table, columns);
    var body := Join(EncodeAll(row), ", ") + ")" + StatementTail;
    assert s == h + body;
    assert s[|h|..] == body;
    ReadEncodedRow(row, StatementTail);
  }

  /** The inner loop of `save_insert_queries`: the SQL text of each value of a row. */
  method EncodeValues(row: seq<Cell>) returns (valuesList: seq<string>)
    ensures |valuesList| == |row|
    ensures forall i :: 0 <= i < |row| ==> valuesList[i] == Encode(row[i])
  {
    valuesList := [];
    var k := 0;
    while k < |row|
      invariant 0 <= k <= |row|
      invariant |valuesList| == k
      invariant forall i :: 0 <= i < k ==> valuesList[i] == Encode(row[i])
    {
      var x := row[k];
      if x.Null? {
        valuesList := valuesList + ["NULL"];
      } else if x.Str? {
        var escaped := Escape(x.s);
        valuesList := valuesList + ["'" + escaped + "'"];
      } else {
        valuesList := valuesList + [ScalarText(x)];
      }
      k := k + 1;
    }
  }

  /** The body of the loop of `save_insert_queries`: the statement for one row. */
  method InsertQuery(table: string, columns: seq<string>, row: seq<Cell>) returns (insertQuery: string)
    ensures insertQuery == InsertStatement(table, columns, row)
  {
    var valuesList := EncodeValues(row);
    assert valuesList == EncodeAll(row);
    var cols := Join(columns, ", ");
    var values := Join(valuesList, ", ");
    insertQuery := "INSERT INTO " + table + " (" + cols + ") VALUES (" + values + ") ON CONFLICT DO NOTHING;\n";
  }

  // ---------------------------------------------------------------------------
  // The script

  /** One insert section of the script: a comment header, then the INSERT
      statements of one table. */
  datatype Section = Section(header: string, table: string, frame: Frame)

  /** The insert sections in the order the script writes them: parents before
      the tables that refer to them. */
  function Sections(t: Tables): seq<Section> {
    [Section("\n\n-- Insert Data into Artists Table\n", "Artists", ArtistsFrame(t.artists)),
     Section("\n\n-- Insert Data into Albums Table\n", "Albums", AlbumsFrame(t.albums)),
     Section("\n\n-- Insert Data into Album-Artists Table\n", "AlbumArtists", AlbumArtistsFrame(t.albumArtists)),
     Section("\n\n-- Insert Data into Tracks Table\n", "Tracks", TracksFrame(t.tracks)),
     Section("\n\n-- Insert Data into Track-Artists Table\n", "TrackArtists", TrackArtistsFrame(t.trackArtists)),
     Section("\n\n-- Insert Data into Audio Features Table\n", "AudioFeatures", AudioFeaturesFrame(t.audioFeatures))]
  }

  /** The writes of one section: its header, then its statements. */
  function SectionWrites(s: Section): seq<string> {
    [s.header] + Statements(s.table, s.frame.columns, s.frame.rows)
  }

  function SectionsWrites(ss: seq<Section>): seq<string> {
    if ss == [] then [] else SectionsWrites(ss[..|ss| - 1]) + SectionWrites(ss[|ss| - 1])
  }

  /** Every write of the script, in order: the table definitions, then the
      insert sections. */
  function ScriptWrites(t: Tables, ddl: string): seq<string> {
    [ddl] + SectionsWrites(Sections(t))
  }

  /** The text of the script file. */
  function ScriptText(t: Tables, ddl: string): string {
    Concat(ScriptWrites(t, ddl))
  }

  /** The script file being written: `writes` is what `file.write` has been
      given so far, in order, and the file's text is their concatenation. */
  class ScriptFile {
    var writes: seq<string>

    function Content(): string
      reads this
    {
      Concat(writes)
    }

    constructor ()
      ensures writes == [] && Content() == []
    {
      writes := [];
    }

    /** `file.write(s)`. */
    method Write(s: string)
      modifies this
      ensures writes == old(writes) + [s]
      ensures Content() == old(Content()) + s
    {
      writes := writes + [s];
      assert writes[..|writes| - 1] == old(writes);
    }

    /** `save_insert_queries(dataframe, table_name, file)`: one statement per
      row, in row order, and nothing else. */
    method SaveInsertQueries(f: Frame, table: string)
      modifies this
      ensures writes == old(writes) + Statements(table, f.columns, f.rows)
    {
      ghost var lines := Statements(table, f.columns, f.rows);
      var i := 0;
      while i < |f.rows|
        invariant 0 <= i <= |f.rows|
        invariant writes == old(writes) + lines[..i]
      {
        var insertQuery := InsertQuery(table, f.columns, f.rows[i]);
        Write(insertQuery);
        assert lines[..i + 1] == lines[..i] + [insertQuery];
        i := i + 1;
      }
      assert lines[..i] == lines;
    }

    /** One `f.write(header)` and `save_insert_queries(...)` pair of the script. */
    method WriteSection(s: Section)
      modifies this
      ensures writes == old(writes) + SectionWrites(s)
    {
      Write(s.header);
      SaveInsertQueries(s.frame, s.table);
    }

    /** The insert sections, one after the other. */
    method WriteSections(ss: seq<Section>)
      modifies this
      ensures writes == old(writes) + SectionsWrites(ss)
    {
      var k := 0;
      while k < |ss|
        invariant 0 <= k <= |ss|
        invariant writes == old(writes) + SectionsWrites(ss[..k])
      {
        WriteSection(ss[k]);
        assert writes == old(writes) + SectionsWrites(ss[..k + 1]) by {
          SectionsWritesSnoc(old(writes), ss, k);
        }
        k := k + 1;
      }
      assert ss[..k] == ss;
    }

    /** The `with open(...)` block: the table definitions (`ddl`), then each
        insert section in order. The file's text grows by the script text. */
    method WriteScript(t: Tables, ddl: string)
      modifies this
      ensures writes == old(writes) + ScriptWrites(t, ddl)
      ensures Content() == old(Content()) + ScriptText(t, ddl)
    {
      WriteAll(ddl, Sections(t));
    }

    /** The table definitions, then the given sections. */
    method WriteAll(ddl: string, ss: seq<Section>)
      modifies this
      ensures writes == old(writes) + ([ddl] + SectionsWrites(ss))
      ensures Content() == old(Content()) + Concat([ddl] + SectionsWrites(ss))
    {
      Write(ddl);
      WriteSections(ss);
      assert writes == old(writes) + ([ddl] + SectionsWrites(ss)) by {
        assert (old(writes) + [ddl]) + SectionsWrites(ss) == old(writes) + ([ddl] + SectionsWrites(ss));
      }
      assert Concat(writes) == Concat(old(writes)) + Concat([ddl] + SectionsWrites(ss)) by {
        ConcatAppend(old(writes), [ddl] + SectionsWrites(ss));
      }
    }
  }

  /** Writing one more section after the first `k` gives the writes of the
      first `k + 1`. */
  lemma SectionsWritesSnoc(w: seq<string>, ss: seq<Section>, k: nat)
    requires k < |ss|
    ensures (w + SectionsWrites(ss[..k])) + SectionWrites(ss[k]) == w + SectionsWrites(ss[..k + 1])
  {
    assert ss[..k + 1][..k] == ss[..k];
  }
}
