# Music-track normalizer and SQL script generator, in Dafny

`SQL_Generator.py` reads a flat table of music tracks, one row per track with
a `;`-joined artist list. It normalizes the rows into six tables:

- Artists and Albums, each with generated surrogate keys `ART000001`, `ALB000001`, …;
- the link tables AlbumArtists and TrackArtists;
- Tracks;
- AudioFeatures.

It then writes one SQL script. The script first holds the table definitions,
then one `INSERT … ON CONFLICT DO NOTHING;` line per row of each table, with
the tables in dependency order.

The model has three parts:

- **Normalizer** (`normalizer.dfy`). Each pandas step is a function on
  sequences of records:
  - `dropna` becomes `TableOps.Filter`;
  - `drop_duplicates` with keep='first' becomes `TableOps.DedupKeepFirst`;
  - `str.split(';')` becomes `Text.Split`;
  - `explode` becomes `TableOps.Explode`;
  - the inner `merge` becomes `TableOps.InnerJoin`;
  - the id list comprehensions become `Decimal.MakeId`.

  `Normalizer.Normalize` builds the six tables. The lemmas in
  `normalizer_facts.dfy` and `script_facts.dfy` state what the tables
  guarantee: distinct names, numbered ids in first-seen order, link pairs
  traced back to source rows, no row lost by the joins, and every foreign-key
  value present in its parent table.
- **Value encoding** (`sql_text.dfy`). This covers the `NULL` keyword, quoted
  literals with doubled quotes, and `str(x)` for the rest. The encoding is
  related to a reader of `VALUES (...)` lists: un-doubling inverts the
  escaping, and a whole encoded row reads back as its values in order.
- **Emitter** (`emitter.dfy`). `save_insert_queries` and the `with open` block
  are methods of a `ScriptFile` class. Its state is the sequence of strings
  passed to `file.write`, and the file's text is their concatenation. Each
  method is proved against the specification functions `Statements`,
  `SectionWrites`, `SectionsWrites` and `ScriptWrites`.
  `ScriptFacts.ForeignKeysInsertedFirst` shows that the fixed section order
  (Artists, Albums, AlbumArtists, Tracks, TrackArtists, AudioFeatures) writes
  each row a declared foreign key refers to before the row that refers to it.

A cell is `Null | Str | Int | Bool | Num(text)`:

- `Null` stands for a missing value (NaN/None).
- Two `Null`s compare equal, as NaN keys do in pandas' `drop_duplicates` and
  `merge`.
- `Num` carries the text that Python's `str()` gives the number.

Two behaviours of the code are kept as they are:

- The table definition declares `track_id VARCHAR(30) PRIMARY KEY` for Tracks
  (`SQL_Generator.py:111`). The code, however, de-duplicates Tracks on
  `(track_id, track_name)` only (`SQL_Generator.py:36`), so two Tracks rows
  may share a `track_id`. The model keeps this: `TracksComeFromRows` proves
  only that the pairs are distinct. The second such INSERT is the one that
  `ON CONFLICT DO NOTHING` discards.
- A row whose `artists` cell is missing is kept by the cleaning step, which
  only looks at the track and album keys. When it is the first row of its
  key triple, its null artist name gets an `ART…` id (`NullArtistGetsId`).
  That artist's INSERT then writes `NULL` into the `NOT NULL` column
  `artist_name` (`SQL_Generator.py:83`).

## Model

| member | source | states |
|---|---|---|
| Decimal.ParseIntToString | SQL_Generator.py:71 | `str()` of any int (sign and digits) reads back as that int |
| Decimal.ZFill | SQL_Generator.py:14 | `zfill(width)` of a digit string pads with '0' on the left up to the width, keeps the digits as the suffix, leaves a longer string unchanged, and gives digits only |
| Decimal.ParseLeadingZeros | SQL_Generator.py:14 | the zero padding of `zfill` does not change the number the digits denote |
| Decimal.NatToString | SQL_Generator.py:14 | `str(i + 1)` (here and at line 21) is a non-empty digit string with no leading zero; `ParseNatToString` reads it back |
| Decimal.MakeId | SQL_Generator.py:14 | the key `prefix + str(n).zfill(6)`; it has no contract of its own, and its partners are `IdNumberMakeId` (the number reads back) and `MakeIdInjective` |
| Decimal.IntToString | SQL_Generator.py:71 | Python's `str()` of an int is never empty; its partner `ParseIntToString` reads it back |
| Decimal.IdNumberMakeId | SQL_Generator.py:14 | the sequence number can be read back out of a generated key `prefix + str(n).zfill(6)` |
| Decimal.MakeIdInjective | SQL_Generator.py:21 | two generated keys with one prefix are equal exactly when their sequence numbers are |
| Text.Join | SQL_Generator.py:72 | `', '.join(...)` (here and at line 62); it has no contract of its own, and `JoinSplit`, `SplitJoin` and `ReadEncodedRow` state what a join reads back as |
| Text.Split | SQL_Generator.py:12 | `str.split(';')` gives at least one piece, and no piece contains the separator |
| Text.JoinSplit | SQL_Generator.py:12 | re-joining the pieces of `split(';')` with ';' gives back the artist field, including empty pieces |
| Text.SplitJoin | SQL_Generator.py:12 | splitting a join of separator-free names gives back exactly those names |
| Text.ConcatAppend | SQL_Generator.py:156-172 | the text of two batches of writes is the text of the first followed by that of the second |
| TableOps.Filter | SQL_Generator.py:8 | `dropna` keeps exactly the rows that pass the test and never adds rows |
| TableOps.FilterAppend | SQL_Generator.py:8 | `dropna` works row by row: the rows kept from `a + b` are those kept from `a`, in order, then those kept from `b`; with the one-row case this fixes the order and multiplicity of the kept rows |
| TableOps.FilterKeepsAll | SQL_Generator.py:35 | a `dropna` whose test every row passes leaves the table unchanged, as here and at line 47 on the cleaned rows, whose keys are never null |
| TableOps.Project | SQL_Generator.py:32-34 | a column selection `df[[...]]` (here and at lines 13, 20, 26, 40 and 45-46) keeps one row per input row, in order, each the selected fields of its row |
| TableOps.Explode | SQL_Generator.py:13 | `explode` yields exactly the (row, item) pairs of a row and an item of its list |
| TableOps.ExplodeAppend | SQL_Generator.py:13 | `explode` works row by row: the pairs of `a + b` are those of `a`, in order, then those of `b` |
| TableOps.ExplodeOne | SQL_Generator.py:13 | a single row explodes into `ExplodeRow`'s pairs, whose k-th pair is the row with its k-th item; with `ExplodeAppend` this fixes every pair's position |
| TableOps.DedupKeepFirst | SQL_Generator.py:9 | `drop_duplicates(subset=key)` keeps only input rows, loses no key, and leaves the keys pairwise distinct |
| TableOps.FirstIndices | SQL_Generator.py:9 | the positions of the first row of each key, strictly increasing, as an independent reference for keep='first' |
| TableOps.DedupKeepsFirstOccurrences | SQL_Generator.py:9 | keep-first de-duplication returns exactly the first row of each key, in original relative order |
| TableOps.FirstIndicesSameKeys | SQL_Generator.py:36 | two tables whose rows have the same keys, position by position, keep their first row of each key at the same positions |
| TableOps.DedupAfterFilter | SQL_Generator.py:8-9 | when the `dropna` test depends only on the key, dropping and then de-duplicating keeps the same rows, in the same order, as de-duplicating and then dropping |
| TableOps.DedupWholeMembers | SQL_Generator.py:13 | `drop_duplicates()` on whole rows keeps exactly the distinct rows |
| TableOps.InnerJoin | SQL_Generator.py:33 | an inner `merge` yields exactly the pairs of a left row and a right row with equal keys |
| TableOps.MatchesUnique | SQL_Generator.py:33 | against a right table with distinct keys, a left row whose key is present matches exactly one right row, with that key |
| TableOps.JoinOnUniqueKey | SQL_Generator.py:33 | when every left key occurs once on the right, the join keeps every left row in order and pairs it with its match |
| Normalizer.Clean | SQL_Generator.py:8-9 | keeps only input rows with no null key, with distinct key triples; which rows and in what order is `CleanIsFirstOfEachKey` |
| Normalizer.ExplodedNames | SQL_Generator.py:13 | the exploded artist column, row by row; it has no contract of its own, and `ArtistsCoverExplodedNames` and `ArtistsComeFromRows` relate it to Artists |
| Normalizer.AssignArtistIds | SQL_Generator.py:14-16 | the comprehension gives the name at position i the id "ART" + zfill(str(i+1), 6), one artist per name, in order |
| Normalizer.ArtistsTable | SQL_Generator.py:12-16 | the artist at position i has id "ART" + zfill(str(i+1), 6); its names are the `ArtistsInFirstSeenOrder` and `ArtistsDistinctAndNumbered` lemmas |
| Normalizer.AssignAlbumIds | SQL_Generator.py:21-22 | the comprehension gives the name at position i the id "ALB" + zfill(str(i+1), 6), one album per name, in order |
| Normalizer.AlbumsTable | SQL_Generator.py:20-22 | the album at position i has id "ALB" + zfill(str(i+1), 6); its names are the `AlbumsInFirstSeenOrder` and `AlbumsMatchRows` lemmas |
| Normalizer.AlbumArtistsTable | SQL_Generator.py:26-28 | the (album_id, artist_id) pairs are pairwise distinct; where they come from is `AlbumArtistsComeFromRows` and `AlbumArtistsCoverRows` |
| Normalizer.TracksTable | SQL_Generator.py:32-36 | (track_id, track_name) pairs are distinct and neither is null; which cleaned row each Tracks row is, and its album_id, is `TracksFirstPerIdName` |
| Normalizer.TrackArtistsTable | SQL_Generator.py:40-41 | the (track_id, artist_id) pairs are pairwise distinct; where they come from is `TrackArtistsComeFromRows` and `TrackArtistsCoverRows` |
| Normalizer.AudioFeaturesTable | SQL_Generator.py:45-48 | track_ids are non-null and pairwise distinct; which rows are kept is `AudioFeaturesFirstPerTrack` |
| Normalizer.Normalize | SQL_Generator.py:8-48 | builds the six tables from the cleaned rows; it has no contract of its own, and what it guarantees is stated by the NormalizerFacts and ScriptFacts lemmas on `Normalize(rows)` |
| Normalizer.ArtistNames | SQL_Generator.py:12-13 | every row contributes at least one artist name to the explode, so no row is dropped there |
| NormalizerFacts.CleanKeepsFirstNonNull | SQL_Generator.py:8-9 | cleaned rows have no null track_id, track_name or album_name, and their key triples are distinct; every non-null triple survives; the rows kept are the first of each triple, in order |
| NormalizerFacts.CleanIsFirstOfEachKey | SQL_Generator.py:8-9 | the cleaned rows are the input rows at the positions of the first row of each key triple, in input order, less those whose triple has a null |
| NormalizerFacts.FirstRowSurvives | SQL_Generator.py:8-9 | the first input row of every non-null key triple is kept by cleaning |
| NormalizerFacts.ArtistsDistinctAndNumbered | SQL_Generator.py:13-16 | artist names are pairwise distinct, the artist at position i has id "ART" + zfill(str(i+1), 6), and the ids are pairwise distinct |
| NormalizerFacts.ArtistsInFirstSeenOrder | SQL_Generator.py:13-14 | Artists is the first occurrence of each exploded name, in first-seen order, with consecutive ids |
| NormalizerFacts.ArtistsCoverExplodedNames | SQL_Generator.py:12-13 | every name of the exploded artist column has an Artists row |
| NormalizerFacts.ArtistsComeFromRows | SQL_Generator.py:12-13 | every Artists row carries a name of the exploded artist column |
| NormalizerFacts.NullArtistGetsId | SQL_Generator.py:8-14 | an input row with a missing artists cell that is the first row of its non-null key triple survives cleaning, and its null name gets an Artists row and id |
| NormalizerFacts.AlbumsDistinctAndNumbered | SQL_Generator.py:20-22 | album names are pairwise distinct, the album at position i has id "ALB" + zfill(str(i+1), 6), and the ids are pairwise distinct |
| NormalizerFacts.AlbumsInFirstSeenOrder | SQL_Generator.py:20-21 | Albums is the first occurrence of each album name of the cleaned rows, in first-seen order |
| NormalizerFacts.AlbumsMatchRows | SQL_Generator.py:20 | the album names of Albums are exactly those of the cleaned rows |
| NormalizerFacts.AlbumOfEachRowOnce | SQL_Generator.py:20-21 | the album name of every cleaned row occurs in Albums exactly once |
| NormalizerFacts.AlbumArtistsComeFromRows | SQL_Generator.py:26-28 | AlbumArtists pairs are distinct, and each is the album id of some row's album with the artist id of a name in that row's split artist list |
| NormalizerFacts.AlbumArtistsCoverRows | SQL_Generator.py:26-28 | every (row, artist name) pair of the explode has its AlbumArtists pair: the two joins lose nothing |
| NormalizerFacts.AlbumArtistOfPair | SQL_Generator.py:26-28 | the album id and artist id of any exploded (row, name) pair form an AlbumArtists row |
| NormalizerFacts.TracksComeFromRows | SQL_Generator.py:32-36 | (track_id, track_name) pairs of Tracks are distinct, and each Tracks row is a cleaned row's fields with the id Albums gives its album; `TracksFirstPerIdName` says which row |
| NormalizerFacts.JoinedInCleanOrder | SQL_Generator.py:33 | the inner join with Albums keeps every cleaned row in order, row i paired with the Albums row of its album name |
| NormalizerFacts.TracksFirstPerIdName | SQL_Generator.py:32-36 | Tracks is, in order, the first cleaned row of each (track_id, track_name), with the album_id Albums gives that row's album; a track under two albums keeps the earlier row's album, popularity, duration_ms and explicit |
| NormalizerFacts.TracksKeepEveryRow | SQL_Generator.py:33-36 | the inner join with Albums keeps every cleaned row, and every cleaned row's (track_id, track_name) is in Tracks |
| NormalizerFacts.TrackArtistsComeFromRows | SQL_Generator.py:40-41 | TrackArtists pairs are distinct, and each is a row's track_id with the artist id of a name in that row's split artist list |
| NormalizerFacts.TrackArtistsCoverRows | SQL_Generator.py:40-41 | every (row, artist name) pair of the explode has its TrackArtists pair |
| NormalizerFacts.TrackArtistsReferToTracks | SQL_Generator.py:40-41 | every TrackArtists track_id is the track_id of a Tracks row |
| NormalizerFacts.AudioFeaturesOnePerTrack | SQL_Generator.py:45-48 | AudioFeatures has no null track_id, its track_ids are distinct and exactly the non-null track_ids of the cleaned rows, and each row holds a cleaned row's features; `AudioFeaturesFirstPerTrack` says which row |
| NormalizerFacts.AudioFeaturesFirstPerTrack | SQL_Generator.py:45-48 | AudioFeatures is, in order, the track_id and features of the first cleaned row of each track_id |
| NormalizerFacts.TracksMatchAudioFeatures | SQL_Generator.py:32-48 | a track_id is in Tracks if and only if it has an AudioFeatures row, and that row is unique |
| SqlText.Escape | SQL_Generator.py:68 | `replace("'", "''")` never shortens the text; its inverse is `Undouble`, by `UndoubleEscape` and `EscapeUndouble` |
| SqlText.Encode | SQL_Generator.py:65-71 | the text of one value; it has no contract of its own, and `ReadEncoded` states what each kind of value reads back as |
| SqlText.EncodeAll | SQL_Generator.py:63-71 | `values_list` holds one text per value, in order, each the encoding of that value |
| SqlText.UndoubleEscape | SQL_Generator.py:68 | un-doubling the escaped text recovers the string, so the escaped text has no lone quote |
| SqlText.EscapeUndouble | SQL_Generator.py:68 | every text without a lone quote is the escape of what it un-doubles to |
| SqlText.EscapeAppend | SQL_Generator.py:68 | `replace("'", "''")` works character by character, so it distributes over concatenation |
| SqlText.ScanEscaped | SQL_Generator.py:69 | the literal body `'…'` of an escaped string ends exactly at its closing quote and reads back as the string |
| SqlText.EncodeOneQuote | SQL_Generator.py:65-71 | a string with one embedded quote, such as Don't Stop, is written 'Don''t Stop' |
| SqlText.IntTextIsBare | SQL_Generator.py:71 | `str()` of an int is an unquoted token other than NULL, with no delimiter in it |
| SqlText.ReadEncoded | SQL_Generator.py:65-71 | an encoded value reads back as NULL for a missing value, the same string for a string, and the unquoted `str()` text otherwise |
| SqlText.ReadEncodedRow | SQL_Generator.py:72-73 | the `", "`-joined values closed by ')' read back as the row's values, in order, stopping right after the ')' |
| Emitter.ArtistsFrame | SQL_Generator.py:15-16 | the INSERT columns are artist_id, artist_name; one value list per table row, each with one value per column |
| Emitter.AlbumsFrame | SQL_Generator.py:22 | the INSERT columns are album_id, album_name; one value list per table row, each with one value per column |
| Emitter.AlbumArtistsFrame | SQL_Generator.py:28 | the INSERT columns are album_id, artist_id; one value list per table row, each with one value per column |
| Emitter.TracksFrame | SQL_Generator.py:34 | the INSERT columns are track_id, track_name, album_id, popularity, duration_ms, explicit; one value list per table row, each with one value per column |
| Emitter.TrackArtistsFrame | SQL_Generator.py:41 | the INSERT columns are track_id, artist_id; one value list per table row, each with one value per column |
| Emitter.AudioFeaturesFrame | SQL_Generator.py:45-46 | the INSERT columns are track_id and the twelve features, as listed; one value list per table row, each with one value per column |
| Emitter.InsertStatement | SQL_Generator.py:62-73 | the line for one row; it has no contract of its own, and `InsertStatementReadsBack` states its layout and what its VALUES list reads back as |
| Emitter.Statements | SQL_Generator.py:60-74 | the lines for a whole table, one per row in row order; `ScriptFile.SaveInsertQueries` is proved to write exactly these |
| Emitter.Sections | SQL_Generator.py:156-172 | the six insert sections with their headers; `SectionsInOrder` states their order, tables and columns |
| Emitter.InsertStatementReadsBack | SQL_Generator.py:62-73 | an INSERT line starts with the table and the `", "`-joined columns, its VALUES list reads back as the row, and only " ON CONFLICT DO NOTHING;\n" follows |
| Emitter.EncodeValues | SQL_Generator.py:63-71 | the inner loop produces one text per value, in order, each the encoding of that value |
| Emitter.InsertQuery | SQL_Generator.py:61-73 | the loop body builds exactly the statement `InsertStatement` specifies for the row |
| Emitter.ScriptFile.constructor | SQL_Generator.py:77 | opening the file with 'w' starts from no writes and empty text |
| Emitter.ScriptFile.Write | SQL_Generator.py:74 | `file.write(s)` appends s to the writes, and the text grows by s |
| Emitter.ScriptFile.SaveInsertQueries | SQL_Generator.py:60-74 | exactly one statement per row is written, in row order, and nothing else |
| Emitter.ScriptFile.WriteSection | SQL_Generator.py:156-157 | a section writes its comment header and then its table's statements |
| Emitter.ScriptFile.WriteSections | SQL_Generator.py:156-172 | the sections are written one after the other, in order |
| Emitter.ScriptFile.WriteScript | SQL_Generator.py:79-172 | the file receives the table definitions, then the six insert sections in order, and its text grows by the script text |
| ScriptFacts.SectionsInOrder | SQL_Generator.py:156-172 | the insert sections are Artists, Albums, AlbumArtists, Tracks, TrackArtists and AudioFeatures, with the table names and columns of the source, each table once |
| ScriptFacts.SectionWritesTagged | SQL_Generator.py:156-172 | a section's writes are its header and then, one for one, the INSERT line of each (table, values) statement that the foreign-key lemmas reason about |
| ScriptFacts.SectionsWritesCount | SQL_Generator.py:156-172 | the insert part of the script holds one header per section and one line per such statement |
| ScriptFacts.ForeignKeyResolved | SQL_Generator.py:156-172 | when the parent section comes before the child section and every child value is in the parent, each child statement finds its parent row among the earlier statements |
| ScriptFacts.NormalizeKeepsReferences | SQL_Generator.py:98-131 | every foreign-key value the table definitions declare (AlbumArtists to Albums and Artists, Tracks to Albums, TrackArtists to Tracks and Artists) is present in the parent table |
| ScriptFacts.ScriptResolves | SQL_Generator.py:156-172 | in the six-section order, each of the five foreign keys is met by a statement written earlier |
| ScriptFacts.ForeignKeysInsertedFirst | SQL_Generator.py:156-172 | for any input, the script inserts every row a declared foreign key refers to before the row that refers to it |

## Left out

- Reading the input CSV (`pd.read_csv`), the six `to_csv` calls and every `files.download` (`SQL_Generator.py:5, 17, 23, 29, 37, 42, 49, 52-57, 175`) are file and notebook I/O. The model starts from the rows as a `seq<SourceRow>` and ends at the tables and the sequence of writes.
- `open(...)` and the closing of the file at the end of the `with` block (`SQL_Generator.py:77`) are not modelled. The file is the `ScriptFile` object, and its content is the concatenation of what was written.
- The table-definition text (`SQL_Generator.py:79-153`) is constant. It is the `ddl` parameter of `ScriptFile.WriteScript`, written before the insert sections. The twelve `f.write` calls there are modelled as one write of their concatenation. The file text is the same either way.
- Python's `str()` of floats and NumPy scalars is not computed. A `Num` cell carries its text.
- Emitter.InsertStatementReadsBack: requires every `Num` text to be an unquoted token other than `NULL` (`Readable`). This holds for `str()` of a float but is not proved, because float formatting is not modelled. SqlText.ReadEncodedRow and SqlText.ReadEncoded carry the same requirement.
- Column dtypes are not modelled. An integer column with a missing value becomes a float column in pandas, so it prints `65.0`. The model takes each cell as it comes.
- Row order of `merge` is taken as left-row order, then right-row order (current pandas). Older pandas versions group the result by key instead. The set of joined rows is the same, but the link tables may come out in a different order. In Tracks, the keep-first step at `SQL_Generator.py:36` runs on the merge output, so for a duplicated (track_id, track_name) under older pandas Tracks may keep a different row, with a different album_id.
- Database-side behaviour is not modelled: CHECK constraints, `NOT NULL`, `ON CONFLICT` and `ON DELETE CASCADE`. `ForeignKeysInsertedFirst` speaks of the order of the statements, not of a database running them.
- AudioFeatures declares no foreign key in the table definitions (`SQL_Generator.py:136-150`), so no insertion-order lemma is stated for it. Its track_ids are related to Tracks by `NormalizerFacts.TracksMatchAudioFeatures`.
- The artist delimiter is the constant `;` of the source (`Normalizer.ArtistDelimiter`). It is not configurable.
