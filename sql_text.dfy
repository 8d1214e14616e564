/** The SQL text of cell values, and a reader for it.

    A string becomes a character string literal: enclosed in single quotes,
    with each quote inside doubled (the quote-symbol rule of section 5.3 of
    ISO/IEC 9075-2). The reader below follows that rule, so the lemmas here
    show that what the emitter writes reads back as the values it encodes. */
module SqlText {
  import opened Wrappers
  import opened Cells
  import opened Decimal
  import opened Text

  /** `s.replace("'", "''")`. */
  function Escape(s: string): (r: string)
    ensures |r| >= |s|
  {
    if s == [] then [] else (if s[0] == '\'' then "''" else [s[0]]) + Escape(s[1..])
  }

  /** Un-doubling: each "''" becomes one quote; a lone quote is rejected. */
  function Undouble(t: string): Option<string>
    decreases |t|
  {
    if t == [] then Some([])
    else if t[0] == '\'' then
      if |t| >= 2 && t[1] == '\'' then
        match Undouble(t[2..])
        case None => None
        case Some(s) => Some("'" + s)
      else None
    else
      match Undouble(t[1..])
      case None => None
      case Some(s) => Some([t[0]] + s)
  }

  /** Un-doubling recovers the escaped string; in particular the escaped text
      has no lone quote. */
  lemma {:induction false} UndoubleEscape(s: string)
    ensures Undouble(Escape(s)) == Some(s)
  {
    if s != [] {
      UndoubleEscape(s[1..]);
      var e := Escape(s);
      if s[0] == '\'' {
        assert e == "''" + Escape(s[1..]);
        assert e[2..] == Escape(s[1..]);
        assert "'" + s[1..] == s;
      } else {
        assert e == [s[0]] + Escape(s[1..]);
        assert e[1..] == Escape(s[1..]);
        assert [s[0]] + s[1..] == s;
      }
    }
  }

  /** Every text without a lone quote is the escape of what it un-doubles to. */
  lemma {:induction false} EscapeUndouble(t: string)
    requires Undouble(t).Some?
    ensures Escape(Undouble(t).value) == t
    decreases |t|
  {
    if t != [] {
      var s := Undouble(t).value;
      if t[0] == '\'' {
        EscapeUndouble(t[2..]);
        assert s == "'" + Undouble(t[2..]).value;
        assert s[1..] == Undouble(t[2..]).value;
        assert t == "''" + t[2..];
      } else {
        EscapeUndouble(t[1..]);
        assert s == [t[0]] + Undouble(t[1..]).value;
        assert s[1..] == Undouble(t[1..]).value;
        assert t == [t[0]] + t[1..];
      }
    }
  }

  /** Reads a character string literal whose opening quote is already consumed:
      a doubled quote stands for one quote and a lone quote ends the literal.
      Gives the string and the text after the closing quote. */
  function ScanLiteralBody(t: string): (r: Option<(string, string)>)
    ensures r.Some? ==> |r.value.1| < |t|
    decreases |t|
  {
    if t == [] then None
    else if t[0] == '\'' then
      if |t| >= 2 && t[1] == '\'' then
        match ScanLiteralBody(t[2..])
        case None => None
        case Some(p) => Some(("'" + p.0, p.1))
      else Some(([], t[1..]))
    else
      match ScanLiteralBody(t[1..])
      case None => None
      case Some(p) => Some(([t[0]] + p.0, p.1))
  }

  /** The literal body of an escaped string ends exactly at the quote written
      after it, and reads back as the string. */
  lemma {:induction false} ScanEscaped(s: string, rest: string)
    requires rest == [] || rest[0] != '\''
    ensures ScanLiteralBody(Escape(s) + "'" + rest) == Some((s, rest))
  {
    var t := Escape(s) + "'" + rest;
    if s == [] {
      assert t == "'" + rest;
      assert t[1..] == rest;
    } else {
      ScanEscaped(s[1..], rest);
      var tail := Escape(s[1..]) + "'" + rest;
      if s[0] == '\'' {
        assert t == "''" + tail;
        assert t[2..] == tail;
        assert "'" + s[1..] == s;
      } else {
        assert t == [s[0]] + tail;
        assert t[1..] == tail;
        assert [s[0]] + s[1..] == s;
      }
    }
  }

  /** Python's `str()` of a bool. */
  function BoolText(b: bool): string {
    if b then "True" else "False"
  }

  /** The SQL text of one value: NULL for a missing value, a quoted literal
      for a string, and `str(x)` for anything else. */
  function Encode(c: Cell): string {
    match c
    case Null => "NULL"
    case Str(s) => "'" + Escape(s) + "'"
    case Int(i) => IntToString(i)
    case Bool(b) => BoolText(b)
    case Num(text) => text
  }

  function EncodeAll(row: seq<Cell>): (values: seq<string>)
    ensures |values| == |row| && forall i :: 0 <= i < |row| ==> values[i] == Encode(row[i])
  {
    seq(|row|, i requires 0 <= i < |row| => Encode(row[i]))
  }

  /** Escaping works character by character, so it distributes over concatenation. */
  lemma {:induction false} EscapeAppend(a: string, b: string)
    ensures Escape(a + b) == Escape(a) + Escape(b)
  {
    if a != [] {
      assert (a + b)[1..] == a[1..] + b;
      EscapeAppend(a[1..], b);
    } else {
      assert a + b == b;
    }
  }

  /** A string without a quote is its own escape. */
  lemma {:induction false} EscapeNoQuote(s: string)
    requires '\'' !in s
    ensures Escape(s) == s
  {
    if s != [] {
      EscapeNoQuote(s[1..]);
      assert [s[0]] + s[1..] == s;
    }
  }

  /** A string with one embedded quote, such as `Don't Stop`, is written with
      that quote doubled: 'Don''t Stop'. */
  lemma EncodeOneQuote(a: string, b: string)
    requires '\'' !in a && '\'' !in b
    ensures Encode(Str(a + "'" + b)) == "'" + a + "''" + b + "'"
  {
    var s := a + "'" + b;
    assert Escape(s) == a + ("''" + b) by {
      assert s == a + ("'" + b);
      EscapeAppend(a, "'" + b);
      EscapeAppend("'", b);
      EscapeNoQuote(a);
      EscapeNoQuote(b);
      assert Escape("'") == "''" by {
        assert "'"[1..] == [];
      }
    }
  }

  // ---------------------------------------------------------------------------
  // Reading a VALUES list back

  /** What a reader sees in a VALUES list: the NULL keyword, a string literal,
      or some other unquoted token (a number or a boolean). */
  datatype SqlValue = SqlNull | SqlString(s: string) | SqlBare(text: string)

  /** The token a cell should read back as. */
  function ValueOf(c: Cell): SqlValue {
    match c
    case Null => SqlNull
    case Str(s) => SqlString(s)
    case Int(i) => SqlBare(IntToString(i))
    case Bool(b) => SqlBare(BoolText(b))
    case Num(text) => SqlBare(text)
  }

  predicate IsDelimiter(c: char) {
    c == ',' || c == ')'
  }

  /** Text that stands as an unquoted token: not empty, not opening a literal,
      no delimiter inside. */
  predicate IsBareText(w: string) {
    |w| >= 1 && w[0] != '\'' && forall i :: 0 <= i < |w| ==> !IsDelimiter(w[i])
  }

  /** A cell whose text can be told apart from its neighbours: the text of a
      floating-point value must be a bare token other than NULL (the texts of
      Python's `str()` of a float are). */
  predicate Readable(c: Cell) {
    c.Num? ==> IsBareText(c.text) && c.text != "NULL"
  }

  /** The length of the unquoted token at the start of `t`. */
  function BareLength(t: string): (n: nat)
    ensures n <= |t|
  {
    if t == [] || IsDelimiter(t[0]) then 0 else 1 + BareLength(t[1..])
  }

  function ReadValue(t: string): (r: Option<(SqlValue, string)>)
    ensures r.Some? ==> |r.value.1| < |t|
  {
    if t == [] then None
    else if t[0] == '\'' then
      match ScanLiteralBody(t[1..])
      case None => None
      case Some(p) => Some((SqlString(p.0), p.1))
    else
      var n := BareLength(t);
      if n == 0 then None
      else Some((if t[..n] == "NULL" then SqlNull else SqlBare(t[..n]), t[n..]))
  }

  /** Reads "v1, v2, ..., vn)" (at least one value) and gives the values and
      the text after the closing parenthesis. */
  function ReadValues(t: string): Option<(seq<SqlValue>, string)>
    decreases |t|
  {
    match ReadValue(t)
    case None => None
    case Some(p) =>
      var rest := p.1;
      if |rest| >= 1 && rest[0] == ')' then Some(([p.0], rest[1..]))
      else if |rest| >= 2 && rest[0] == ',' && rest[1] == ' ' then
        match ReadValues(rest[2..])
        case None => None
        case Some(q) => Some(([p.0] + q.0, q.1))
      else None
  }

  lemma {:induction false} BareLengthOf(w: string, after: string)
    requires forall i :: 0 <= i < |w| ==> !IsDelimiter(w[i])
    requires |after| >= 1 && IsDelimiter(after[0])
    ensures BareLength(w + after) == |w|
  {
    if w != [] {
      assert (w + after)[1..] == w[1..] + after;
      BareLengthOf(w[1..], after);
    } else {
      assert w + after == after;
    }
  }

  lemma IntTextIsBare(i: int)
    ensures IsBareText(IntToString(i)) && IntToString(i) != "NULL"
  {
    var s := IntToString(i);
    if i < 0 {
      assert s[1..] == NatToString(-i);
      forall k | 0 <= k < |s| ensures !IsDelimiter(s[k]) {
        if k > 0 { assert s[k] == NatToString(-i)[k - 1]; }
      }
    }
    assert IsDigit(s[0]) || s[0] == '-';
  }

  /** An unquoted token followed by a delimiter reads back as NULL or as
      that token. */
  lemma ReadBare(w: string, after: string)
    requires IsBareText(w)
    requires |after| >= 1 && IsDelimiter(after[0])
    ensures ReadValue(w + after) == Some((if w == "NULL" then SqlNull else SqlBare(w), after))
  {
    var t := w + after;
    BareLengthOf(w, after);
    assert t[0] == w[0];
    assert t[..|w|] == w && t[|w|..] == after;
  }

  /** A quoted literal followed by a delimiter reads back as its string. */
  lemma ReadQuoted(s: string, after: string)
    requires |after| >= 1 && IsDelimiter(after[0])
    ensures ReadValue(Encode(Str(s)) + after) == Some((SqlString(s), after))
  {
    var t := Encode(Str(s)) + after;
    assert t[0] == '\'';
    assert t[1..] == Escape(s) + "'" + after;
    ScanEscaped(s, after);
  }

  /** One encoded value followed by a delimiter reads back as its token. */
  lemma ReadEncoded(c: Cell, after: string)
    requires Readable(c)
    requires |after| >= 1 && IsDelimiter(after[0])
    ensures ReadValue(Encode(c) + after) == Some((ValueOf(c), after))
  {
    match c
    case Str(s) =>
      ReadQuoted(s, after);
    case Null =>
      assert IsBareText("NULL");
      ReadBare("NULL", after);
    case Int(i) =>
      IntTextIsBare(i);
      ReadBare(IntToString(i), after);
    case Bool(b) =>
      assert IsBareText(BoolText(b)) && BoolText(b) != "NULL";
      ReadBare(BoolText(b), after);
    case Num(w) =>
      ReadBare(w, after);
  }

  /** The tokens a row should read back as, in order. */
  function ValuesOf(row: seq<Cell>): (vs: seq<SqlValue>)
    ensures |vs| == |row| && forall i :: 0 <= i < |row| ==> vs[i] == ValueOf(row[i])
  {
    seq(|row|, i requires 0 <= i < |row| => ValueOf(row[i]))
  }

  lemma ValuesOfCons(row: seq<Cell>)
    requires |row| >= 1
    ensures [ValueOf(row[0])] + ValuesOf(row[1..]) == ValuesOf(row)
  {
    var l, r := [ValueOf(row[0])] + ValuesOf(row[1..]), ValuesOf(row);
    assert |l| == |r|;
    forall i | 0 <= i < |l| ensures l[i] == r[i] {
      if i > 0 {
        assert l[i] == ValuesOf(row[1..])[i - 1];
      }
    }
  }

  /** A value followed by ')' ends the list. */
  lemma ReadValuesLast(t: string, v: SqlValue, rest: string)
    requires ReadValue(t) == Some((v, ")" + rest))
    ensures ReadValues(t) == Some(([v], rest))
  {
    assert (")" + rest)[1..] == rest;
  }

  /** A value followed by ", " is the head of the list read after it. */
  lemma ReadValuesNext(t: string, v: SqlValue, tail: string, vs: seq<SqlValue>, rest: string)
    requires ReadValue(t) == Some((v, ", " + tail))
    requires ReadValues(tail) == Some((vs, rest))
    ensures ReadValues(t) == Some(([v] + vs, rest))
  {
    assert (", " + tail)[2..] == tail;
  }

  /** The ", "-joined encoding of a row, closed by ')', reads back as the
      row's tokens, in order, and stops right after the ')'. */
  lemma {:induction false} ReadEncodedRow(row: seq<Cell>, rest: string)
    requires |row| >= 1
    requires forall i :: 0 <= i < |row| ==> Readable(row[i])
    ensures ReadValues(Join(EncodeAll(row), ", ") + ")" + rest) == Some((ValuesOf(row), rest))
  {
    var parts := EncodeAll(row);
    var t := Join(parts, ", ") + ")" + rest;
    if |row| == 1 {
      assert ReadValue(t) == Some((ValueOf(row[0]), ")" + rest)) by {
        assert t == Encode(row[0]) + (")" + rest);
        ReadEncoded(row[0], ")" + rest);
      }
      ReadValuesLast(t, ValueOf(row[0]), rest);
      assert ValuesOf(row) == [ValueOf(row[0])];
    } else {
      var tail := Join(EncodeAll(row[1..]), ", ") + ")" + rest;
      assert ReadValue(t) == Some((ValueOf(row[0]), ", " + tail)) by {
        assert t == Encode(row[0]) + (", " + tail) by {
          assert parts[1..] == EncodeAll(row[1..]);
        }
        ReadEncoded(row[0], ", " + tail);
      }
      assert ReadValues(tail) == Some((ValuesOf(row[1..]), rest)) by {
        ReadEncodedRow(row[1..], rest);
      }
      ReadValuesNext(t, ValueOf(row[0]), tail, ValuesOf(row[1..]), rest);
      ValuesOfCons(row);
    }
  }
}
