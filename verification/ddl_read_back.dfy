/** Parsers for the texts the statement builders emit, used as their partners:
    reading a type clause, a quoted default, a date literal or an index column
    list back recovers what was written. */
module DdlReadBack {

  import opened Wrappers
  import opened Text
  import opened Schema
  import opened TypeMatch
  import opened Ddl

  /** A parsed type clause: the type named and its parenthesised numbers. */
  datatype TypeSpec = TypeSpec(dataType: DataType, params: seq<int>)

  /** Splits on commas (every piece kept, empty ones included). */
  function SplitCommas(s: string): (r: seq<string>)
    ensures |r| > 0
    decreases |s|
  {
    var k := Until(s, ',');
    if k == |s| then [s] else [s[..k]] + SplitCommas(s[k + 1..])
  }

  function ParseInts(pieces: seq<string>): Option<seq<int>> {
    if |pieces| == 0 then Some([])
    else
      var head := ParseInt(pieces[0]);
      var rest := ParseInts(pieces[1..]);
      if head.Some? && rest.Some? then Some([head.value] + rest.value) else None
  }

  /** Reads `NAME` or `NAME(n,...)` back. */
  function ParseTypeClause(s: string): Option<TypeSpec> {
    var k := Until(s, '(');
    if k == |s| then
      match ValueOf(s)
      case Some(t) => Some(TypeSpec(t, []))
      case None => None
    else if s[|s| - 1] != ')' || k + 1 > |s| - 1 then None
    else
      var t := ValueOf(s[..k]);
      var ps := ParseInts(SplitCommas(s[k + 1..|s| - 1]));
      if t.Some? && ps.Some? then Some(TypeSpec(t.value, ps.value)) else None
  }

  /** The type a clause names once the database has stored it. */
  function StoredType(t: DataType): DataType {
    match t
    case CLOB => LONGVARCHAR
    case BLOB => BINARY
    case _ => t
  }

  lemma ParseNameWithParams(t: DataType, body: string)
    requires ')' !in body
    ensures var s := TypeName(t) + "(" + body + ")";
      ParseTypeClause(s) == match ParseInts(SplitCommas(body))
        case Some(ps) => Some(TypeSpec(t, ps))
        case None => None
  {
    var s := TypeName(t) + "(" + body + ")";
    TypeNameLetters(t);
    assert '(' !in TypeName(t);
    UntilAfterPrefix(TypeName(t), '(', body + ")");
    assert s == TypeName(t) + "(" + (body + ")");
    var k := |TypeName(t)|;
    assert s[..k] == TypeName(t);
    assert s[k + 1..|s| - 1] == body;
    ValueOfTypeName(t);
  }

  lemma SplitTwo(a: string, b: string)
    requires ',' !in a && ',' !in b
    ensures SplitCommas(a + "," + b) == [a, b]
  {
    UntilAfterPrefix(a, ',', b);
    var s := a + "," + b;
    assert s[..|a|] == a;
    assert s[|a| + 1..] == b;
    UntilAbsent(b, ',');
  }

  lemma SplitOne(a: string)
    requires ',' !in a
    ensures SplitCommas(a) == [a]
  {
    UntilAbsent(a, ',');
  }

  lemma ParseIntsRendered(a: int, b: int)
    ensures ParseInts([IntToString(a)]) == Some([a])
    ensures ParseInts([IntToString(a), IntToString(b)]) == Some([a, b])
  {
    IntToStringRoundTrip(a);
    IntToStringRoundTrip(b);
    var one := [IntToString(b)];
    assert one[1..] == [];
    assert ParseInts(one) == Some([b] + []);
    assert [b] + [] == [b];
    var first := [IntToString(a)];
    assert first[1..] == [];
    assert ParseInts(first) == Some([a] + []);
    assert [a] + [] == [a];
    var two := [IntToString(a), IntToString(b)];
    assert two[1..] == one;
    assert ParseInts(two) == Some([a] + [b]);
    assert [a] + [b] == [a, b];
  }

  lemma SizedReadBack(t: DataType, length: int, scale: int)
    requires t in {NUMERIC, DECIMAL}
    ensures ParseTypeClause(TypeClause(t, length, scale)) == Some(TypeSpec(t, [length, scale]))
  {
    IntToStringHasNoComma(length);
    IntToStringHasNoComma(scale);
    var body := IntToString(length) + "," + IntToString(scale);
    assert TypeClause(t, length, scale) == TypeName(t) + "(" + body + ")";
    assert ')' !in body;
    ParseNameWithParams(t, body);
    SplitTwo(IntToString(length), IntToString(scale));
    ParseIntsRendered(length, scale);
  }

  lemma LengthReadBack(t: DataType, length: int, scale: int)
    requires t in {CHAR, VARCHAR}
    ensures ParseTypeClause(TypeClause(t, length, scale)) == Some(TypeSpec(t, [length]))
  {
    IntToStringHasNoComma(length);
    var body := IntToString(length);
    assert TypeClause(t, length, scale) == TypeName(t) + "(" + body + ")";
    ParseNameWithParams(t, body);
    SplitOne(body);
    ParseIntsRendered(length, scale);
  }

  lemma PlainReadBack(t: DataType, length: int, scale: int)
    requires t !in {NUMERIC, DECIMAL, CHAR, VARCHAR, OBJECT}
    ensures ParseTypeClause(TypeClause(t, length, scale)) == Some(TypeSpec(StoredType(t), []))
  {
    var s := TypeClause(t, length, scale);
    assert s == TypeName(StoredType(t));
    TypeNameLetters(StoredType(t));
    UntilAbsent(s, '(');
    ValueOfTypeName(StoredType(t));
  }

  /** Reading an emitted type clause back gives the stored type and exactly the
      numbers the type takes; the unnamed type yields nothing readable. */
  lemma TypeClauseReadBack(t: DataType, length: int, scale: int)
    ensures t == OBJECT ==> ParseTypeClause(TypeClause(t, length, scale)).None?
    ensures t in {NUMERIC, DECIMAL} ==>
      ParseTypeClause(TypeClause(t, length, scale)) == Some(TypeSpec(t, [length, scale]))
    ensures t in {CHAR, VARCHAR} ==>
      ParseTypeClause(TypeClause(t, length, scale)) == Some(TypeSpec(t, [length]))
    ensures t !in {NUMERIC, DECIMAL, CHAR, VARCHAR, OBJECT} ==>
      ParseTypeClause(TypeClause(t, length, scale)) == Some(TypeSpec(StoredType(t), []))
  {
    if t in {NUMERIC, DECIMAL} {
      SizedReadBack(t, length, scale);
    } else if t in {CHAR, VARCHAR} {
      LengthReadBack(t, length, scale);
    } else if t != OBJECT {
      PlainReadBack(t, length, scale);
    }
  }

  /** The column the database reports for a type clause: the type it stored and
      the numbers read back, other attributes as written. */
  function ReportedColumn(c: Column, spec: TypeSpec): Column {
    c.(dataType := spec.dataType,
       length := if |spec.params| >= 1 then spec.params[0] else c.length,
       scale := if |spec.params| >= 2 then spec.params[1] else c.scale)
  }

  /** Writing a column's type and reading it back yields a column the type
      equivalence accepts against the original. */
  lemma TypeClauseRoundTripIsEquivalent(c: Column)
    requires c.dataType != OBJECT
    ensures ParseTypeClause(TypeClause(c.dataType, c.length, c.scale)).Some?
    ensures EqualsType(c, ReportedColumn(c, ParseTypeClause(TypeClause(c.dataType, c.length, c.scale)).value))
  {
    TypeClauseReadBack(c.dataType, c.length, c.scale);
  }

  /** Removes the doubling of quotes; `None` on a lone quote. */
  function Undouble(s: string): (r: Option<string>)
  {
    if |s| == 0 then Some("")
    else if s[0] != '\'' then
      match Undouble(s[1..])
      case Some(rest) => Some([s[0]] + rest)
      case None => None
    else if |s| >= 2 && s[1] == '\'' then
      match Undouble(s[2..])
      case Some(rest) => Some("'" + rest)
      case None => None
    else None
  }

  lemma {:induction false} UndoubleDoubleQuotes(s: string)
    ensures Undouble(DoubleQuotes(s)) == Some(s)
  {
    if |s| > 0 {
      UndoubleDoubleQuotes(s[1..]);
      var d := DoubleQuotes(s);
      if s[0] == '\'' {
        assert d == "''" + DoubleQuotes(s[1..]);
        assert d[2..] == DoubleQuotes(s[1..]);
      } else {
        assert d == [s[0]] + DoubleQuotes(s[1..]);
        assert d[1..] == DoubleQuotes(s[1..]);
      }
      assert s == [s[0]] + s[1..];
    }
  }

  /** Reads a quoted string literal back. */
  function Unquote(s: string): Option<string> {
    if |s| >= 2 && s[0] == '\'' && s[|s| - 1] == '\'' then Undouble(s[1..|s| - 1]) else None
  }

  lemma QuoteStringRoundTrip(s: string)
    ensures Unquote(QuoteString(s)) == Some(s)
  {
    var q := QuoteString(s);
    assert q[1..|q| - 1] == DoubleQuotes(s);
    UndoubleDoubleQuotes(s);
  }

  /** Reads `"a", "b", ...` back into the names. */
  function ParseEscapedList(s: string): Option<seq<string>>
    decreases |s|
  {
    if |s| == 0 then Some([])
    else if s[0] != Delimiter then None
    else
      var k := Until(s[1..], Delimiter);
      if k == |s| - 1 then None
      else
        var name := s[1..1 + k];
        var rest := s[k + 2..];
        if |rest| == 0 then Some([name])
        else if |rest| > 2 && rest[..2] == ", " then
          match ParseEscapedList(rest[2..])
          case Some(names) => Some([name] + names)
          case None => None
        else None
  }

  /** One step of the list parser: an escaped name, then the end or `", "`. */
  lemma ParseEscapedListStep(n: string, tail: string)
    requires Delimiter !in n
    ensures |tail| == 0 ==> ParseEscapedList(Esc(n) + tail) == Some([n])
    ensures |tail| > 2 && tail[..2] == ", " && ParseEscapedList(tail[2..]).Some? ==>
      ParseEscapedList(Esc(n) + tail) == Some([n] + ParseEscapedList(tail[2..]).value)
  {
    var s := Esc(n) + tail;
    assert s[0] == Delimiter;
    var inner := s[1..];
    assert inner == n + [Delimiter] + tail;
    UntilAfterPrefix(n, Delimiter, tail);
    assert Until(inner, Delimiter) == |n|;
    assert s[1..1 + |n|] == n;
    assert s[|n| + 2..] == tail;
  }

  lemma EscapedListSingle(n: string)
    requires Delimiter !in n
    ensures ParseEscapedList(EscapedList([n])) == Some([n])
  {
    ParseEscapedListStep(n, "");
    assert Esc(n) + "" == Esc(n);
  }

  lemma EscapedListCons(names: seq<string>)
    requires |names| > 1 && Delimiter !in names[0]
    requires ParseEscapedList(EscapedList(names[1..])) == Some(names[1..])
    ensures ParseEscapedList(EscapedList(names)) == Some([names[0]] + names[1..])
  {
    var rest := EscapedList(names[1..]);
    assert |rest| > 0;
    var tail := ", " + rest;
    assert tail[..2] == ", " && tail[2..] == rest;
    assert EscapedList(names) == Esc(names[0]) + tail;
    ParseEscapedListStep(names[0], tail);
  }

  lemma ConsSplit(names: seq<string>)
    requires |names| > 0
    ensures [names[0]] + names[1..] == names
  {
  }

  lemma {:induction false} EscapedListRoundTrip(names: seq<string>)
    requires forall i :: 0 <= i < |names| ==> Delimiter !in names[i]
    ensures ParseEscapedList(EscapedList(names)) == Some(names)
  {
    if |names| == 1 {
      assert names == [names[0]];
      EscapedListSingle(names[0]);
    } else if |names| > 1 {
      assert forall i :: 0 <= i < |names[1..]| ==> names[1..][i] == names[i + 1];
      EscapedListRoundTrip(names[1..]);
      EscapedListCons(names);
      ConsSplit(names);
    }
  }

  /** An index definition's column list reads back as the index's columns. */
  lemma IndexDefinitionReadBack(index: Index)
    requires IsSupported(index)
    requires forall i :: 0 <= i < |index.columns| ==> Delimiter !in index.columns[i]
    ensures var d := IndexDefinition(index).value;
      var head := IndexKeyword(index.indexType) + " (";
      ParseEscapedList(d[|head|..|d| - 1]) == Some(index.columns)
  {
    EscapedListRoundTrip(index.columns);
  }

  /** A DATE default with a four-digit year reads back field by field. */
  lemma DateLiteralReadBack(d: DateTime)
    requires d.year < 10000 && d.month < 100 && d.day < 100
    ensures var s := DateLiteral(DATE, d);
      && |s| == 12 && s[0] == '\'' && s[5] == '-' && s[8] == '-' && s[11] == '\''
      && AllDigits(s[1..5]) && ParseNat(s[1..5]) == d.year
      && AllDigits(s[6..8]) && ParseNat(s[6..8]) == d.month
      && AllDigits(s[9..11]) && ParseNat(s[9..11]) == d.day
  {
    PadLength(d.year, 4);
    PadLength(d.month, 2);
    PadLength(d.day, 2);
    var s := DateLiteral(DATE, d);
    assert s == "'" + Pad(d.year, 4) + "-" + Pad(d.month, 2) + "-" + Pad(d.day, 2) + "'";
    assert s[1..5] == Pad(d.year, 4);
    assert s[6..8] == Pad(d.month, 2);
    assert s[9..11] == Pad(d.day, 2);
  }

  /** A TIME default with in-range fields reads back field by field. */
  lemma TimeLiteralReadBack(d: DateTime)
    requires d.hour < 100 && d.minute < 100 && d.second < 100
    ensures var s := DateLiteral(TIME, d);
      && |s| == 10 && s[0] == '\'' && s[3] == ':' && s[6] == ':' && s[9] == '\''
      && AllDigits(s[1..3]) && ParseNat(s[1..3]) == d.hour
      && AllDigits(s[4..6]) && ParseNat(s[4..6]) == d.minute
      && AllDigits(s[7..9]) && ParseNat(s[7..9]) == d.second
  {
    PadLength(d.hour, 2);
    PadLength(d.minute, 2);
    PadLength(d.second, 2);
    var s := DateLiteral(TIME, d);
    assert s == "'" + Pad(d.hour, 2) + ":" + Pad(d.minute, 2) + ":" + Pad(d.second, 2) + "'";
    assert s[1..3] == Pad(d.hour, 2);
    assert s[4..6] == Pad(d.minute, 2);
    assert s[7..9] == Pad(d.second, 2);
  }

  /** A TIMESTAMP default is the DATE text and the TIME text joined by a space. */
  lemma TimestampLiteralShape(d: DateTime)
    ensures var s := DateLiteral(TIMESTAMP, d);
      s == DateLiteral(DATE, d)[..|DateLiteral(DATE, d)| - 1] + " " + DateLiteral(TIME, d)[1..]
  {
    var a := DateLiteral(DATE, d);
    var b := DateLiteral(TIME, d);
    assert a[..|a| - 1] == "'" + DatePart(d);
    assert b[1..] == TimePart(d) + "'";
  }
}
