/** DDL text synthesis: the statements the adapter sends for creating and
    altering tables, columns and indices, as pure functions returning the SQL. */
module Ddl {

  import opened Wrappers
  import opened Text
  import opened Schema

  /** Types emitted by their name alone. */
  predicate Parameterless(t: DataType) {
    t in {TINYINT, SMALLINT, INTEGER, BIGINT, REAL, FLOAT, DOUBLE, DATE, TIME, TIMESTAMP,
          BOOLEAN, BINARY, VARBINARY, LONGVARCHAR, LONGVARBINARY}
  }

  /** The column type clause; the empty text for a type the adapter has no
      spelling for. */
  function TypeClause(t: DataType, length: int, scale: int): string {
    match t
    case NUMERIC | DECIMAL => TypeName(t) + "(" + IntToString(length) + "," + IntToString(scale) + ")"
    case CHAR | VARCHAR => TypeName(t) + "(" + IntToString(length) + ")"
    case CLOB => "LONGVARCHAR"
    case BLOB => "BINARY"
    case OBJECT => ""
    case _ => TypeName(t)
  }

  /** The type clause depends on length and scale only where the type takes them. */
  lemma TypeClauseParameters(t: DataType, l1: int, s1: int, l2: int, s2: int)
    ensures Parameterless(t) ==> TypeClause(t, l1, s1) == TypeName(t)
    ensures !(t in {NUMERIC, DECIMAL, CHAR, VARCHAR}) ==> TypeClause(t, l1, s1) == TypeClause(t, l2, s2)
    ensures t in {CHAR, VARCHAR} ==> TypeClause(t, l1, s1) == TypeClause(t, l1, s2)
    ensures t == CLOB ==> TypeClause(t, l1, s1) == "LONGVARCHAR"
    ensures t == BLOB ==> TypeClause(t, l1, s1) == "BINARY"
    ensures t == OBJECT ==> TypeClause(t, l1, s1) == ""
  {
  }

  lemma IntToStringHasNoComma(i: int)
    ensures ',' !in IntToString(i)
    ensures ')' !in IntToString(i)
  {
    var s := IntToString(i);
    if i < 0 {
      forall k | 1 <= k < |s|
        ensures IsDigit(s[k])
      {
        assert s[k] == s[1..][k - 1];
      }
    }
  }

  /** `'...'` with every inner `'` doubled. */
  function DoubleQuotes(s: string): (r: string)
    ensures |r| == |s| + Count(s, '\'')
  {
    if |s| == 0 then ""
    else (if s[0] == '\'' then "''" else [s[0]]) + DoubleQuotes(s[1..])
  }

  function QuoteString(s: string): (r: string)
    ensures |r| == |s| + 2 + Count(s, '\'')
    ensures r[0] == '\'' && r[|r| - 1] == '\''
  {
    "'" + DoubleQuotes(s) + "'"
  }

  function DatePart(d: DateTime): string {
    Pad(d.year, 4) + "-" + Pad(d.month, 2) + "-" + Pad(d.day, 2)
  }

  function TimePart(d: DateTime): string {
    Pad(d.hour, 2) + ":" + Pad(d.minute, 2) + ":" + Pad(d.second, 2)
  }

  /** A date default formatted per the column's temporal type
      (`yyyy-MM-dd`, `HH:mm:ss`, `yyyy-MM-dd HH:mm:ss`) and quoted; nothing for
      any other column type. */
  function DateLiteral(t: DataType, d: DateTime): (r: string)
    ensures r == "" <==> t !in {DATE, TIME, TIMESTAMP}
  {
    match t
    case DATE => "'" + DatePart(d) + "'"
    case TIME => "'" + TimePart(d) + "'"
    case TIMESTAMP => "'" + DatePart(d) + " " + TimePart(d) + "'"
    case _ => ""
  }

  /** The literal after `DEFAULT`; a null default is the NULL keyword. */
  function DefaultLiteral(v: Option<Value>, t: DataType): string {
    match v
    case None => "NULL"
    case Some(Text(s)) => QuoteString(s)
    case Some(Moment(d)) => DateLiteral(t, d)
    case Some(Other(text)) => text
  }

  function NullClause(nullable: bool): string {
    if nullable then " NULL" else " NOT NULL"
  }

  const Identity := " GENERATED BY DEFAULT AS IDENTITY"
  const DefaultKeyword := " DEFAULT "

  /** A DEFAULT clause is written unless the column is auto-increment, or has no
      default and is not nullable. */
  predicate HasDefaultClause(c: Column) {
    !c.autoIncrement && !(c.defaultValue.None? && !c.nullable)
  }

  function ColumnDefinition(c: Column): (r: string)
    ensures StartsWith(r, TypeClause(c.dataType, c.length, c.scale))
    ensures EndsWith(r, NullClause(c.nullable))
    ensures StartsWith(r[|TypeClause(c.dataType, c.length, c.scale)|..], DefaultKeyword) <==> HasDefaultClause(c)
    ensures StartsWith(r[|TypeClause(c.dataType, c.length, c.scale)|..], Identity) <==> c.autoIncrement
  {
    var tc := TypeClause(c.dataType, c.length, c.scale);
    var middle :=
      if c.autoIncrement then Identity
      else if HasDefaultClause(c) then DefaultKeyword + DefaultLiteral(c.defaultValue, c.dataType)
      else "";
    var r := tc + middle + NullClause(c.nullable);
    var rest := r[|tc|..];
    assert rest == middle + NullClause(c.nullable);
    // The second character tells the three middles apart.
    assert c.autoIncrement ==> StartsWith(rest, Identity);
    assert !c.autoIncrement && HasDefaultClause(c) ==> StartsWith(rest, DefaultKeyword);
    assert !c.autoIncrement && !HasDefaultClause(c) ==> rest == " NOT NULL";
    PrefixesDiffer(rest, Identity, DefaultKeyword);
    PrefixesDiffer(rest, DefaultKeyword, Identity);
    PrefixesDiffer(rest, " NOT NULL", DefaultKeyword);
    PrefixesDiffer(rest, " NOT NULL", Identity);
    r
  }

  /** A text cannot start with two prefixes that differ in their second character. */
  lemma PrefixesDiffer(s: string, p: string, q: string)
    requires |p| > 1 && |q| > 1 && p[1] != q[1]
    ensures StartsWith(s, p) ==> !StartsWith(s, q)
  {
    if StartsWith(s, p) && |q| <= |s| {
      assert s[..|q|][1] == s[1] == s[..|p|][1];
    }
  }

  /** The four shapes of a column definition. */
  lemma ColumnDefinitionCases(c: Column)
    ensures var tc := TypeClause(c.dataType, c.length, c.scale);
      && (c.autoIncrement ==> ColumnDefinition(c) == tc + Identity + NullClause(c.nullable))
      && (!c.autoIncrement && c.defaultValue.None? && !c.nullable ==> ColumnDefinition(c) == tc + " NOT NULL")
      && (!c.autoIncrement && c.defaultValue.None? && c.nullable ==> ColumnDefinition(c) == tc + " DEFAULT NULL NULL")
      && (!c.autoIncrement && c.defaultValue.Some? ==>
            ColumnDefinition(c) == tc + DefaultKeyword + DefaultLiteral(c.defaultValue, c.dataType) + NullClause(c.nullable))
  {
  }

  /** A date default on a column that is not DATE, TIME or TIMESTAMP leaves the
      DEFAULT keyword with nothing after it. */
  lemma DateDefaultOnOtherType(c: Column, d: DateTime)
    requires !c.autoIncrement && c.defaultValue == Some(Moment(d))
    requires c.dataType !in {DATE, TIME, TIMESTAMP}
    ensures ColumnDefinition(c) == TypeClause(c.dataType, c.length, c.scale) + " DEFAULT " + NullClause(c.nullable)
  {
  }

  /** The escaped names, separated by `", "`. */
  function EscapedList(names: seq<string>): (r: string)
    ensures |names| == 0 <==> r == ""
  {
    if |names| == 0 then ""
    else if |names| == 1 then Esc(names[0])
    else Esc(names[0]) + (", " + EscapedList(names[1..]))
  }

  predicate IsSupported(index: Index) {
    index.indexType != NORMAL
  }

  const UnsupportedIndex := "Only primary keys and unique indices are supported."

  function IndexKeyword(k: IndexType): string {
    match k
    case PRIMARY_KEY => "PRIMARY KEY"
    case UNIQUE => "UNIQUE"
    case NORMAL => ""
  }

  /** `PRIMARY KEY (...)` or `UNIQUE (...)`; a NORMAL index is refused. */
  function IndexDefinition(index: Index): (r: Result<string, string>)
    ensures r.Failure? <==> !IsSupported(index)
    ensures r.Failure? ==> r.error == UnsupportedIndex
    ensures r.Success? ==>
      var head := IndexKeyword(index.indexType) + " (";
      && StartsWith(r.value, head)
      && EndsWith(r.value, ")")
      && |r.value| >= |head| + 1
      && r.value[|head|..|r.value| - 1] == EscapedList(index.columns)
  {
    if !IsSupported(index) then Failure(UnsupportedIndex)
    else
      var head := IndexKeyword(index.indexType) + " (";
      var s := head + EscapedList(index.columns) + ")";
      assert s[|head|..|s| - 1] == EscapedList(index.columns);
      Success(s)
  }

  function ColumnClause(c: Column): string {
    Esc(c.name) + " " + ColumnDefinition(c)
  }

  /** The texts in order, with `", "` between consecutive ones. */
  function Joined(parts: seq<string>): string {
    if |parts| == 0 then ""
    else if |parts| == 1 then parts[0]
    else parts[0] + ", " + Joined(parts[1..])
  }

  function ColumnClauseList(columns: seq<Column>): (r: seq<string>)
    ensures |r| == |columns|
    ensures forall i :: 0 <= i < |columns| ==> r[i] == ColumnClause(columns[i])
  {
    seq(|columns|, i requires 0 <= i < |columns| => ColumnClause(columns[i]))
  }

  /** The column part of CREATE TABLE: one clause per column, in table order. */
  function ColumnClauses(columns: seq<Column>): string {
    Joined(ColumnClauseList(columns))
  }

  /** `", " + definition` for each supported index, in order; others are skipped. */
  /** One index's part of CREATE TABLE: its definition after `, `, or nothing
      for an unsupported index. */
  function IndexClause(index: Index): string {
    if IsSupported(index) then ", " + IndexDefinition(index).value else ""
  }

  function IndexClauses(indices: seq<Index>): string {
    if |indices| == 0 then ""
    else IndexClause(indices[0]) + IndexClauses(indices[1..])
  }

  function SupportedOnly(indices: seq<Index>): (r: seq<Index>)
    ensures forall i :: 0 <= i < |r| ==> IsSupported(r[i])
    ensures forall x :: x in r <==> x in indices && IsSupported(x)
  {
    if |indices| == 0 then []
    else (if IsSupported(indices[0]) then [indices[0]] else []) + SupportedOnly(indices[1..])
  }

  lemma {:induction false} IndexClausesIgnoreUnsupported(indices: seq<Index>)
    ensures IndexClauses(indices) == IndexClauses(SupportedOnly(indices))
  {
    if |indices| > 0 {
      IndexClausesIgnoreUnsupported(indices[1..]);
      var rest := SupportedOnly(indices[1..]);
      if IsSupported(indices[0]) {
        assert SupportedOnly(indices) == [indices[0]] + rest;
        assert ([indices[0]] + rest)[1..] == rest;
      } else {
        assert SupportedOnly(indices) == [] + rest == rest;
      }
    }
  }

  function CreateTableHead(table: Table): string {
    "CREATE CACHED TABLE " + Esc(table.info.name) + " ("
  }

  function CreateTable(table: Table): (r: string)
    ensures StartsWith(r, "CREATE CACHED TABLE " + Esc(table.info.name) + " (")
    ensures EndsWith(r, ")")
    ensures |r| == |CreateTableHead(table)| + |ColumnClauses(table.columns)| + |IndexClauses(table.indices)| + 1
  {
    var head := CreateTableHead(table);
    var body := ColumnClauses(table.columns) + IndexClauses(table.indices);
    ConcatEnds(head, body);
    StartsWithAppend(head + body, head, ")");
    ConcatEnds(head + body, ")");
    head + body + ")"
  }

  lemma {:induction false} JoinedMention(parts: seq<string>, i: nat)
    requires i < |parts|
    ensures Mentions(Joined(parts), parts[i])
  {
    if |parts| == 1 {
      MentionsSelf(parts[0]);
    } else if i == 0 {
      MentionsSelf(parts[0]);
      MentionsWithin("", parts[0], ", ", parts[0]);
      MentionsWithin("", parts[0] + ", ", Joined(parts[1..]), parts[0]);
    } else {
      assert parts[1..][i - 1] == parts[i];
      JoinedMention(parts[1..], i - 1);
      MentionsWithin(parts[0] + ", ", Joined(parts[1..]), "", parts[i]);
    }
  }

  lemma ColumnClausesMention(columns: seq<Column>, i: nat)
    requires i < |columns|
    ensures Mentions(ColumnClauses(columns), ColumnClause(columns[i]))
  {
    JoinedMention(ColumnClauseList(columns), i);
  }

  lemma {:induction false} IndexClausesMention(indices: seq<Index>, i: nat)
    requires i < |indices| && IsSupported(indices[i])
    ensures Mentions(IndexClauses(indices), ", " + IndexDefinition(indices[i]).value)
  {
    var w := ", " + IndexDefinition(indices[i]).value;
    var head := IndexClause(indices[0]);
    if i == 0 {
      MentionsSelf(w);
      MentionsWithin("", w, IndexClauses(indices[1..]), w);
    } else {
      assert indices[1..][i - 1] == indices[i];
      IndexClausesMention(indices[1..], i - 1);
      MentionsWithin(head, IndexClauses(indices[1..]), "", w);
    }
  }

  /** Every column gets its definition in CREATE TABLE, and so does every
      supported index, after a comma. */
  lemma CreateTableListsEverything(table: Table)
    ensures forall i :: 0 <= i < |table.columns| ==> Mentions(CreateTable(table), ColumnClause(table.columns[i]))
    ensures forall i :: 0 <= i < |table.indices| && IsSupported(table.indices[i]) ==>
      Mentions(CreateTable(table), ", " + IndexDefinition(table.indices[i]).value)
  {
    var head := CreateTableHead(table);
    var cols := ColumnClauses(table.columns);
    var idx := IndexClauses(table.indices);
    assert CreateTable(table) == head + (cols + idx) + ")";
    forall i | 0 <= i < |table.columns|
      ensures Mentions(CreateTable(table), ColumnClause(table.columns[i]))
    {
      ColumnClausesMention(table.columns, i);
      MentionsWithin("", cols, idx, ColumnClause(table.columns[i]));
      MentionsWithin(head, cols + idx, "", ColumnClause(table.columns[i]));
      MentionsWithin("", head + (cols + idx), ")", ColumnClause(table.columns[i]));
    }
    forall i | 0 <= i < |table.indices| && IsSupported(table.indices[i])
      ensures Mentions(CreateTable(table), ", " + IndexDefinition(table.indices[i]).value)
    {
      var w := ", " + IndexDefinition(table.indices[i]).value;
      IndexClausesMention(table.indices, i);
      MentionsWithin(cols, idx, "", w);
      MentionsWithin(head, cols + idx, "", w);
      MentionsWithin("", head + (cols + idx), ")", w);
    }
  }

  lemma JoinedFirst(parts: seq<string>)
    requires |parts| > 0
    ensures StartsWith(Joined(parts), parts[0])
  {
    ConcatEnds(parts[0], "");
    assert parts[0] + "" == parts[0];
    if |parts| > 1 {
      ConcatEnds(parts[0], ", ");
      StartsWithAppend(parts[0] + ", ", parts[0], Joined(parts[1..]));
    }
  }

  lemma Assoc(a: string, b: string, c: string)
    ensures a + (b + c) == (a + b) + c
  {
  }

  lemma JoinedSplitFirst(parts: seq<string>)
    requires 1 < |parts|
    ensures Joined(parts) == Joined(parts[..1]) + (", " + Joined(parts[1..]))
  {
    assert parts[..1] == [parts[0]];
    Assoc(parts[0], ", ", Joined(parts[1..]));
  }

  /** The texts before `i`, a comma, and those from `i` on. */
  lemma {:induction false} JoinedSplit(parts: seq<string>, i: nat)
    requires 0 < i < |parts|
    ensures Joined(parts) == Joined(parts[..i]) + (", " + Joined(parts[i..]))
  {
    if i == 1 {
      JoinedSplitFirst(parts);
    } else {
      var rest := parts[1..];
      JoinedSplit(rest, i - 1);
      assert rest[..i - 1] == parts[..i][1..];
      assert rest[i - 1..] == parts[i..];
      var a, b := Joined(rest[..i - 1]), ", " + Joined(parts[i..]);
      assert Joined(parts[..i]) == parts[0] + ", " + a;
      Assoc(parts[0] + ", ", a, b);
    }
  }

  lemma IndexClausesFirst(indices: seq<Index>)
    requires |indices| > 0
    ensures IndexClauses(indices) == IndexClause(indices[0]) + IndexClauses(indices[1..])
  {
  }

  lemma {:induction false} IndexClausesSplit(indices: seq<Index>, j: nat)
    requires j <= |indices|
    ensures IndexClauses(indices) == IndexClauses(indices[..j]) + IndexClauses(indices[j..])
  {
    if j > 0 {
      var head := IndexClause(indices[0]);
      IndexClausesSplit(indices[1..], j - 1);
      assert indices[1..][..j - 1] == indices[..j][1..];
      assert indices[1..][j - 1..] == indices[j..];
      var a, b := IndexClauses(indices[..j][1..]), IndexClauses(indices[j..]);
      IndexClausesFirst(indices[..j]);
      assert indices[..j][0] == indices[0];
      Assoc(head, a, b);
    } else {
      assert indices[..0] == [] && indices[0..] == indices;
    }
  }

  /** Column `i`'s clause follows the head and the clauses of the columns
      before it, with `", "` between consecutive clauses. */
  lemma CreateTableColumnAt(table: Table, i: nat)
    requires i < |table.columns|
    ensures var clauses := ColumnClauseList(table.columns);
      StartsWith(CreateTable(table),
        CreateTableHead(table) + (Joined(clauses[..i]) + (if i > 0 then ", " else "") + ColumnClause(table.columns[i])))
  {
    var clauses := ColumnClauseList(table.columns);
    var head := CreateTableHead(table);
    var cols := ColumnClauses(table.columns);
    var idx := IndexClauses(table.indices);
    var sep := if i > 0 then ", " else "";
    var before := Joined(clauses[..i]);
    var w := clauses[i];
    JoinedFirst(clauses[i..]);
    assert clauses[i..][0] == w;
    if i > 0 {
      JoinedSplit(clauses, i);
      Assoc(before, sep, Joined(clauses[i..]));
    } else {
      assert clauses[..0] == [] && clauses[0..] == clauses;
      assert before + sep == "";
    }
    assert cols == (before + sep) + Joined(clauses[i..]);
    StartsWithExtend(before + sep, Joined(clauses[i..]), w);
    StartsWithAppend(cols, before + sep + w, idx);
    StartsWithExtend(head, cols + idx, before + sep + w);
    assert CreateTable(table) == (head + (cols + idx)) + ")";
    StartsWithAppend(head + (cols + idx), head + (before + sep + w), ")");
  }

  /** After all column clauses come the supported indices' clauses, in index
      order, each after `", "`. */
  lemma CreateTableIndexAt(table: Table, j: nat)
    requires j < |table.indices| && IsSupported(table.indices[j])
    ensures StartsWith(CreateTable(table),
      CreateTableHead(table) + (ColumnClauses(table.columns) + (IndexClauses(table.indices[..j]) + (", " + IndexDefinition(table.indices[j]).value))))
  {
    var indices := table.indices;
    var head := CreateTableHead(table);
    var cols := ColumnClauses(table.columns);
    var w := ", " + IndexDefinition(indices[j]).value;
    var before := IndexClauses(indices[..j]);
    var from := IndexClauses(indices[j..]);
    IndexClausesSplit(indices, j);
    assert indices[j..][0] == indices[j];
    assert from == w + IndexClauses(indices[j..][1..]);
    ConcatEnds(w, IndexClauses(indices[j..][1..]));
    StartsWithExtend(before, from, w);
    StartsWithExtend(cols, before + from, before + w);
    assert CreateTable(table) == (head + (cols + (before + from))) + ")";
    StartsWithExtend(head, cols + (before + from), cols + (before + w));
    StartsWithAppend(head + (cols + (before + from)), head + (cols + (before + w)), ")");
  }

  /** NORMAL indices never reach CREATE TABLE: dropping them changes nothing. */
  lemma CreateTableSkipsUnsupported(table: Table)
    ensures CreateTable(table) == CreateTable(table.(indices := SupportedOnly(table.indices)))
  {
    IndexClausesIgnoreUnsupported(table.indices);
  }

  function AlterPrefix(table: Table): string {
    "ALTER TABLE " + Esc(table.info.name)
  }

  /** What Java throws when a following column is given without the column to
      place the new one before. */
  const NullPointer := "NullPointerException"

  /** `ADD COLUMN`; a BEFORE clause naming `before` is written whenever `after`
      is given, and a missing `before` then fails as Java's null dereference does. */
  function AddColumn(table: Table, column: Column, before: Option<Column>, after: Option<Column>): (r: Result<string, string>)
    ensures r.Failure? <==> after.Some? && before.None?
    ensures r.Failure? ==> r.error == NullPointer
    ensures r.Success? ==> StartsWith(r.value, AlterPrefix(table) + " ADD COLUMN " + Esc(column.name) + " " + ColumnDefinition(column))
    ensures after.None? ==> r == Success(AlterPrefix(table) + " ADD COLUMN " + Esc(column.name) + " " + ColumnDefinition(column))
    ensures after.Some? && before.Some? ==>
      r == Success(AlterPrefix(table) + " ADD COLUMN " + Esc(column.name) + " " + ColumnDefinition(column) + (" BEFORE " + Esc(before.value.name)))
  {
    var base := AlterPrefix(table) + " ADD COLUMN " + Esc(column.name) + " " + ColumnDefinition(column);
    if after.None? then
      ConcatEnds(base, "");
      assert base + "" == base;
      Success(base)
    else if before.None? then Failure(NullPointer)
    else
      var clause := " BEFORE " + Esc(before.value.name);
      ConcatEnds(base, clause);
      Success(base + clause)
  }

  /** `ALTER COLUMN`: the existing column's name with the new column's definition. */
  function AlterColumn(table: Table, column: Column, existing: Column): (r: string)
    ensures StartsWith(r, AlterPrefix(table) + " ALTER COLUMN " + Esc(existing.name) + " ")
    ensures EndsWith(r, ColumnDefinition(column))
    ensures |r| == |AlterPrefix(table) + " ALTER COLUMN " + Esc(existing.name) + " "| + |ColumnDefinition(column)|
  {
    AlterPrefix(table) + " ALTER COLUMN " + Esc(existing.name) + " " + ColumnDefinition(column)
  }

  function DropColumn(table: Table, column: Column): (r: string)
    ensures StartsWith(r, AlterPrefix(table))
    ensures EndsWith(r, " DROP COLUMN " + Esc(column.name))
    ensures |r| == |AlterPrefix(table)| + |" DROP COLUMN " + Esc(column.name)|
  {
    AlterPrefix(table) + " DROP COLUMN " + Esc(column.name)
  }

  /** `ADD PRIMARY KEY|UNIQUE (...)`; no statement at all for a NORMAL index. */
  function CreateIndex(table: Table, index: Index): (r: Option<string>)
    ensures r.None? <==> !IsSupported(index)
    ensures r.Some? ==> r.value == AlterPrefix(table) + " ADD " + IndexDefinition(index).value
  {
    if !IsSupported(index) then None
    else Some(AlterPrefix(table) + " ADD " + IndexDefinition(index).value)
  }

  /** The constraint name used to drop an index: the primary-key pseudo name
      `PRIMARY_KEY` becomes `PK`. */
  function ValidIndexName(name: string): (r: string)
    ensures r != "PRIMARY_KEY"
    ensures name != "PRIMARY_KEY" ==> r == name
    ensures name == "PRIMARY_KEY" ==> r == "PK"
  {
    if name == "PRIMARY_KEY" then "PK" else name
  }

  lemma ValidIndexNameIdempotent(name: string)
    ensures ValidIndexName(ValidIndexName(name)) == ValidIndexName(name)
  {
  }

  function DropIndex(table: Table, index: Index): (r: string)
    ensures StartsWith(r, AlterPrefix(table) + " DROP CONSTRAINT ")
    ensures EndsWith(r, Esc(ValidIndexName(index.name)))
    ensures |r| == |AlterPrefix(table) + " DROP CONSTRAINT "| + |Esc(ValidIndexName(index.name))|
  {
    AlterPrefix(table) + " DROP CONSTRAINT " + Esc(ValidIndexName(index.name))
  }

  lemma DropPrimaryKeyOfOrders(table: Table, index: Index)
    requires table.info.name == "ORDERS"
    requires index.name == "PRIMARY_KEY"
    ensures DropIndex(table, index) == "ALTER TABLE \"ORDERS\" DROP CONSTRAINT \"PK\""
  {
  }
}
