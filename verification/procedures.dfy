/** Stored-procedure introspection: classifying each procedure's return
    flavour from the routine catalog and collecting its parameters from the
    procedure-column catalog. */
module Procedures {

  import opened Wrappers
  import opened Schema

  datatype Flavor = VOID | TYPE | RESULT_SET | UNKNOWN

  datatype ParamDirection = IN | OUT | IN_OUT

  datatype Param = Param(direction: ParamDirection, name: string, dataType: DataType)

  datatype StoredProcedure = StoredProcedure(
    flavor: Flavor,
    returnType: Option<DataType>,
    name: string,
    description: string,
    params: seq<Param>)

  /** JDBC procedure kinds (`java.sql.DatabaseMetaData`). */
  const ProcedureNoResult := 1
  const ProcedureReturnsResult := 2

  /** JDBC procedure column kinds (`java.sql.DatabaseMetaData`). */
  const ColumnIn := 1
  const ColumnInOut := 2
  const ColumnResult := 3
  const ColumnOut := 4
  const ColumnReturn := 5

  /** A joined row of the procedure and routine catalogs. */
  datatype ProcedureRow = ProcedureRow(name: string, remarks: string, procedureType: int, dataType: string)

  /** A row of the procedure-column catalog, its type code already resolved. */
  datatype ProcedureColumnRow = ProcedureColumnRow(columnName: string, columnType: int, dataType: DataType)

  // ----- String.split(",") -----

  /** The comma-separated pieces of a text, empty ones included. */
  function Pieces(s: string): (r: seq<string>)
    ensures |r| > 0
    decreases |s|
  {
    if ',' !in s then [s]
    else
      var k := FirstComma(s);
      [s[..k]] + Pieces(s[k + 1..])
  }

  function FirstComma(s: string): (k: nat)
    requires ',' in s
    ensures k < |s| && s[k] == ','
    ensures forall i :: 0 <= i < k ==> s[i] != ','
  {
    if s[0] == ',' then 0 else 1 + FirstComma(s[1..])
  }

  function DropTrailingEmpty(pieces: seq<string>): (r: seq<string>)
    ensures |r| <= |pieces|
    ensures r == pieces[..|r|]
    ensures |r| > 0 ==> r[|r| - 1] != ""
    ensures forall i :: |r| <= i < |pieces| ==> pieces[i] == ""
  {
    if |pieces| == 0 then []
    else if pieces[|pieces| - 1] == "" then DropTrailingEmpty(pieces[..|pieces| - 1])
    else pieces
  }

  /** The length of the array `s.split(",")` returns: a text without a comma is
      one piece; otherwise trailing empty pieces are removed. */
  function SplitLength(s: string): nat {
    if ',' !in s then 1 else |DropTrailingEmpty(Pieces(s))|
  }

  /** Some piece past the first is non-empty exactly when a non-comma character
      follows a comma. */
  predicate CommaThenValue(s: string) {
    exists i, j :: 0 <= i < j < |s| && s[i] == ',' && s[j] != ','
  }

  predicate SomeNonEmpty(pieces: seq<string>) {
    exists p :: p in pieces && p != ""
  }

  predicate HasValueChar(s: string) {
    exists j :: 0 <= j < |s| && s[j] != ','
  }

  lemma {:induction false} PiecesNonEmptyIffValue(s: string)
    ensures SomeNonEmpty(Pieces(s)) <==> HasValueChar(s)
    decreases |s|
  {
    if ',' !in s {
      assert Pieces(s) == [s];
      assert s in Pieces(s);
      if |s| > 0 {
        assert s[0] != ',';
      }
    } else {
      var k := FirstComma(s);
      var rest := s[k + 1..];
      var head := s[..k];
      PiecesNonEmptyIffValue(rest);
      assert Pieces(s) == [head] + Pieces(rest);
      if HasValueChar(s) {
        var j :| 0 <= j < |s| && s[j] != ',';
        if j < k {
          assert head != "" && head in Pieces(s);
        } else {
          assert rest[j - k - 1] == s[j];
          var p :| p in Pieces(rest) && p != "";
          assert p in Pieces(s);
        }
      }
      if SomeNonEmpty(Pieces(s)) {
        var p :| p in Pieces(s) && p != "";
        if p == head {
          assert s[0] == head[0] && s[0] != ',';
        } else {
          assert p in Pieces(rest);
          var j :| 0 <= j < |rest| && rest[j] != ',';
          assert s[k + 1 + j] == rest[j];
        }
      }
    }
  }

  lemma LaterPieceIffCommaThenValue(s: string)
    requires ',' in s
    ensures SomeNonEmpty(Pieces(s)[1..]) <==> CommaThenValue(s)
  {
    var k := FirstComma(s);
    var rest := s[k + 1..];
    assert Pieces(s)[1..] == Pieces(rest);
    PiecesNonEmptyIffValue(rest);
    if HasValueChar(rest) {
      var j :| 0 <= j < |rest| && rest[j] != ',';
      assert s[k] == ',' && s[k + 1 + j] == rest[j];
    }
    if CommaThenValue(s) {
      var i, j :| 0 <= i < j < |s| && s[i] == ',' && s[j] != ',';
      assert k <= i;
      assert rest[j - k - 1] == s[j];
    }
  }

  lemma DropTrailingLength(pieces: seq<string>)
    requires |pieces| > 0
    ensures |DropTrailingEmpty(pieces)| > 1 <==> SomeNonEmpty(pieces[1..])
  {
    var r := DropTrailingEmpty(pieces);
    if |r| > 1 {
      assert r[|r| - 1] == pieces[|r| - 1] && pieces[|r| - 1] in pieces[1..];
    }
    if SomeNonEmpty(pieces[1..]) {
      var p :| p in pieces[1..] && p != "";
      var i :| 0 <= i < |pieces[1..]| && pieces[1..][i] == p;
      assert pieces[i + 1] != "";
    }
  }

  /** `dataType.split(",").length > 1` holds exactly when some comma is followed,
      anywhere later, by a character other than a comma. */
  lemma SplitLengthAboveOne(s: string)
    ensures SplitLength(s) > 1 <==> CommaThenValue(s)
  {
    if ',' in s {
      var pieces := Pieces(s);
      assert SplitLength(s) == |DropTrailingEmpty(pieces)|;
      LaterPieceIffCommaThenValue(s);
      DropTrailingLength(pieces);
    } else {
      assert !CommaThenValue(s);
    }
  }

  // ----- Catalog type-name spelling -----

  function Lower(c: char): char {
    if 'A' <= c <= 'Z' then (c as int + 32) as char else c
  }

  /** `equalsIgnoreCase` with ASCII case folding. */
  predicate EqualsIgnoreCase(a: string, b: string) {
    |a| == |b| && forall i :: 0 <= i < |a| ==> Lower(a[i]) == Lower(b[i])
  }

  /** Two texts a third one equals up to case agree up to case. */
  lemma IgnoreCaseAgree(s: string, a: string, b: string)
    ensures EqualsIgnoreCase(s, a) && EqualsIgnoreCase(s, b) && |a| > 0 ==> Lower(a[0]) == Lower(b[0])
  {
  }

  /** Rewrites the catalog's spellings `character`, `bit`, `other`, `datetime`
      and `int` (any case) into the framework's type names. */
  function ConvDataTypeString(s: string): (r: string)
    ensures EqualsIgnoreCase(s, "character") ==> r == "CHAR"
    ensures EqualsIgnoreCase(s, "bit") ==> r == "BOOLEAN"
    ensures EqualsIgnoreCase(s, "other") ==> r == "OBJECT"
    ensures EqualsIgnoreCase(s, "datetime") ==> r == "TIMESTAMP"
    ensures EqualsIgnoreCase(s, "int") ==> r == "INTEGER"
    ensures !IsCatalogSpelling(s) ==> r == s
  {
    IgnoreCaseAgree(s, "bit", "int");
    if EqualsIgnoreCase(s, "character") then "CHAR"
    else if EqualsIgnoreCase(s, "bit") then "BOOLEAN"
    else if EqualsIgnoreCase(s, "other") then "OBJECT"
    else if EqualsIgnoreCase(s, "datetime") then "TIMESTAMP"
    else if EqualsIgnoreCase(s, "int") then "INTEGER"
    else s
  }

  predicate IsCatalogSpelling(s: string) {
    || EqualsIgnoreCase(s, "character") || EqualsIgnoreCase(s, "bit") || EqualsIgnoreCase(s, "other")
    || EqualsIgnoreCase(s, "datetime") || EqualsIgnoreCase(s, "int")
  }

  /** The rewritten spellings: none of them is itself a catalog spelling. */
  const Rewritten: seq<string> := ["CHAR", "BOOLEAN", "OBJECT", "TIMESTAMP", "INTEGER"]

  lemma RewrittenAreTypeNames()
    ensures forall i :: 0 <= i < |Rewritten| ==> !IsCatalogSpelling(Rewritten[i]) && ValueOf(Rewritten[i]).Some?
  {
    assert !EqualsIgnoreCase("TIMESTAMP", "character") by {
      assert Lower("TIMESTAMP"[0]) != Lower("character"[0]);
    }
    ValueOfTypeName(CHAR);
    ValueOfTypeName(BOOLEAN);
    ValueOfTypeName(OBJECT);
    ValueOfTypeName(TIMESTAMP);
    ValueOfTypeName(INTEGER);
  }

  /** Every rewritten spelling names a framework type, and rewriting twice is
      rewriting once. */
  lemma ConvDataTypeStringIdempotent(s: string)
    ensures ConvDataTypeString(ConvDataTypeString(s)) == ConvDataTypeString(s)
    ensures IsCatalogSpelling(s) ==> ValueOf(ConvDataTypeString(s)).Some?
  {
    if IsCatalogSpelling(s) {
      RewrittenAreTypeNames();
      assert ConvDataTypeString(s) in Rewritten;
    }
  }

  // ----- Classification -----

  /** The flavour and return type a procedure row announces before its columns
      are read; a single type name the framework does not know is an error. */
  function InitialFlavor(row: ProcedureRow): (r: Result<(Flavor, Option<DataType>), string>)
    ensures row.procedureType == ProcedureNoResult ==> r == Success((VOID, None))
    ensures row.procedureType !in {ProcedureNoResult, ProcedureReturnsResult} ==> r == Success((UNKNOWN, None))
    ensures row.procedureType == ProcedureReturnsResult && CommaThenValue(row.dataType) ==> r == Success((RESULT_SET, None))
    ensures row.procedureType == ProcedureReturnsResult && !CommaThenValue(row.dataType) ==>
      match ValueOf(ConvDataTypeString(row.dataType))
      case Some(t) => r == Success((TYPE, Some(t)))
      case None => r.Failure?
  {
    SplitLengthAboveOne(row.dataType);
    if row.procedureType == ProcedureNoResult then Success((VOID, None))
    else if row.procedureType == ProcedureReturnsResult then
      if SplitLength(row.dataType) > 1 then Success((RESULT_SET, None))
      else
        match ValueOf(ConvDataTypeString(row.dataType))
        case Some(t) => Success((TYPE, Some(t)))
        case None => Failure("No enum constant " + ConvDataTypeString(row.dataType))
    else Success((UNKNOWN, None))
  }

  datatype ColumnState = ColumnState(flavor: Flavor, returnType: Option<DataType>, params: seq<Param>)

  predicate IsParamKind(kind: int) {
    kind in {ColumnIn, ColumnOut, ColumnInOut}
  }

  predicate IsMarker(kind: int) {
    kind in {ColumnReturn, ColumnResult}
  }

  function ParamOf(col: ProcedureColumnRow): Param
    requires IsParamKind(col.columnType)
  {
    var direction := if col.columnType == ColumnIn then IN else if col.columnType == ColumnOut then OUT else IN_OUT;
    Param(direction, col.columnName, col.dataType)
  }

  function ApplyColumn(st: ColumnState, col: ProcedureColumnRow): ColumnState {
    if col.columnType == ColumnReturn then st.(flavor := TYPE, returnType := Some(col.dataType))
    else if col.columnType == ColumnResult then st.(flavor := RESULT_SET)
    else if IsParamKind(col.columnType) then st.(params := st.params + [ParamOf(col)])
    else st
  }

  /** Reference: the parameter columns in order, each as a parameter. */
  function ParamsOf(cols: seq<ProcedureColumnRow>): seq<Param> {
    if |cols| == 0 then []
    else (if IsParamKind(cols[0].columnType) then [ParamOf(cols[0])] else []) + ParamsOf(cols[1..])
  }

  lemma {:induction false} ParamsOfAppend(cols: seq<ProcedureColumnRow>, col: ProcedureColumnRow)
    ensures ParamsOf(cols + [col]) == ParamsOf(cols) + (if IsParamKind(col.columnType) then [ParamOf(col)] else [])
  {
    if |cols| > 0 {
      assert (cols + [col])[1..] == cols[1..] + [col];
      ParamsOfAppend(cols[1..], col);
    } else {
      assert [col][1..] == [];
    }
  }

  /** Reads the procedure's columns in catalog order. */
  function ApplyColumns(st: ColumnState, cols: seq<ProcedureColumnRow>): (r: ColumnState)
    ensures r.params == st.params + ParamsOf(cols)
  {
    if |cols| == 0 then st
    else
      var prefix := cols[..|cols| - 1];
      var last := cols[|cols| - 1];
      assert cols == prefix + [last];
      ParamsOfAppend(prefix, last);
      ApplyColumn(ApplyColumns(st, prefix), last)
  }

  /** Without Return or Result columns the announced flavour and type stay. */
  lemma {:induction false} ApplyColumnsWithoutMarker(st: ColumnState, cols: seq<ProcedureColumnRow>)
    requires forall i :: 0 <= i < |cols| ==> !IsMarker(cols[i].columnType)
    ensures ApplyColumns(st, cols).flavor == st.flavor
    ensures ApplyColumns(st, cols).returnType == st.returnType
  {
    if |cols| > 0 {
      ApplyColumnsWithoutMarker(st, cols[..|cols| - 1]);
    }
  }

  /** The last Return or Result column decides the flavour; a Return column
      also sets the return type. */
  lemma {:induction false} ApplyColumnsLastMarker(st: ColumnState, cols: seq<ProcedureColumnRow>, i: nat)
    requires i < |cols| && IsMarker(cols[i].columnType)
    requires forall j :: i < j < |cols| ==> !IsMarker(cols[j].columnType)
    ensures cols[i].columnType == ColumnReturn ==>
      ApplyColumns(st, cols).flavor == TYPE && ApplyColumns(st, cols).returnType == Some(cols[i].dataType)
    ensures cols[i].columnType == ColumnResult ==> ApplyColumns(st, cols).flavor == RESULT_SET
    ensures cols[i].columnType == ColumnResult ==>
      ApplyColumns(st, cols).returnType == ApplyColumns(st, cols[..i]).returnType
  {
    var prefix := cols[..|cols| - 1];
    if i < |cols| - 1 {
      ApplyColumnsLastMarker(st, prefix, i);
      assert prefix[..i] == cols[..i];
    } else {
      assert prefix == cols[..i];
    }
  }

  /** Without Return columns the announced return type stays, whatever Result
      columns change the flavour. */
  lemma {:induction false} ApplyColumnsWithoutReturn(st: ColumnState, cols: seq<ProcedureColumnRow>)
    requires forall i :: 0 <= i < |cols| ==> cols[i].columnType != ColumnReturn
    ensures ApplyColumns(st, cols).returnType == st.returnType
  {
    if |cols| > 0 {
      ApplyColumnsWithoutReturn(st, cols[..|cols| - 1]);
    }
  }

  /** What the marker columns leave in the state: nothing without a marker,
      the last marker's effect otherwise, and the starting return type when no
      column is a return value. */
  lemma ApplyColumnsSummary(st0: ColumnState, cols: seq<ProcedureColumnRow>)
    ensures var st := ApplyColumns(st0, cols);
      (forall i :: 0 <= i < |cols| ==> !IsMarker(cols[i].columnType)) ==>
        st.flavor == st0.flavor && st.returnType == st0.returnType
    ensures var st := ApplyColumns(st0, cols);
      forall i :: (0 <= i < |cols| && IsMarker(cols[i].columnType)
              && (forall j :: i < j < |cols| ==> !IsMarker(cols[j].columnType))) ==>
        && (cols[i].columnType == ColumnReturn ==> st.flavor == TYPE && st.returnType == Some(cols[i].dataType))
        && (cols[i].columnType == ColumnResult ==> st.flavor == RESULT_SET)
        && (cols[i].columnType == ColumnResult ==> st.returnType == ApplyColumns(st0, cols[..i]).returnType)
    ensures var st := ApplyColumns(st0, cols);
      (forall i :: 0 <= i < |cols| ==> cols[i].columnType != ColumnReturn) ==> st.returnType == st0.returnType
  {
    var st := ApplyColumns(st0, cols);
    if forall i :: 0 <= i < |cols| ==> !IsMarker(cols[i].columnType) {
      ApplyColumnsWithoutMarker(st0, cols);
    }
    forall i | 0 <= i < |cols| && IsMarker(cols[i].columnType)
          && (forall j :: i < j < |cols| ==> !IsMarker(cols[j].columnType))
      ensures cols[i].columnType == ColumnReturn ==> st.flavor == TYPE && st.returnType == Some(cols[i].dataType)
      ensures cols[i].columnType == ColumnResult ==> st.flavor == RESULT_SET
      ensures cols[i].columnType == ColumnResult ==> st.returnType == ApplyColumns(st0, cols[..i]).returnType
    {
      ApplyColumnsLastMarker(st0, cols, i);
    }
    if forall i :: 0 <= i < |cols| ==> cols[i].columnType != ColumnReturn {
      ApplyColumnsWithoutReturn(st0, cols);
    }
  }

  /** One procedure: its announced flavour, then its columns. */
  function ProcedureOf(row: ProcedureRow, cols: seq<ProcedureColumnRow>): (r: Result<StoredProcedure, string>)
    ensures r.Failure? <==> InitialFlavor(row).Failure?
    ensures r.Success? ==> r.value.name == row.name && r.value.description == row.remarks
    ensures r.Success? ==> r.value.params == ParamsOf(cols)
    ensures r.Success? && (forall i :: 0 <= i < |cols| ==> !IsMarker(cols[i].columnType)) ==>
      (r.value.flavor, r.value.returnType) == InitialFlavor(row).value
    ensures r.Success? ==> forall i :: (0 <= i < |cols| && IsMarker(cols[i].columnType)
              && (forall j :: i < j < |cols| ==> !IsMarker(cols[j].columnType))) ==>
      && (cols[i].columnType == ColumnReturn ==> r.value.flavor == TYPE && r.value.returnType == Some(cols[i].dataType))
      && (cols[i].columnType == ColumnResult ==> r.value.flavor == RESULT_SET)
      && (cols[i].columnType == ColumnResult ==>
            r.value.returnType == ApplyColumns(ColumnState(InitialFlavor(row).value.0, InitialFlavor(row).value.1, []), cols[..i]).returnType)
    ensures r.Success? && (forall i :: 0 <= i < |cols| ==> cols[i].columnType != ColumnReturn) ==>
      r.value.returnType == InitialFlavor(row).value.1
  {
    match InitialFlavor(row)
    case Failure(e) => Failure(e)
    case Success((flavor, returnType)) =>
      var st0 := ColumnState(flavor, returnType, []);
      var st := ApplyColumns(st0, cols);
      ApplyColumnsSummary(st0, cols);
      Success(StoredProcedure(st.flavor, st.returnType, row.name, row.remarks, st.params))
  }

  /** Columns of the procedure with this name; a name with no entry has none. */
  function ColumnsFor(columns: map<string, seq<ProcedureColumnRow>>, name: string): seq<ProcedureColumnRow> {
    if name in columns then columns[name] else []
  }

  /** All procedures in catalog order; the first failure aborts the listing. */
  function StoredProcedures(rows: seq<ProcedureRow>, columns: map<string, seq<ProcedureColumnRow>>): (r: Result<seq<StoredProcedure>, string>)
    ensures r.Success? <==> forall i :: 0 <= i < |rows| ==> ProcedureOf(rows[i], ColumnsFor(columns, rows[i].name)).Success?
    ensures r.Success? ==> |r.value| == |rows|
    ensures r.Success? ==> forall i :: 0 <= i < |rows| ==>
      r.value[i] == ProcedureOf(rows[i], ColumnsFor(columns, rows[i].name)).value
  {
    if |rows| == 0 then Success([])
    else
      var head := ProcedureOf(rows[0], ColumnsFor(columns, rows[0].name));
      var tail := StoredProcedures(rows[1..], columns);
      assert forall i :: 1 <= i < |rows| ==> rows[i] == rows[1..][i - 1];
      if head.Failure? then Failure(head.error)
      else if tail.Failure? then Failure(tail.error)
      else Success([head.value] + tail.value)
  }
}
