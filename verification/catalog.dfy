/** Catalog introspection: the folds over the rows of the engine's system views
    that rebuild table lists and per-table metadata. The queries themselves are
    not modelled; their result rows are the inputs. */
module Catalog {

  import opened Wrappers
  import opened Text
  import opened Sorting
  import opened Schema

  /** A text mentions only words made of its own characters. */
  lemma MentionsCharacters(s: string, w: string, c: char)
    requires Mentions(s, w) && c in w
    ensures c in s
  {
    var i :| 0 <= i <= |s| - |w| && Slice(s, i, |w|) == w;
    var k :| 0 <= k < |w| && w[k] == c;
    assert s[i + k] == Slice(s, i, |w|)[k];
  }

  lemma SomeTableType(types: set<TableType>)
    requires types != {}
    ensures TABLE in types || VIEW in types
  {
    var x :| x in types;
    assert x == TABLE || x == VIEW;
  }

  /** The parenthesised list built by appending the requested literals. */
  function TypeList(table: bool, view: bool): string {
    "("
      + (if table then "'TABLE'" else "")
      + (if table && view then " , " else "")
      + (if view then "'VIEW'" else "")
      + ")"
  }

  lemma {:induction false} TypeListMentions(table: bool, view: bool)
    requires table || view
    ensures table <==> Mentions(TypeList(table, view), "'TABLE'")
    ensures view <==> Mentions(TypeList(table, view), "'VIEW'")
    ensures TypeList(table, view)[0] == '(' && TypeList(table, view)[|TypeList(table, view)| - 1] == ')'
  {
    var r := TypeList(table, view);
    assert 'T' in "'TABLE'" && 'V' in "'VIEW'";
    if table && view {
      assert r == "('TABLE' , 'VIEW')";
      assert Slice(r, 1, 7) == "'TABLE'";
      assert Slice(r, 11, 6) == "'VIEW'";
    } else if table {
      assert r == "('TABLE')";
      assert Slice(r, 1, 7) == "'TABLE'";
      assert 'V' !in r;
      if Mentions(r, "'VIEW'") {
        MentionsCharacters(r, "'VIEW'", 'V');
      }
    } else {
      assert r == "('VIEW')";
      assert Slice(r, 1, 6) == "'VIEW'";
      assert 'T' !in r;
      if Mentions(r, "'TABLE'") {
        MentionsCharacters(r, "'TABLE'", 'T');
      }
    }
  }

  /** The parenthesised list of table-type literals for the `IN` filter; empty
      for an empty set of types (a null set behaves the same). */
  function TableTypeStatement(types: set<TableType>): (r: string)
    ensures types == {} <==> r == ""
    ensures TABLE in types <==> Mentions(r, "'TABLE'")
    ensures VIEW in types <==> Mentions(r, "'VIEW'")
    ensures types != {} ==> r[0] == '(' && r[|r| - 1] == ')'
    ensures TABLE in types && VIEW in types ==> r == "('TABLE' , 'VIEW')"
  {
    if types == {} then ""
    else
      SomeTableType(types);
      TypeListMentions(TABLE in types, VIEW in types);
      TypeList(TABLE in types, VIEW in types)
  }

  /** The listing query; its `IN` filter is left without a list when no type is
      requested. */
  function TableQuery(types: set<TableType>): (q: string)
    ensures EndsWith(q, TableTypeStatement(types))
  {
    var q := TableQueryHead + TableTypeStatement(types);
    ConcatEnds(TableQueryHead, TableTypeStatement(types));
    q
  }

  const TableQueryHead := "SELECT TABLE_SCHEM, TABLE_NAME, TABLE_TYPE FROM INFORMATION_SCHEMA.SYSTEM_TABLES WHERE TABLE_TYPE in "

  /** A query whose `IN` filter has no list: the engine refuses it. */
  predicate MissingInList(query: string) {
    EndsWith(query, " in ")
  }

  /** The query is refused exactly when no table type is requested. */
  lemma TableQueryRefused(types: set<TableType>)
    ensures MissingInList(TableQuery(types)) <==> types == {}
  {
    var q := TableQuery(types);
    if types == {} {
      assert q == TableQueryHead;
      assert q[|q| - 4..] == " in ";
    } else {
      var st := TableTypeStatement(types);
      assert q[|q| - 1] == st[|st| - 1] == ')';
    }
  }

  // ----- Table enumeration -----

  /** One row of the table listing. */
  datatype TableRow = TableRow(schema: string, name: string, tableType: string)

  function TableTypeOf(s: string): Option<TableType> {
    if s == "TABLE" then Some(TABLE) else if s == "VIEW" then Some(VIEW) else None
  }

  /** A row is listed when its type text names TABLE or VIEW and that type was asked for. */
  predicate Admits(row: TableRow, types: set<TableType>) {
    TableTypeOf(row.tableType).Some? && TableTypeOf(row.tableType).value in types
  }

  function InfoOf(row: TableRow): TableInfo
    requires TableTypeOf(row.tableType).Some?
  {
    TableInfo(TableTypeOf(row.tableType).value, row.schema, row.name)
  }

  /** The admitted rows as table infos, in catalog order. */
  function SelectTables(rows: seq<TableRow>, types: set<TableType>): (r: seq<TableInfo>)
    ensures |r| <= |rows|
    ensures forall x :: x in r <==> exists i :: 0 <= i < |rows| && Admits(rows[i], types) && InfoOf(rows[i]) == x
    ensures forall x :: x in r ==> x.tableType in types
  {
    if |rows| == 0 then []
    else
      var prefix := rows[..|rows| - 1];
      var last := rows[|rows| - 1];
      var r := SelectTables(prefix, types) + (if Admits(last, types) then [InfoOf(last)] else []);
      assert forall i :: 0 <= i < |prefix| ==> prefix[i] == rows[i];
      r
  }
  /** One info per admitted row, in catalog order: a single row gives its own
      info or nothing, and the rows' parts are selected independently. */
  lemma SelectTablesOne(row: TableRow, types: set<TableType>)
    ensures SelectTables([row], types) == if Admits(row, types) then [InfoOf(row)] else []
  {
    assert [row][..0] == [];
  }

  lemma {:induction false} SelectTablesAppend(a: seq<TableRow>, b: seq<TableRow>, types: set<TableType>)
    ensures SelectTables(a + b, types) == SelectTables(a, types) + SelectTables(b, types)
  {
    if |b| == 0 {
      assert a + b == a;
    } else {
      var front := b[..|b| - 1];
      var last := b[|b| - 1];
      assert (a + b)[..|a + b| - 1] == a + front;
      assert (a + b)[|a + b| - 1] == last;
      SelectTablesAppend(a, front, types);
      var tail := if Admits(last, types) then [InfoOf(last)] else [];
      assert SelectTables(a + b, types) == SelectTables(a + front, types) + tail;
      assert SelectTables(b, types) == SelectTables(front, types) + tail;
    }
  }


  /** The engine's error text is not modelled, only that the query fails. */
  const RefusedQuery := "query refused: IN without a list"

  /** The table listing: the admitted rows, sorted stably by the framework's
      order on table infos. The query fails, and so does the listing, when no
      type is requested. */
  function TableInfos(rows: seq<TableRow>, types: set<TableType>, le: (TableInfo, TableInfo) -> bool): (r: Result<seq<TableInfo>, string>)
    requires TotalPreorder(le)
    ensures r.Failure? <==> types == {}
    ensures r.Success? ==> Sorted(r.value, le)
    ensures r.Success? ==> multiset(r.value) == multiset(SelectTables(rows, types))
    ensures r.Success? ==> forall x :: x in r.value <==> exists i :: 0 <= i < |rows| && Admits(rows[i], types) && InfoOf(rows[i]) == x
    ensures r.Success? ==> forall x :: Tied(r.value, x, le) == Tied(SelectTables(rows, types), x, le)
  {
    TableQueryRefused(types);
    if MissingInList(TableQuery(types)) then Failure(RefusedQuery)
    else
      var selected := SelectTables(rows, types);
      var r := InsertionSort(selected, le);
      InsertionSortStable(selected, le);
      assert forall x :: x in r <==> x in multiset(r);
      assert forall x :: x in selected <==> x in multiset(selected);
      Success(r)
  }

  // ----- Columns -----

  /** Column name and auto-increment flag from the zero-row projection's result metadata. */
  datatype ResultColumn = ResultColumn(name: string, autoIncrement: bool)

  /** The name-to-flag map; a later column of the same name overwrites an earlier one. */
  function AutoIncrementMap(meta: seq<ResultColumn>): (m: map<string, bool>)
    ensures forall n :: n in m <==> exists i :: 0 <= i < |meta| && meta[i].name == n
  {
    if |meta| == 0 then map[]
    else
      var prefix := meta[..|meta| - 1];
      var last := meta[|meta| - 1];
      assert forall i :: 0 <= i < |prefix| ==> prefix[i] == meta[i];
      AutoIncrementMap(prefix)[last.name := last.autoIncrement]
  }

  /** A name's flag comes from its last occurrence among the result columns. */
  lemma {:induction false} AutoIncrementLastWins(meta: seq<ResultColumn>, i: nat)
    requires i < |meta|
    requires forall j :: i < j < |meta| ==> meta[j].name != meta[i].name
    ensures meta[i].name in AutoIncrementMap(meta)
    ensures AutoIncrementMap(meta)[meta[i].name] == meta[i].autoIncrement
  {
    var prefix := meta[..|meta| - 1];
    if i < |meta| - 1 {
      assert prefix[i] == meta[i];
      AutoIncrementLastWins(prefix, i);
    }
  }

  /** One row of the column catalog: name, default (a text "NULL" stands for
      none), resolved type, size, decimal digits and the nullability text. */
  datatype ColumnRow = ColumnRow(
    name: string,
    defaultValue: Option<Value>,
    dataType: DataType,
    size: int,
    digits: int,
    isNullable: Option<string>)

  function ColumnFromRow(table: TableInfo, autoIncrement: map<string, bool>, row: ColumnRow): (c: Column)
    ensures c.tableName == table.name && c.name == row.name && c.caption == ""
    ensures c.dataType == row.dataType && c.length == row.size && c.scale == row.digits
    ensures row.defaultValue == Some(Text("NULL")) ==> c.defaultValue.None?
    ensures row.defaultValue != Some(Text("NULL")) ==> c.defaultValue == row.defaultValue
    ensures c.nullable <==> row.isNullable == Some("YES")
    ensures c.autoIncrement <==> row.name in autoIncrement && autoIncrement[row.name]
  {
    Column(
      table.name,
      row.name,
      "",
      row.dataType,
      row.size,
      row.digits,
      if row.defaultValue == Some(Text("NULL")) then None else row.defaultValue,
      row.isNullable == Some("YES"),
      row.name in autoIncrement && autoIncrement[row.name])
  }

  function ColumnsOf(table: TableInfo, autoIncrement: map<string, bool>, rows: seq<ColumnRow>): (r: seq<Column>)
    ensures |r| == |rows|
    ensures forall i :: 0 <= i < |rows| ==> r[i] == ColumnFromRow(table, autoIncrement, rows[i])
  {
    if |rows| == 0 then []
    else [ColumnFromRow(table, autoIncrement, rows[0])] + ColumnsOf(table, autoIncrement, rows[1..])
  }

  // ----- Primary key -----

  datatype PkRow = PkRow(column: string, pkName: string)

  datatype PrimaryKey = PrimaryKey(columns: set<string>, name: string)

  /** Collects key columns and keeps the name of the last row seen. */
  function PkFold(rows: seq<PkRow>, acc: PrimaryKey): (pk: PrimaryKey)
    ensures pk.columns == acc.columns + (set r | r in rows :: r.column)
    ensures |rows| == 0 ==> pk.name == acc.name
    ensures |rows| > 0 ==> pk.name == rows[|rows| - 1].pkName
  {
    if |rows| == 0 then acc
    else
      var pk := PkFold(rows[1..], PrimaryKey(acc.columns + {rows[0].column}, rows[0].pkName));
      assert (set r | r in rows :: r.column) == {rows[0].column} + (set r | r in rows[1..] :: r.column) by {
        assert forall r :: r in rows <==> r == rows[0] || r in rows[1..] by {
          assert rows == [rows[0]] + rows[1..];
        }
      }
      pk
  }

  const DefaultPrimaryKeyName := "PRIMARY_KEY"

  function PrimaryKeyOf(rows: seq<PkRow>): (pk: PrimaryKey)
    ensures pk.columns == set r | r in rows :: r.column
    ensures pk.columns == {} <==> |rows| == 0
    ensures |rows| == 0 ==> pk.name == DefaultPrimaryKeyName
    ensures |rows| > 0 ==> pk.name == rows[|rows| - 1].pkName
  {
    var pk := PkFold(rows, PrimaryKey({}, DefaultPrimaryKeyName));
    assert |rows| > 0 ==> rows[0].column in pk.columns;
    pk
  }

  // ----- Indices -----

  datatype IndexRow = IndexRow(indexName: Option<string>, column: Option<string>, nonUnique: bool)

  /** The grouping key of an index: name and kind. */
  datatype IndexInfo = IndexInfo(name: string, indexType: IndexType)

  /** A row counts when it names both an index and a column outside the primary key. */
  predicate Kept(row: IndexRow, pkColumns: set<string>) {
    row.indexName.Some? && row.column.Some? && row.column.value !in pkColumns
  }

  function GroupKey(row: IndexRow): IndexInfo
    requires row.indexName.Some?
  {
    IndexInfo(row.indexName.value, if row.nonUnique then NORMAL else UNIQUE)
  }

  /** The columns the rows contribute to the group `k`. */
  ghost function GroupOf(rows: seq<IndexRow>, pkColumns: set<string>, k: IndexInfo): set<string> {
    set r | r in rows && Kept(r, pkColumns) && GroupKey(r) == k :: r.column.value
  }

  function AddIndexRow(m: map<IndexInfo, set<string>>, pkColumns: set<string>, row: IndexRow): map<IndexInfo, set<string>> {
    if !Kept(row, pkColumns) then m
    else
      var k := GroupKey(row);
      m[k := (if k in m then m[k] else {}) + {row.column.value}]
  }

  lemma GroupOfCons(rows: seq<IndexRow>, pkColumns: set<string>, k: IndexInfo)
    requires |rows| > 0
    ensures GroupOf(rows, pkColumns, k) ==
      (if Kept(rows[0], pkColumns) && GroupKey(rows[0]) == k then {rows[0].column.value} else {})
      + GroupOf(rows[1..], pkColumns, k)
  {
    assert forall r :: r in rows <==> r == rows[0] || r in rows[1..] by {
      assert rows == [rows[0]] + rows[1..];
    }
  }

  /** Folding in the first row and then the rest gives the groups of all rows. */
  lemma IndexGroupsStep(m: map<IndexInfo, set<string>>, pkColumns: set<string>, rows: seq<IndexRow>, r: map<IndexInfo, set<string>>)
    requires |rows| > 0
    requires forall k :: k in r <==> k in AddIndexRow(m, pkColumns, rows[0]) || GroupOf(rows[1..], pkColumns, k) != {}
    requires forall k :: k in r ==>
      r[k] == (if k in AddIndexRow(m, pkColumns, rows[0]) then AddIndexRow(m, pkColumns, rows[0])[k] else {})
              + GroupOf(rows[1..], pkColumns, k)
    ensures forall k :: k in r <==> k in m || GroupOf(rows, pkColumns, k) != {}
    ensures forall k :: k in r ==> r[k] == (if k in m then m[k] else {}) + GroupOf(rows, pkColumns, k)
  {
    var m' := AddIndexRow(m, pkColumns, rows[0]);
    forall k
      ensures k in r <==> k in m || GroupOf(rows, pkColumns, k) != {}
    {
      GroupOfCons(rows, pkColumns, k);
    }
    forall k | k in r
      ensures r[k] == (if k in m then m[k] else {}) + GroupOf(rows, pkColumns, k)
    {
      GroupOfCons(rows, pkColumns, k);
    }
  }

  /** Groups the kept rows by (name, kind) on top of the entries already in `m`. */
  function IndexGroups(m: map<IndexInfo, set<string>>, pkColumns: set<string>, rows: seq<IndexRow>): (r: map<IndexInfo, set<string>>)
    ensures forall k :: k in r <==> k in m || GroupOf(rows, pkColumns, k) != {}
    ensures forall k :: k in r ==> r[k] == (if k in m then m[k] else {}) + GroupOf(rows, pkColumns, k)
    decreases |rows|
  {
    if |rows| == 0 then m
    else
      var r := IndexGroups(AddIndexRow(m, pkColumns, rows[0]), pkColumns, rows[1..]);
      IndexGroupsStep(m, pkColumns, rows, r);
      r
  }

  // ----- Per-table assembly -----

  /** Which optional parts of the metadata were requested. */
  datatype Flags = Flags(indices: bool, rowCount: bool)

  /** `TableMetaData` as introspection returns it: the index array is the
      map's entries in hash order, so the model keeps the map itself. */
  datatype CatalogTable = CatalogTable(
    info: TableInfo,
    columns: seq<Column>,
    indexGroups: map<IndexInfo, set<string>>,
    rowCount: RowCount)

  /** The primary key's own group, present when it has columns. */
  function PkGroup(pk: PrimaryKey): map<IndexInfo, set<string>> {
    if pk.columns != {} then map[IndexInfo(pk.name, PRIMARY_KEY) := pk.columns] else map[]
  }

  /** Index rows never form a primary key group. */
  lemma GroupOfPrimaryKey(rows: seq<IndexRow>, pkColumns: set<string>, k: IndexInfo)
    requires k.indexType == PRIMARY_KEY
    ensures GroupOf(rows, pkColumns, k) == {}
  {
  }

  /** Grouping the index rows on top of the primary key's group keeps that
      group as it is and adds only non-empty groups disjoint from the key. */
  lemma IndexGroupsAfterKey(pk: PrimaryKey, rows: seq<IndexRow>)
    ensures (exists k :: k in IndexGroups(PkGroup(pk), pk.columns, rows) && k.indexType == PRIMARY_KEY) <==> pk.columns != {}
    ensures var groups := IndexGroups(PkGroup(pk), pk.columns, rows);
      pk.columns != {} ==> IndexInfo(pk.name, PRIMARY_KEY) in groups && groups[IndexInfo(pk.name, PRIMARY_KEY)] == pk.columns
    ensures var groups := IndexGroups(PkGroup(pk), pk.columns, rows);
      forall k :: k in groups && k.indexType != PRIMARY_KEY ==> groups[k] != {} && groups[k] !! pk.columns
    ensures var groups := IndexGroups(PkGroup(pk), pk.columns, rows);
      forall k: IndexInfo :: k.indexType != PRIMARY_KEY ==> (k in groups <==> GroupOf(rows, pk.columns, k) != {})
    ensures var groups := IndexGroups(PkGroup(pk), pk.columns, rows);
      forall k :: k in groups && k.indexType != PRIMARY_KEY ==> groups[k] == GroupOf(rows, pk.columns, k)
    ensures var groups := IndexGroups(PkGroup(pk), pk.columns, rows);
      forall k :: k in groups && k.indexType == PRIMARY_KEY ==> k.name == pk.name
  {
    var groups := IndexGroups(PkGroup(pk), pk.columns, rows);
    if pk.columns != {} {
      assert IndexInfo(pk.name, PRIMARY_KEY) in groups;
    }
    forall k | k in groups && k.indexType == PRIMARY_KEY
      ensures k in PkGroup(pk)
    {
      GroupOfPrimaryKey(rows, pk.columns, k);
    }
  }

  /** The index groups of one table: none unless indices are requested;
      otherwise the primary key (when it has columns) and the other indices,
      which never repeat a primary key column. */
  function IndexGroupsOf(indices: bool, pkRows: seq<PkRow>, indexRows: seq<IndexRow>): (groups: map<IndexInfo, set<string>>)
    ensures !indices ==> groups == map[]
    ensures (exists k :: k in groups && k.indexType == PRIMARY_KEY) <==> indices && |pkRows| > 0
    ensures indices && |pkRows| > 0 ==>
      var pk := PrimaryKeyOf(pkRows);
      IndexInfo(pk.name, PRIMARY_KEY) in groups && groups[IndexInfo(pk.name, PRIMARY_KEY)] == pk.columns
    ensures forall k :: k in groups && k.indexType != PRIMARY_KEY ==>
      groups[k] != {} && groups[k] !! PrimaryKeyOf(pkRows).columns
    ensures indices ==> forall k: IndexInfo :: k.indexType != PRIMARY_KEY ==>
      (k in groups <==> GroupOf(indexRows, PrimaryKeyOf(pkRows).columns, k) != {})
    ensures indices ==> forall k :: k in groups && k.indexType != PRIMARY_KEY ==>
      groups[k] == GroupOf(indexRows, PrimaryKeyOf(pkRows).columns, k)
    ensures forall k :: k in groups && k.indexType == PRIMARY_KEY ==> k.name == PrimaryKeyOf(pkRows).name
  {
    if !indices then map[]
    else
      var pk := PrimaryKeyOf(pkRows);
      IndexGroupsAfterKey(pk, indexRows);
      IndexGroups(PkGroup(pk), pk.columns, indexRows)
  }

  /** Assembles one table's metadata from the rows of its catalog queries.
      `countRow` is the first row of the COUNT(*) query, if there was one. */
  function TableMetaDataOf(
    info: TableInfo,
    flags: Flags,
    resultColumns: seq<ResultColumn>,
    columnRows: seq<ColumnRow>,
    pkRows: seq<PkRow>,
    indexRows: seq<IndexRow>,
    countRow: Option<int>): (t: CatalogTable)
    ensures t.info == info
    ensures t.columns == ColumnsOf(info, AutoIncrementMap(resultColumns), columnRows)
    ensures t.indexGroups == IndexGroupsOf(flags.indices, pkRows, indexRows)
    ensures !flags.rowCount ==> t.rowCount == UnknownRowCount
    ensures flags.rowCount ==> t.rowCount == (if countRow.Some? then RowCount(countRow.value) else UnknownRowCount)
  {
    var count := if flags.rowCount && countRow.Some? then RowCount(countRow.value) else UnknownRowCount;
    CatalogTable(info, ColumnsOf(info, AutoIncrementMap(resultColumns), columnRows), IndexGroupsOf(flags.indices, pkRows, indexRows), count)
  }
}
