/** Relationship inference: one-to-many relationships read off the exported
    foreign keys of each table, kept when both ends are among the inspected tables. */
module Relationships {

  import opened Wrappers
  import opened Text
  import opened Sorting
  import opened Schema

  datatype Cardinality = ONE | MANY

  datatype Entity = Entity(table: string, columns: seq<string>, cardinality: Cardinality)

  datatype Relationship = Relationship(principal: Entity, dependent: Entity)

  /** A row of the exported-key catalog of one table. */
  datatype ExportKeyRow = ExportKeyRow(pkTable: string, pkColumn: string, fkTable: string, fkColumn: string, keySeq: int)

  /** The key being collected: the tables of the latest row and the column lists
      gathered since the last emission. */
  datatype Accumulator = Accumulator(
    pkTable: Option<string>,
    fkTable: Option<string>,
    pkColumns: seq<string>,
    fkColumns: seq<string>)

  datatype Scan = Scan(model: seq<Relationship>, acc: Accumulator)

  const Empty := Accumulator(None, None, [], [])

  /** A one-to-many relationship between two inspected tables, with matching
      non-empty key column lists. */
  predicate WellFormed(rel: Relationship, tables: seq<string>) {
    && rel.principal.cardinality == ONE
    && rel.dependent.cardinality == MANY
    && |rel.principal.columns| == |rel.dependent.columns| > 0
    && rel.principal.table in tables
    && rel.dependent.table in tables
  }

  predicate AllWellFormed(model: seq<Relationship>, tables: seq<string>) {
    forall i :: 0 <= i < |model| ==> WellFormed(model[i], tables)
  }

  /** Emits the accumulated key when both of its tables are inspected, and only
      then clears the column lists; otherwise nothing changes. */
  function Flush(tables: seq<string>, acc: Accumulator): (r: Scan)
    requires |acc.pkColumns| == |acc.fkColumns| > 0
    ensures |r.model| <= 1
    ensures |r.model| == 1 <==>
      acc.pkTable.Some? && acc.fkTable.Some? && acc.pkTable.value in tables && acc.fkTable.value in tables
    ensures |r.model| == 1 ==>
      && r.model[0] == Relationship(Entity(acc.pkTable.value, acc.pkColumns, ONE), Entity(acc.fkTable.value, acc.fkColumns, MANY))
      && r.acc == acc.(pkColumns := [], fkColumns := [])
    ensures |r.model| == 0 ==> r.acc == acc
    ensures AllWellFormed(r.model, tables)
  {
    if acc.pkTable.Some? && acc.fkTable.Some? && acc.pkTable.value in tables && acc.fkTable.value in tables then
      var rel := Relationship(Entity(acc.pkTable.value, acc.pkColumns, ONE), Entity(acc.fkTable.value, acc.fkColumns, MANY));
      Scan([rel], acc.(pkColumns := [], fkColumns := []))
    else Scan([], acc)
  }

  /** One row: a sequence number of 1 with columns pending starts a new key. */
  function Step(tables: seq<string>, sc: Scan, row: ExportKeyRow): Scan
    requires |sc.acc.pkColumns| == |sc.acc.fkColumns|
  {
    var flushed := if row.keySeq == 1 && |sc.acc.pkColumns| > 0 then Flush(tables, sc.acc) else Scan([], sc.acc);
    var acc := flushed.acc;
    Scan(sc.model + flushed.model,
         Accumulator(Some(row.pkTable), Some(row.fkTable), acc.pkColumns + [row.pkColumn], acc.fkColumns + [row.fkColumn]))
  }

  function Fold(tables: seq<string>, rows: seq<ExportKeyRow>): (sc: Scan)
    ensures |sc.acc.pkColumns| == |sc.acc.fkColumns|
    ensures |rows| == 0 <==> |sc.acc.pkColumns| == 0
    ensures |rows| > 0 ==>
      sc.acc.pkTable == Some(rows[|rows| - 1].pkTable) && sc.acc.fkTable == Some(rows[|rows| - 1].fkTable)
    ensures AllWellFormed(sc.model, tables)
  {
    if |rows| == 0 then Scan([], Empty)
    else Step(tables, Fold(tables, rows[..|rows| - 1]), rows[|rows| - 1])
  }

  /** The relationships one table's exported keys yield: the rows in order, then
      one last flush of whatever is pending. */
  function ScanTable(tables: seq<string>, rows: seq<ExportKeyRow>): (model: seq<Relationship>)
    ensures AllWellFormed(model, tables)
  {
    var sc := Fold(tables, rows);
    if |sc.acc.pkColumns| > 0 then sc.model + Flush(tables, sc.acc).model else sc.model
  }

  /** Names of the TABLE-type infos, in the given order. */
  function TableNames(infos: seq<TableInfo>): (names: seq<string>)
    ensures forall n :: n in names <==> exists i :: 0 <= i < |infos| && infos[i].tableType == TABLE && infos[i].name == n
  {
    if |infos| == 0 then []
    else
      var prefix := infos[..|infos| - 1];
      var last := infos[|infos| - 1];
      assert forall i :: 0 <= i < |prefix| ==> prefix[i] == infos[i];
      TableNames(prefix) + (if last.tableType == TABLE then [last.name] else [])
  }

  lemma StrLeIsTotalPreorder()
    ensures TotalPreorder((a: string, b: string) => StrLe(a, b))
  {
    forall a: string, b: string
      ensures StrLe(a, b) || StrLe(b, a)
    {
      StrLeTotal(a, b);
    }
    forall a: string, b: string, c: string | StrLe(a, b) && StrLe(b, c)
      ensures StrLe(a, c)
    {
      StrLeTransitive(a, b, c);
    }
  }

  /** The inspected subset: TABLE names only, sorted as strings. */
  function Subset(infos: seq<TableInfo>): (tables: seq<string>)
    ensures Sorted(tables, (a: string, b: string) => StrLe(a, b))
    ensures multiset(tables) == multiset(TableNames(infos))
    ensures forall n :: n in tables <==> exists i :: 0 <= i < |infos| && infos[i].tableType == TABLE && infos[i].name == n
  {
    StrLeIsTotalPreorder();
    var names := TableNames(infos);
    var tables := InsertionSort(names, (a: string, b: string) => StrLe(a, b));
    assert forall n :: n in tables <==> n in multiset(tables);
    assert forall n :: n in names <==> n in multiset(names);
    tables
  }

  function RowsFor(exported: map<string, seq<ExportKeyRow>>, table: string): seq<ExportKeyRow> {
    if table in exported then exported[table] else []
  }

  /** The lists in order, one after another. */
  function Concat<T>(parts: seq<seq<T>>): seq<T> {
    if |parts| == 0 then [] else parts[0] + Concat(parts[1..])
  }

  lemma {:induction false} ConcatSnoc<T>(parts: seq<seq<T>>, last: seq<T>)
    ensures Concat(parts + [last]) == Concat(parts) + last
  {
    if |parts| == 0 {
      assert parts + [last] == [last];
      assert [last][1..] == [];
      assert last + [] == last;
    } else {
      assert (parts + [last])[1..] == parts[1..] + [last];
      ConcatSnoc(parts[1..], last);
      var h, m := parts[0], Concat(parts[1..]);
      assert h + (m + last) == (h + m) + last;
    }
  }

  /** What each visited table's exported keys yield, in visiting order. */
  function TableScans(tables: seq<string>, visit: seq<string>, exported: map<string, seq<ExportKeyRow>>): (scans: seq<seq<Relationship>>)
    ensures |scans| == |visit|
    ensures forall i :: 0 <= i < |visit| ==> scans[i] == ScanTable(tables, RowsFor(exported, visit[i]))
  {
    seq(|visit|, i requires 0 <= i < |visit| => ScanTable(tables, RowsFor(exported, visit[i])))
  }

  /** The relationships of the visited tables, table after table. */
  function ModelOver(tables: seq<string>, visit: seq<string>, exported: map<string, seq<ExportKeyRow>>): (model: seq<Relationship>)
    ensures AllWellFormed(model, tables)
    ensures model == Concat(TableScans(tables, visit, exported))
  {
    if |visit| == 0 then []
    else
      var prefix := visit[..|visit| - 1];
      var last := ScanTable(tables, RowsFor(exported, visit[|visit| - 1]));
      assert TableScans(tables, visit, exported) == TableScans(tables, prefix, exported) + [last];
      ConcatSnoc(TableScans(tables, prefix, exported), last);
      ModelOver(tables, prefix, exported) + last
  }

  /** The entity-relationship model of the given tables: each inspected table's
      exported keys, visited in sorted order. Every relationship is one-to-many
      between two inspected TABLE-type tables with matching key column lists. */
  function EntityRelationshipModel(infos: seq<TableInfo>, exported: map<string, seq<ExportKeyRow>>): (model: seq<Relationship>)
    ensures model == Concat(TableScans(Subset(infos), Subset(infos), exported))
    ensures forall i :: 0 <= i < |model| ==>
      && model[i].principal.cardinality == ONE
      && model[i].dependent.cardinality == MANY
      && |model[i].principal.columns| == |model[i].dependent.columns| > 0
      && (exists k :: 0 <= k < |infos| && infos[k].tableType == TABLE && infos[k].name == model[i].principal.table)
      && (exists k :: 0 <= k < |infos| && infos[k].tableType == TABLE && infos[k].name == model[i].dependent.table)
  {
    var tables := Subset(infos);
    ModelOver(tables, tables, exported)
  }

  // ----- Counting when every key stays inside the subset -----

  /** Rows that begin a key: the first one and every later one numbered 1. */
  function KeyStarts(rows: seq<ExportKeyRow>): nat {
    if |rows| == 0 then 0
    else KeyStarts(rows[..|rows| - 1]) + (if |rows| == 1 || rows[|rows| - 1].keySeq == 1 then 1 else 0)
  }

  function ColumnCount(model: seq<Relationship>): nat {
    if |model| == 0 then 0 else ColumnCount(model[..|model| - 1]) + |model[|model| - 1].principal.columns|
  }

  lemma ColumnCountAppend(a: seq<Relationship>, b: seq<Relationship>)
    ensures ColumnCount(a + b) == ColumnCount(a) + ColumnCount(b)
    decreases |b|
  {
    if |b| > 0 {
      assert (a + b)[..|a + b| - 1] == a + b[..|b| - 1];
      ColumnCountAppend(a, b[..|b| - 1]);
    } else {
      assert a + b == a;
    }
  }

  predicate InsideSubset(tables: seq<string>, rows: seq<ExportKeyRow>) {
    forall i :: 0 <= i < |rows| ==> rows[i].pkTable in tables && rows[i].fkTable in tables
  }

  /** With every key inside the subset, each key start after the first emits
      the key before it, and no column is lost. */
  lemma {:induction false} FoldInsideSubset(tables: seq<string>, rows: seq<ExportKeyRow>)
    requires InsideSubset(tables, rows)
    ensures |rows| > 0 ==> |Fold(tables, rows).model| == KeyStarts(rows) - 1
    ensures ColumnCount(Fold(tables, rows).model) + |Fold(tables, rows).acc.pkColumns| == |rows|
  {
    if |rows| > 0 {
      var prefix := rows[..|rows| - 1];
      var last := rows[|rows| - 1];
      assert InsideSubset(tables, prefix) by {
        assert forall i :: 0 <= i < |prefix| ==> prefix[i] == rows[i];
      }
      FoldInsideSubset(tables, prefix);
      var sc := Fold(tables, prefix);
      if |prefix| > 0 {
        assert prefix[|prefix| - 1] == rows[|rows| - 2];
      }
      var flushed := if last.keySeq == 1 && |sc.acc.pkColumns| > 0 then Flush(tables, sc.acc) else Scan([], sc.acc);
      ColumnCountAppend(sc.model, flushed.model);
      if |flushed.model| == 1 {
        assert ColumnCount(flushed.model) == |sc.acc.pkColumns| by {
          assert flushed.model[..0] == [];
        }
      }
    }
  }

  lemma ScanTableInsideSubset(tables: seq<string>, rows: seq<ExportKeyRow>)
    requires InsideSubset(tables, rows)
    ensures |ScanTable(tables, rows)| == KeyStarts(rows)
    ensures ColumnCount(ScanTable(tables, rows)) == |rows|
  {
    FoldInsideSubset(tables, rows);
    var sc := Fold(tables, rows);
    if |rows| > 0 {
      var last := rows[|rows| - 1];
      var f := Flush(tables, sc.acc);
      ColumnCountAppend(sc.model, f.model);
      assert f.model[..0] == [];
    }
  }

  // ----- Content when every key stays inside the subset -----

  /** The keys of one table's exported-key rows, in order: a key begins at the
      first row and at every later row numbered 1, and runs up to the next
      such row. */
  function Keys(rows: seq<ExportKeyRow>): (keys: seq<seq<ExportKeyRow>>)
    ensures |keys| == KeyStarts(rows)
    ensures forall k :: 0 <= k < |keys| ==> |keys[k]| > 0
    ensures |rows| > 0 ==> |keys| > 0 && keys[|keys| - 1][|keys[|keys| - 1]| - 1] == rows[|rows| - 1]
  {
    if |rows| == 0 then []
    else
      var keys := Keys(rows[..|rows| - 1]);
      var row := rows[|rows| - 1];
      if |keys| == 0 || row.keySeq == 1 then keys + [[row]]
      else keys[..|keys| - 1] + [keys[|keys| - 1] + [row]]
  }

  /** The keys split the rows: read one after another they give back the rows,
      every key after the first starts at a row numbered 1, and no other row of
      a key is numbered 1. */
  lemma {:induction false} KeysSplitRows(rows: seq<ExportKeyRow>)
    ensures var keys := Keys(rows);
      && Concat(keys) == rows
      && (forall k :: 0 < k < |keys| ==> keys[k][0].keySeq == 1)
      && (forall k, i :: 0 <= k < |keys| && 0 < i < |keys[k]| ==> keys[k][i].keySeq != 1)
  {
    if |rows| > 0 {
      var prefix := rows[..|rows| - 1];
      KeysSplitRows(prefix);
      var keys := Keys(prefix);
      var row := rows[|rows| - 1];
      assert KeysOf(keys, prefix);
      if |keys| == 0 || row.keySeq == 1 {
        assert Keys(rows) == keys + [[row]];
        KeysNewKey(rows, keys);
      } else {
        assert Keys(rows) == keys[..|keys| - 1] + [keys[|keys| - 1] + [row]];
        KeysSameKey(rows, keys);
      }
    }
  }

  /** What `Keys` and `KeysSplitRows` promise together, bundled for the two
      step lemmas. */
  predicate KeysOf(keys: seq<seq<ExportKeyRow>>, rows: seq<ExportKeyRow>) {
    && Concat(keys) == rows
    && |keys| == KeyStarts(rows)
    && (forall k :: 0 <= k < |keys| ==> |keys[k]| > 0)
    && (forall k :: 0 < k < |keys| ==> keys[k][0].keySeq == 1)
    && (forall k, i :: 0 <= k < |keys| && 0 < i < |keys[k]| ==> keys[k][i].keySeq != 1)
    && (|rows| > 0 ==> |keys| > 0 && keys[|keys| - 1][|keys[|keys| - 1]| - 1] == rows[|rows| - 1])
  }

  lemma KeysNewKey(rows: seq<ExportKeyRow>, keys: seq<seq<ExportKeyRow>>)
    requires |rows| > 0 && KeysOf(keys, rows[..|rows| - 1])
    requires |keys| == 0 || rows[|rows| - 1].keySeq == 1
    ensures KeysOf(keys + [[rows[|rows| - 1]]], rows)
  {
    var row := rows[|rows| - 1];
    assert rows == rows[..|rows| - 1] + [row];
    ConcatSnoc(keys, [row]);
    var after := keys + [[row]];
    assert forall k :: 0 <= k < |keys| ==> after[k] == keys[k];
  }

  lemma KeysSameKey(rows: seq<ExportKeyRow>, keys: seq<seq<ExportKeyRow>>)
    requires |rows| > 0 && KeysOf(keys, rows[..|rows| - 1])
    requires |keys| > 0 && rows[|rows| - 1].keySeq != 1
    ensures KeysOf(keys[..|keys| - 1] + [keys[|keys| - 1] + [rows[|rows| - 1]]], rows)
  {
    var row := rows[|rows| - 1];
    var n := |keys|;
    assert rows == rows[..|rows| - 1] + [row];
    ConcatGrowLast(keys, row);
    var after := keys[..n - 1] + [keys[n - 1] + [row]];
    assert forall k :: 0 <= k < n - 1 ==> after[k] == keys[k];
    assert after[n - 1] == keys[n - 1] + [row];
  }

  lemma {:induction false} ConcatGrowLast<T>(parts: seq<seq<T>>, x: T)
    requires |parts| > 0
    ensures Concat(parts[..|parts| - 1] + [parts[|parts| - 1] + [x]]) == Concat(parts) + [x]
  {
    var n := |parts|;
    var front := parts[..n - 1];
    assert parts == front + [parts[n - 1]];
    ConcatSnoc(front, parts[n - 1]);
    ConcatSnoc(front, parts[n - 1] + [x]);
    assert Concat(front) + (parts[n - 1] + [x]) == (Concat(front) + parts[n - 1]) + [x];
  }

  function PkColumnsOf(key: seq<ExportKeyRow>): (columns: seq<string>)
    ensures |columns| == |key|
    ensures forall i :: 0 <= i < |key| ==> columns[i] == key[i].pkColumn
  {
    seq(|key|, i requires 0 <= i < |key| => key[i].pkColumn)
  }

  function FkColumnsOf(key: seq<ExportKeyRow>): (columns: seq<string>)
    ensures |columns| == |key|
    ensures forall i :: 0 <= i < |key| ==> columns[i] == key[i].fkColumn
  {
    seq(|key|, i requires 0 <= i < |key| => key[i].fkColumn)
  }

  /** The relationship one key stands for: the referenced table and its key
      columns on the ONE side, the referencing table and its foreign-key columns
      on the MANY side, the tables as the key's last row names them. */
  function KeyRelationship(key: seq<ExportKeyRow>): Relationship
    requires |key| > 0
  {
    var last := key[|key| - 1];
    Relationship(Entity(last.pkTable, PkColumnsOf(key), ONE), Entity(last.fkTable, FkColumnsOf(key), MANY))
  }

  /** The relationships emitted are those of all keys but the last, in order,
      and the column lists being gathered are the last key's. */
  predicate Matches(model: seq<Relationship>, pkColumns: seq<string>, fkColumns: seq<string>,
                    keys: seq<seq<ExportKeyRow>>) {
    && |keys| > 0
    && (forall k :: 0 <= k < |keys| ==> |keys[k]| > 0)
    && |model| == |keys| - 1
    && (forall k :: 0 <= k < |keys| - 1 ==> model[k] == KeyRelationship(keys[k]))
    && pkColumns == PkColumnsOf(keys[|keys| - 1])
    && fkColumns == FkColumnsOf(keys[|keys| - 1])
  }

  lemma MatchesFirst(row: ExportKeyRow)
    ensures Matches([], [row.pkColumn], [row.fkColumn], [[row]])
  {
    assert PkColumnsOf([row]) == [row.pkColumn];
    assert FkColumnsOf([row]) == [row.fkColumn];
  }

  lemma MatchesNewKey(model: seq<Relationship>, pkColumns: seq<string>, fkColumns: seq<string>,
                      keys: seq<seq<ExportKeyRow>>, row: ExportKeyRow)
    requires Matches(model, pkColumns, fkColumns, keys)
    ensures Matches(model + [KeyRelationship(keys[|keys| - 1])], [row.pkColumn], [row.fkColumn], keys + [[row]])
  {
    var after := keys + [[row]];
    var emitted := model + [KeyRelationship(keys[|keys| - 1])];
    forall k | 0 <= k < |after| - 1
      ensures emitted[k] == KeyRelationship(after[k])
    {
      assert after[k] == keys[k];
    }
    MatchesFirst(row);
  }

  lemma MatchesSameKey(model: seq<Relationship>, pkColumns: seq<string>, fkColumns: seq<string>,
                       keys: seq<seq<ExportKeyRow>>, row: ExportKeyRow)
    requires Matches(model, pkColumns, fkColumns, keys)
    ensures Matches(model, pkColumns + [row.pkColumn], fkColumns + [row.fkColumn],
                    keys[..|keys| - 1] + [keys[|keys| - 1] + [row]])
  {
    var n := |keys|;
    var after := keys[..n - 1] + [keys[n - 1] + [row]];
    forall k | 0 <= k < n - 1
      ensures model[k] == KeyRelationship(after[k])
    {
      assert after[k] == keys[k];
    }
    assert after[n - 1] == keys[n - 1] + [row];
    ColumnsOfSnoc(keys[n - 1], row);
  }

  lemma ColumnsOfSnoc(key: seq<ExportKeyRow>, row: ExportKeyRow)
    ensures PkColumnsOf(key + [row]) == PkColumnsOf(key) + [row.pkColumn]
    ensures FkColumnsOf(key + [row]) == FkColumnsOf(key) + [row.fkColumn]
  {
  }

  /** With every key inside the subset, the fold has emitted every key but the
      last and holds the last key's columns. */
  lemma {:induction false} FoldKeys(tables: seq<string>, rows: seq<ExportKeyRow>)
    requires InsideSubset(tables, rows)
    requires |rows| > 0
    ensures var sc := Fold(tables, rows);
      Matches(sc.model, sc.acc.pkColumns, sc.acc.fkColumns, Keys(rows))
  {
    var prefix := rows[..|rows| - 1];
    var row := rows[|rows| - 1];
    if |prefix| == 0 {
      assert Fold(tables, prefix) == Scan([], Empty);
      assert Keys(rows) == [[row]];
      MatchesFirst(row);
    } else {
      assert InsideSubset(tables, prefix) by {
        assert forall i :: 0 <= i < |prefix| ==> prefix[i] == rows[i];
      }
      FoldKeys(tables, prefix);
      if row.keySeq == 1 {
        FoldKeysNewKey(tables, rows);
      } else {
        FoldKeysSameKey(tables, rows);
      }
    }
  }

  lemma FoldKeysNewKey(tables: seq<string>, rows: seq<ExportKeyRow>)
    requires InsideSubset(tables, rows)
    requires |rows| > 1 && rows[|rows| - 1].keySeq == 1
    requires var sc := Fold(tables, rows[..|rows| - 1]);
      Matches(sc.model, sc.acc.pkColumns, sc.acc.fkColumns, Keys(rows[..|rows| - 1]))
    ensures var sc := Fold(tables, rows);
      Matches(sc.model, sc.acc.pkColumns, sc.acc.fkColumns, Keys(rows))
  {
    var prefix := rows[..|rows| - 1];
    var row := rows[|rows| - 1];
    var sc := Fold(tables, prefix);
    var keys := Keys(prefix);
    var n := |keys|;
    assert prefix[|prefix| - 1] == rows[|rows| - 2];
    var f := Flush(tables, sc.acc);
    assert f.model == [KeyRelationship(keys[n - 1])];
    assert Keys(rows) == keys + [[row]];
    var next := Fold(tables, rows);
    assert next == Step(tables, sc, row);
    assert next.model == sc.model + [KeyRelationship(keys[n - 1])];
    assert next.acc.pkColumns == [row.pkColumn] && next.acc.fkColumns == [row.fkColumn];
    MatchesNewKey(sc.model, sc.acc.pkColumns, sc.acc.fkColumns, keys, row);
  }

  lemma FoldKeysSameKey(tables: seq<string>, rows: seq<ExportKeyRow>)
    requires |rows| > 1 && rows[|rows| - 1].keySeq != 1
    requires var sc := Fold(tables, rows[..|rows| - 1]);
      Matches(sc.model, sc.acc.pkColumns, sc.acc.fkColumns, Keys(rows[..|rows| - 1]))
    ensures var sc := Fold(tables, rows);
      Matches(sc.model, sc.acc.pkColumns, sc.acc.fkColumns, Keys(rows))
  {
    var prefix := rows[..|rows| - 1];
    var row := rows[|rows| - 1];
    var sc := Fold(tables, prefix);
    var keys := Keys(prefix);
    var n := |keys|;
    assert Keys(rows) == keys[..n - 1] + [keys[n - 1] + [row]];
    var next := Fold(tables, rows);
    assert next == Step(tables, sc, row);
    assert next.model == sc.model;
    MatchesSameKey(sc.model, sc.acc.pkColumns, sc.acc.fkColumns, keys, row);
  }

  /** With every key inside the subset, a table yields one relationship per key,
      in key order, each built from that key's own rows. */
  lemma ScanTableKeys(tables: seq<string>, rows: seq<ExportKeyRow>)
    requires InsideSubset(tables, rows)
    ensures var model := ScanTable(tables, rows);
      var keys := Keys(rows);
      && |model| == |keys|
      && forall k :: 0 <= k < |keys| ==> model[k] == KeyRelationship(keys[k])
  {
    if |rows| > 0 {
      FoldKeys(tables, rows);
      var sc := Fold(tables, rows);
      var keys := Keys(rows);
      var f := Flush(tables, sc.acc);
      assert f.model == [KeyRelationship(keys[|keys| - 1])];
      var model := ScanTable(tables, rows);
      assert model == sc.model + f.model;
      forall k | 0 <= k < |keys|
        ensures model[k] == KeyRelationship(keys[k])
      {
        if k < |keys| - 1 {
          assert model[k] == sc.model[k];
        }
      }
    }
  }

  // ----- Scenarios -----

  /** Reading one more row is one more step of the fold. */
  lemma FoldSnoc(tables: seq<string>, rows: seq<ExportKeyRow>, row: ExportKeyRow)
    ensures Fold(tables, rows + [row]) == Step(tables, Fold(tables, rows), row)
  {
    assert (rows + [row])[..|rows|] == rows;
  }

  const ScenarioTables := ["T1", "T2", "T3", "T4"]

  lemma TwoKeysFirstKey()
    ensures Step(ScenarioTables, Scan([], Empty), ExportKeyRow("T1", "a", "T2", "x", 1))
         == Scan([], Accumulator(Some("T1"), Some("T2"), ["a"], ["x"]))
  {
    assert [] + ["a"] == ["a"] && [] + ["x"] == ["x"];
    var empty: seq<Relationship> := [];
    assert empty + empty == empty;
  }

  lemma TwoKeysSecondRow()
    ensures Step(ScenarioTables, Scan([], Accumulator(Some("T1"), Some("T2"), ["a"], ["x"])), ExportKeyRow("T1", "b", "T2", "y", 2))
         == Scan([], Accumulator(Some("T1"), Some("T2"), ["a", "b"], ["x", "y"]))
  {
    assert ["a"] + ["b"] == ["a", "b"] && ["x"] + ["y"] == ["x", "y"];
    var empty: seq<Relationship> := [];
    assert empty + empty == empty;
  }

  lemma TwoKeysSecondKey()
    ensures Step(ScenarioTables, Scan([], Accumulator(Some("T1"), Some("T2"), ["a", "b"], ["x", "y"])), ExportKeyRow("T3", "c", "T4", "z", 1))
         == Scan([Relationship(Entity("T1", ["a", "b"], ONE), Entity("T2", ["x", "y"], MANY))],
                 Accumulator(Some("T3"), Some("T4"), ["c"], ["z"]))
    ensures Flush(ScenarioTables, Accumulator(Some("T3"), Some("T4"), ["c"], ["z"])).model
         == [Relationship(Entity("T3", ["c"], ONE), Entity("T4", ["z"], MANY))]
  {
    assert "T1" in ScenarioTables && "T2" in ScenarioTables && "T3" in ScenarioTables && "T4" in ScenarioTables;
    assert [] + ["c"] == ["c"] && [] + ["z"] == ["z"];
    var empty: seq<Relationship> := [];
    assert empty + [Relationship(Entity("T1", ["a", "b"], ONE), Entity("T2", ["x", "y"], MANY))]
        == [Relationship(Entity("T1", ["a", "b"], ONE), Entity("T2", ["x", "y"], MANY))];
  }

  /** Two keys of one table: a two-column key, then a one-column key. */
  lemma TwoKeysTwoRelationships()
    ensures var rows := [
        ExportKeyRow("T1", "a", "T2", "x", 1),
        ExportKeyRow("T1", "b", "T2", "y", 2),
        ExportKeyRow("T3", "c", "T4", "z", 1)];
      ScanTable(ScenarioTables, rows) == [
        Relationship(Entity("T1", ["a", "b"], ONE), Entity("T2", ["x", "y"], MANY)),
        Relationship(Entity("T3", ["c"], ONE), Entity("T4", ["z"], MANY))]
  {
    var tables := ScenarioTables;
    var r0 := ExportKeyRow("T1", "a", "T2", "x", 1);
    var r1 := ExportKeyRow("T1", "b", "T2", "y", 2);
    var r2 := ExportKeyRow("T3", "c", "T4", "z", 1);
    var rel0 := Relationship(Entity("T1", ["a", "b"], ONE), Entity("T2", ["x", "y"], MANY));
    var rel1 := Relationship(Entity("T3", ["c"], ONE), Entity("T4", ["z"], MANY));
    var a3 := Accumulator(Some("T3"), Some("T4"), ["c"], ["z"]);
    assert Fold(tables, []) == Scan([], Empty);
    FoldSnoc(tables, [], r0);
    assert [] + [r0] == [r0];
    TwoKeysFirstKey();
    FoldSnoc(tables, [r0], r1);
    assert [r0] + [r1] == [r0, r1];
    TwoKeysSecondRow();
    FoldSnoc(tables, [r0, r1], r2);
    assert [r0, r1] + [r2] == [r0, r1, r2];
    TwoKeysSecondKey();
    assert Fold(tables, [r0, r1, r2]) == Scan([rel0], a3);
    assert ScanTable(tables, [r0, r1, r2]) == [rel0] + Flush(tables, a3).model;
  }

  /** A key whose tables are not both inspected is not emitted, and its columns
      stay pending: they are prepended to the next key's columns. */
  lemma DiscardedKeyCarriesOver()
    ensures var tables := ["T1", "T3", "T4"];
      var rows := [
        ExportKeyRow("T1", "a", "OUTSIDE", "x", 1),
        ExportKeyRow("T3", "c", "T4", "z", 1)];
      ScanTable(tables, rows) == [
        Relationship(Entity("T3", ["a", "c"], ONE), Entity("T4", ["x", "z"], MANY))]
  {
    var tables := ["T1", "T3", "T4"];
    var r0 := ExportKeyRow("T1", "a", "OUTSIDE", "x", 1);
    var r1 := ExportKeyRow("T3", "c", "T4", "z", 1);
    var rows := [r0, r1];
    assert rows[..1] == [r0];
    assert [r0][..0] == [];
    assert "OUTSIDE" !in tables;
    assert Fold(tables, []) == Scan([], Empty);
    assert [r0][..0] == [];
    var s1 := Fold(tables, [r0]);
    assert [] + ["a"] == ["a"] && [] + ["x"] == ["x"];
    var empty: seq<Relationship> := [];
    assert empty + empty == empty;
    assert s1 == Scan([], Accumulator(Some("T1"), Some("OUTSIDE"), ["a"], ["x"]));
    assert Flush(tables, s1.acc).model == [];
    var s2 := Fold(tables, rows);
    assert s2 == Scan([], Accumulator(Some("T3"), Some("T4"), ["a", "c"], ["x", "z"]));
  }
}
