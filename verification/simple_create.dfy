/** The connection's ad-hoc CREATE TABLE builder: a primary key, a map from
    column names to type text, and an auto-increment flag become one statement. */
module SimpleCreate {

  import opened Text

  /** The statement built and the column map after the primary key was added. */
  datatype Built = Built(statement: string, columns: map<string, string>)

  const DefaultKeyType := "INTEGER"

  /** The primary key is added with type INTEGER when the map lacks it. */
  function WithPrimaryKey(primaryKey: string, columnMap: map<string, string>): (m: map<string, string>)
    ensures m.Keys == columnMap.Keys + {primaryKey}
    ensures forall k :: k in columnMap ==> m[k] == columnMap[k]
    ensures primaryKey !in columnMap ==> m[primaryKey] == DefaultKeyType
  {
    if primaryKey in columnMap then columnMap else columnMap[primaryKey := DefaultKeyType]
  }

  predicate Distinct(s: seq<string>) {
    forall i, j :: 0 <= i < j < |s| ==> s[i] != s[j]
  }

  /** `order` lists every key of `keys` exactly once: the map's iteration order. */
  predicate Enumerates(order: seq<string>, keys: set<string>) {
    && (forall k :: k in order ==> k in keys)
    && (forall k :: k in keys ==> k in order)
    && Distinct(order)
  }

  /** The keys other than the primary key, in iteration order. */
  function NonKeyColumns(order: seq<string>, primaryKey: string): (cols: seq<string>)
    ensures forall k :: k in cols ==> k in order && k != primaryKey
  {
    if |order| == 0 then []
    else
      var rest := NonKeyColumns(order[..|order| - 1], primaryKey);
      var last := order[|order| - 1];
      assert forall k :: k in order[..|order| - 1] ==> k in order;
      if last == primaryKey then rest else rest + [last]
  }

  lemma {:induction false} NonKeyColumnsExact(order: seq<string>, primaryKey: string)
    requires Distinct(order)
    ensures forall k :: k in NonKeyColumns(order, primaryKey) <==> k in order && k != primaryKey
    ensures Distinct(NonKeyColumns(order, primaryKey))
  {
    if |order| > 0 {
      var prefix := order[..|order| - 1];
      var last := order[|order| - 1];
      assert forall i :: 0 <= i < |prefix| ==> prefix[i] == order[i];
      NonKeyColumnsExact(prefix, primaryKey);
      assert forall k :: k in order <==> k in prefix || k == last by {
        assert order == prefix + [last];
      }
      assert last !in prefix by {
        forall i | 0 <= i < |prefix|
          ensures prefix[i] != last
        {
          assert order[i] != order[|order| - 1];
        }
      }
      var rest := NonKeyColumns(prefix, primaryKey);
      assert Distinct(rest);
      assert last !in rest;
      if last != primaryKey {
        var cols := rest + [last];
        assert NonKeyColumns(order, primaryKey) == cols;
        forall i, j | 0 <= i < j < |cols|
          ensures cols[i] != cols[j]
        {
          assert cols[i] == rest[i];
          if j == |rest| {
            assert cols[i] in rest;
            assert cols[j] == last;
          } else {
            assert cols[j] == rest[j];
            assert rest[i] != rest[j];
          }
        }
      }
    }
  }

  /** A column definition: the name, a blank, the type text. */
  function Definition(name: string, typeText: string): string {
    name + " " + typeText
  }

  function Clause(name: string, typeText: string): string {
    Definition(name, typeText) + ","
  }

  /** One clause per listed column, in order. */
  function Clauses(names: seq<string>, m: map<string, string>): string
    requires forall k :: k in names ==> k in m
  {
    if |names| == 0 then ""
    else
      var prefix := names[..|names| - 1];
      assert forall k :: k in prefix ==> k in names;
      Clauses(prefix, m) + Clause(names[|names| - 1], m[names[|names| - 1]])
  }

  lemma {:induction false} ClausesAppend(a: seq<string>, b: seq<string>, m: map<string, string>)
    requires forall k :: k in a + b ==> k in m
    ensures Clauses(a + b, m) == Clauses(a, m) + Clauses(b, m)
    decreases |b|
  {
    if |b| == 0 {
      assert a + b == a;
    } else {
      var front := b[..|b| - 1];
      var last := b[|b| - 1];
      assert (a + b)[..|a + b| - 1] == a + front;
      assert forall k :: k in a + front ==> k in a + b;
      ClausesAppend(a, front, m);
      var c := Clause(last, m[last]);
      assert Clauses(a + b, m) == Clauses(a + front, m) + c;
      assert Clauses(b, m) == Clauses(front, m) + c;
    }
  }

  const AutoIncrementHead := "CREATE TABLE IF NOT EXISTS \""
  const PlainHead := "CREATE IF NOT EXISTS \""

  /** The statement up to the opening parenthesis. */
  function Opening(tableName: string, isAutoIncrement: bool): string {
    (if isAutoIncrement then AutoIncrementHead else PlainHead) + tableName + "\"("
  }

  function KeyClause(primaryKey: string, keyType: string, isAutoIncrement: bool): string {
    if isAutoIncrement then primaryKey + " " + keyType + " IDENTITY NOT NULL,"
    else primaryKey + " " + keyType + ","
  }

  lemma OpeningsDiffer(tableName: string, s: string)
    ensures !(StartsWith(s, Opening(tableName, true)) && StartsWith(s, Opening(tableName, false)))
  {
    if StartsWith(s, Opening(tableName, true)) && |Opening(tableName, false)| <= |s| {
      assert s[7] == Opening(tableName, true)[7] == AutoIncrementHead[7] == 'T';
      assert Opening(tableName, false)[7] == PlainHead[7] == 'I';
    }
  }

  lemma ClausesEndInComma(names: seq<string>, m: map<string, string>)
    requires forall k :: k in names ==> k in m
    ensures Clauses(names, m) == "" || Clauses(names, m)[|Clauses(names, m)| - 1] == ','
  {
  }

  /** A statement assembled from an opening, a key clause ending in a comma
      and column clauses ends with a comma before the parenthesis. */
  lemma Assembled(opening: string, key: string, body: string)
    requires |key| > 0 && key[|key| - 1] == ','
    requires body == "" || body[|body| - 1] == ','
    ensures StartsWith(opening + (key + (body + ")")), opening + key)
    ensures EndsWith(opening + (key + (body + ")")), ",)")
  {
    ConcatEnds(key, body + ")");
    StartsWithExtend(opening, key + (body + ")"), key);
    var s := opening + (key + (body + ")"));
    assert s[|s| - 1] == ')';
    if body == "" {
      assert s[|s| - 2] == key[|key| - 1];
    } else {
      assert s[|s| - 2] == body[|body| - 1];
    }
    assert s[|s| - 2..] == [s[|s| - 2], s[|s| - 1]];
  }

  /** Which opening a statement starts with tells the flag apart. */
  lemma {:induction false} OpeningDecides(tableName: string, isAutoIncrement: bool, rest: string)
    ensures StartsWith(Opening(tableName, isAutoIncrement) + rest, Opening(tableName, true)) <==> isAutoIncrement
    ensures StartsWith(Opening(tableName, isAutoIncrement) + rest, Opening(tableName, false)) <==> !isAutoIncrement
  {
    var o := Opening(tableName, isAutoIncrement);
    assert (o + rest)[..|o|] == o;
    OpeningsDiffer(tableName, o + rest);
  }

  /** The statement as the connection builds it. With auto-increment it opens
      with CREATE TABLE IF NOT EXISTS and an IDENTITY key; without it, the TABLE
      keyword is missing. It always ends with a comma before the closing
      parenthesis. */
  function CreateTableStatement(tableName: string, primaryKey: string, columnMap: map<string, string>,
                                isAutoIncrement: bool, order: seq<string>): (b: Built)
    requires Enumerates(order, columnMap.Keys + {primaryKey})
    ensures b.columns.Keys == columnMap.Keys + {primaryKey}
    ensures forall k :: k in columnMap ==> b.columns[k] == columnMap[k]
    ensures primaryKey !in columnMap ==> b.columns[primaryKey] == DefaultKeyType
    ensures StartsWith(b.statement, Opening(tableName, true)) <==> isAutoIncrement
    ensures StartsWith(b.statement, Opening(tableName, false)) <==> !isAutoIncrement
    ensures StartsWith(b.statement, Opening(tableName, isAutoIncrement) + KeyClause(primaryKey, b.columns[primaryKey], isAutoIncrement))
    ensures EndsWith(b.statement, ",)")
    ensures b.statement == Opening(tableName, isAutoIncrement)
      + (KeyClause(primaryKey, b.columns[primaryKey], isAutoIncrement) + (Clauses(NonKeyColumns(order, primaryKey), b.columns) + ")"))
  {
    var m := WithPrimaryKey(primaryKey, columnMap);
    var cols := NonKeyColumns(order, primaryKey);
    NonKeyColumnsExact(order, primaryKey);
    var rest := KeyClause(primaryKey, m[primaryKey], isAutoIncrement) + (Clauses(cols, m) + ")");
    var s := Opening(tableName, isAutoIncrement) + rest;
    OpeningDecides(tableName, isAutoIncrement, rest);
    ClausesEndInComma(cols, m);
    Assembled(Opening(tableName, isAutoIncrement), KeyClause(primaryKey, m[primaryKey], isAutoIncrement), Clauses(cols, m));
    Built(s, m)
  }

  /** Each listed column's clause sits right after the clauses of the columns
      before it. */
  lemma {:induction false} ClauseAt(names: seq<string>, m: map<string, string>, j: nat)
    requires forall k :: k in names ==> k in m
    requires j < |names|
    ensures var off := |Clauses(names[..j], m)|;
      var c := Clause(names[j], m[names[j]]);
      off + |c| <= |Clauses(names, m)| && Clauses(names, m)[off..off + |c|] == c
  {
    var before := names[..j];
    var after := names[j + 1..];
    assert names == before + [names[j]] + after;
    ClausesAppend(before + [names[j]], after, m);
    ClausesAppend(before, [names[j]], m);
    assert [names[j]][..0] == [];
    var c := Clause(names[j], m[names[j]]);
    assert Clauses([names[j]], m) == c;
    var whole := Clauses(before, m) + c + Clauses(after, m);
    assert whole[|Clauses(before, m)|..|Clauses(before, m)| + |c|] == c;
  }

  /** Placement in a statement of the builder's layout (the layout
      `CreateTableStatement` ensures): after the opening and the key clause, the
      listed columns' clauses follow in order, each right after the ones before
      it, and only `)` comes after the last. With `NonKeyColumnsExact` every
      non-key column thus appears exactly once, and the primary key never
      again. */
  lemma StatementClauseAt(s: string, o: string, key: string, names: seq<string>, m: map<string, string>, j: nat)
    requires forall k :: k in names ==> k in m
    requires j < |names|
    requires s == o + (key + (Clauses(names, m) + ")"))
    ensures var off := |o| + |key| + |Clauses(names[..j], m)|;
      var c := Clause(names[j], m[names[j]]);
      && |s| == |o| + |key| + |Clauses(names, m)| + 1
      && off + |c| <= |s|
      && s[off..off + |c|] == c
  {
    var body := Clauses(names, m);
    var inner := |Clauses(names[..j], m)|;
    var c := Clause(names[j], m[names[j]]);
    ClauseAt(names, m, j);
    SliceAfter(s, o, key, body, ")", inner, |c|);
  }

  lemma SliceAfter(s: string, o: string, key: string, body: string, q: string, off: nat, len: nat)
    requires s == o + (key + (body + q))
    requires off + len <= |body|
    ensures |s| == |o| + |key| + |body| + |q|
    ensures s[|o| + |key| + off..|o| + |key| + off + len] == body[off..off + len]
  {
    var p := o + key;
    assert s == p + (body + q);
    assert s[|p|..] == body + q;
    assert (body + q)[off..off + len] == body[off..off + len];
    assert s[|p| + off..|p| + off + len] == s[|p|..][off..off + len];
  }

  /** Every column other than the primary key gets a clause with its type
      text; `NonKeyColumnsExact` makes it one clause per column. */
  lemma EveryColumnListed(tableName: string, primaryKey: string, columnMap: map<string, string>,
                          isAutoIncrement: bool, order: seq<string>, k: string)
    requires Enumerates(order, columnMap.Keys + {primaryKey})
    requires k in columnMap && k != primaryKey
    ensures var b := CreateTableStatement(tableName, primaryKey, columnMap, isAutoIncrement, order);
      Mentions(b.statement, Clause(k, columnMap[k]))
  {
    var b := CreateTableStatement(tableName, primaryKey, columnMap, isAutoIncrement, order);
    var m := b.columns;
    var cols := NonKeyColumns(order, primaryKey);
    NonKeyColumnsExact(order, primaryKey);
    var j :| 0 <= j < |cols| && cols[j] == k;
    ClauseAt(cols, m, j);
    var body := Clauses(cols, m);
    var c := Clause(k, m[k]);
    var off := |Clauses(cols[..j], m)|;
    assert Slice(body, off, |c|) == c;
    var key := KeyClause(primaryKey, m[primaryKey], isAutoIncrement);
    MentionsWithin(key, body, ")", c);
    MentionsWithin(key, body + ")", "", c);
    MentionsWithin(Opening(tableName, isAutoIncrement), key + (body + ")"), "", c);
  }

  /** The non-auto-increment statement lacks the TABLE keyword: it does not
      open like a CREATE TABLE statement. */
  lemma PlainStatementLacksTable(tableName: string, primaryKey: string, columnMap: map<string, string>,
                                 order: seq<string>)
    requires Enumerates(order, columnMap.Keys + {primaryKey})
    ensures !StartsWith(CreateTableStatement(tableName, primaryKey, columnMap, false, order).statement, "CREATE TABLE")
  {
    var s := CreateTableStatement(tableName, primaryKey, columnMap, false, order).statement;
    assert StartsWith(s, Opening(tableName, false));
    assert s[7] == Opening(tableName, false)[7] == 'I';
    assert "CREATE TABLE"[7] == 'T';
  }

  // ----- The statement as evidently intended -----

  /** The column definitions, each after a comma separator. */
  function Separated(names: seq<string>, m: map<string, string>): string
    requires forall k :: k in names ==> k in m
  {
    if |names| == 0 then ""
    else
      var prefix := names[..|names| - 1];
      assert forall k :: k in prefix ==> k in names;
      Separated(prefix, m) + (", " + Definition(names[|names| - 1], m[names[|names| - 1]]))
  }

  function KeyDefinition(primaryKey: string, keyType: string, isAutoIncrement: bool): string {
    Definition(primaryKey, keyType) + (if isAutoIncrement then " IDENTITY NOT NULL" else "")
  }

  /** CREATE TABLE IF NOT EXISTS in both cases, and commas only between column
      definitions. */
  function IntendedStatement(tableName: string, primaryKey: string, columnMap: map<string, string>,
                             isAutoIncrement: bool, order: seq<string>): (b: Built)
    requires Enumerates(order, columnMap.Keys + {primaryKey})
    ensures b.columns.Keys == columnMap.Keys + {primaryKey}
    ensures forall k :: k in columnMap ==> b.columns[k] == columnMap[k]
    ensures primaryKey !in columnMap ==> b.columns[primaryKey] == DefaultKeyType
    ensures forall k :: k in NonKeyColumns(order, primaryKey) ==> k in b.columns
  {
    var m := WithPrimaryKey(primaryKey, columnMap);
    var cols := NonKeyColumns(order, primaryKey);
    NonKeyColumnsExact(order, primaryKey);
    Built(Opening(tableName, true) + (KeyDefinition(primaryKey, m[primaryKey], isAutoIncrement) + (Separated(cols, m) + ")")), m)
  }

  lemma EndsWithExtend(p: string, s: string, q: string, t: string)
    requires EndsWith(s, q)
    ensures EndsWith(p + (s + t), q + t)
  {
    assert (p + (s + t))[|p + (s + t)| - |q + t|..] == s[|s| - |q|..] + t;
  }

  /** The intended statement always opens as CREATE TABLE and closes on its
      last column definition, with no comma before the parenthesis. */
  lemma IntendedStatementShape(tableName: string, primaryKey: string, columnMap: map<string, string>,
                               isAutoIncrement: bool, order: seq<string>)
    requires Enumerates(order, columnMap.Keys + {primaryKey})
    ensures var b := IntendedStatement(tableName, primaryKey, columnMap, isAutoIncrement, order);
      var cols := NonKeyColumns(order, primaryKey);
      var lastDefinition :=
        if |cols| == 0 then KeyDefinition(primaryKey, b.columns[primaryKey], isAutoIncrement)
        else Definition(cols[|cols| - 1], b.columns[cols[|cols| - 1]]);
      && StartsWith(b.statement, Opening(tableName, true))
      && EndsWith(b.statement, lastDefinition + ")")
  {
    var b := IntendedStatement(tableName, primaryKey, columnMap, isAutoIncrement, order);
    var m := b.columns;
    var cols := NonKeyColumns(order, primaryKey);
    var keyDefinition := KeyDefinition(primaryKey, m[primaryKey], isAutoIncrement);
    var o := Opening(tableName, true);
    var sep := Separated(cols, m);
    ConcatEnds(o, keyDefinition + (sep + ")"));
    if |cols| == 0 {
      assert sep + ")" == ")";
      ConcatEnds("", keyDefinition);
      assert "" + keyDefinition == keyDefinition;
      EndsWithExtend(o, keyDefinition, keyDefinition, ")");
    } else {
      var last := Definition(cols[|cols| - 1], m[cols[|cols| - 1]]);
      ConcatEnds(Separated(cols[..|cols| - 1], m) + ", ", last);
      assert sep == Separated(cols[..|cols| - 1], m) + ", " + last;
      EndsWithExtend(keyDefinition, sep, last, "");
      assert sep + "" == sep && last + "" == last;
      EndsWithExtend(o, keyDefinition + sep, last, ")");
      assert keyDefinition + (sep + ")") == (keyDefinition + sep) + ")";
    }
  }

  /** A one-column table without auto-increment: the builder writes neither a
      CREATE TABLE keyword pair nor a closing definition without a comma, the
      intended statement has both. */
  lemma SingleKeyExample()
    ensures CreateTableStatement("T", "id", map[], false, ["id"]).statement == "CREATE IF NOT EXISTS \"T\"(id INTEGER,)"
    ensures IntendedStatement("T", "id", map[], false, ["id"]).statement == "CREATE TABLE IF NOT EXISTS \"T\"(id INTEGER)"
  {
    SingleKeyAsWritten();
    SingleKeyIntended();
  }

  lemma SingleKeyAsWritten()
    ensures CreateTableStatement("T", "id", map[], false, ["id"]).statement == "CREATE IF NOT EXISTS \"T\"(id INTEGER,)"
  {
    var b := CreateTableStatement("T", "id", map[], false, ["id"]);
    assert ["id"][..0] == [];
    assert NonKeyColumns(["id"], "id") == [];
    assert b.columns["id"] == "INTEGER";
    assert Clauses([], b.columns) == "";
    assert KeyClause("id", "INTEGER", false) == "id INTEGER,";
    assert Opening("T", false) == "CREATE IF NOT EXISTS \"T\"(";
  }

  lemma SingleKeyIntended()
    ensures IntendedStatement("T", "id", map[], false, ["id"]).statement == "CREATE TABLE IF NOT EXISTS \"T\"(id INTEGER)"
  {
    var b := IntendedStatement("T", "id", map[], false, ["id"]);
    assert ["id"][..0] == [];
    assert NonKeyColumns(["id"], "id") == [];
    assert b.columns["id"] == "INTEGER";
    assert Separated([], b.columns) == "";
    assert KeyDefinition("id", "INTEGER", false) == "id INTEGER";
    assert Opening("T", true) == "CREATE TABLE IF NOT EXISTS \"T\"(";
  }

}
