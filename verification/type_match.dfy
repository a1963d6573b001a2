/** Type equivalence between a client-side column and the column the database
    reports: the adapter's `equalsType` and its helper `getTypeMatch`. */
module TypeMatch {

  import opened Wrappers
  import opened Schema

  /** Types whose same-type comparison ignores length and scale. */
  predicate IgnoresSize(t: DataType) {
    t in {TINYINT, SMALLINT, INTEGER, BIGINT, REAL, FLOAT, DOUBLE, DATE, TIME, TIMESTAMP,
          BOOLEAN, BINARY, VARBINARY, LONGVARCHAR, LONGVARBINARY, CLOB, BLOB}
  }

  /** One direction of the cross-type table; `None` is Java's null ("no opinion"). */
  function GetTypeMatch(thisColumn: Column, thatColumn: Column): (r: Option<bool>)
    ensures r.Some? <==> thisColumn.dataType in {CLOB, LONGVARCHAR, BLOB, BINARY, BOOLEAN, TINYINT}
    ensures r == Some(true) ==> thisColumn.dataType != thatColumn.dataType
  {
    match thisColumn.dataType
    case CLOB => Some(thatColumn.dataType == LONGVARCHAR)
    case LONGVARCHAR => Some(thatColumn.dataType == CLOB)
    case BLOB => Some(thatColumn.dataType == BINARY)
    case BINARY => Some(thatColumn.dataType == BLOB)
    case BOOLEAN => Some(thatColumn.dataType == TINYINT && thatColumn.length == 1)
    case TINYINT => Some(thatColumn.dataType == BOOLEAN && thisColumn.length == 1)
    case _ => None
  }

  /** Reference statement of the equivalence, written as a table of rules:
      same-type pairs by family, different-type pairs by the three aliases. */
  predicate Equivalent(a: Column, b: Column) {
    if a.dataType == b.dataType then
      match a.dataType
      case NUMERIC | DECIMAL => a.length == b.length && a.scale == b.scale
      case CHAR | VARCHAR => a.length == b.length
      case OBJECT => false
      case _ => true
    else
      || {a.dataType, b.dataType} == {CLOB, LONGVARCHAR}
      || {a.dataType, b.dataType} == {BLOB, BINARY}
      || (a.dataType == BOOLEAN && b.dataType == TINYINT && b.length == 1)
      || (a.dataType == TINYINT && b.dataType == BOOLEAN && a.length == 1)
  }

  function EqualsType(client: Column, db: Column): (r: bool)
    ensures r <==> Equivalent(client, db)
  {
    if client.dataType == db.dataType && IgnoresSize(client.dataType) then true
    else if client.dataType == db.dataType && client.dataType in {NUMERIC, DECIMAL} then
      client.length == db.length && client.scale == db.scale
    else if client.dataType == db.dataType && client.dataType in {CHAR, VARCHAR} then
      client.length == db.length
    else
      match GetTypeMatch(client, db)
      case Some(m) => m
      case None =>
        match GetTypeMatch(db, client)
        case Some(m) => m
        case None => false
  }

  lemma EqualsTypeSymmetric(a: Column, b: Column)
    ensures EqualsType(a, b) == EqualsType(b, a)
  {
  }

  /** Same-type pairs: NUMERIC/DECIMAL need equal length and scale, CHAR/VARCHAR
      equal length, the other named types always match, unnamed types never. */
  lemma SameTypeRules(a: Column, b: Column)
    requires a.dataType == b.dataType
    ensures a.dataType in {NUMERIC, DECIMAL} ==> (EqualsType(a, b) <==> a.length == b.length && a.scale == b.scale)
    ensures a.dataType in {CHAR, VARCHAR} ==> (EqualsType(a, b) <==> a.length == b.length)
    ensures IgnoresSize(a.dataType) ==> EqualsType(a, b)
    ensures a.dataType == OBJECT ==> !EqualsType(a, b)
  {
  }

  /** Different-type pairs match only along the three aliases. */
  lemma CrossTypeRules(a: Column, b: Column)
    requires a.dataType != b.dataType
    ensures EqualsType(a, b) ==>
      || {a.dataType, b.dataType} == {CLOB, LONGVARCHAR}
      || {a.dataType, b.dataType} == {BLOB, BINARY}
      || {a.dataType, b.dataType} == {BOOLEAN, TINYINT}
    ensures {a.dataType, b.dataType} == {CLOB, LONGVARCHAR} ==> EqualsType(a, b)
    ensures {a.dataType, b.dataType} == {BLOB, BINARY} ==> EqualsType(a, b)
    ensures a.dataType == BOOLEAN && b.dataType == TINYINT ==> (EqualsType(a, b) <==> b.length == 1)
  {
  }
}
