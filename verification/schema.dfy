/** The value objects the adapter exchanges with the framework: logical data
    types, column, index and table descriptors, and identifier escaping. */
module Schema {

  import opened Wrappers

  /** The framework's portable data types. The first twenty-one are the ones the
      adapter's switches name; OBJECT stands for every member they do not name. */
  datatype DataType =
    | TINYINT | SMALLINT | INTEGER | BIGINT | REAL | FLOAT | DOUBLE
    | NUMERIC | DECIMAL | CHAR | VARCHAR | LONGVARCHAR
    | DATE | TIME | TIMESTAMP
    | BINARY | VARBINARY | LONGVARBINARY
    | CLOB | BLOB | BOOLEAN
    | OBJECT

  /** The enum constant's name, as `DataType.name()` returns it. */
  function TypeName(t: DataType): string {
    match t
    case TINYINT => "TINYINT"
    case SMALLINT => "SMALLINT"
    case INTEGER => "INTEGER"
    case BIGINT => "BIGINT"
    case REAL => "REAL"
    case FLOAT => "FLOAT"
    case DOUBLE => "DOUBLE"
    case NUMERIC => "NUMERIC"
    case DECIMAL => "DECIMAL"
    case CHAR => "CHAR"
    case VARCHAR => "VARCHAR"
    case LONGVARCHAR => "LONGVARCHAR"
    case DATE => "DATE"
    case TIME => "TIME"
    case TIMESTAMP => "TIMESTAMP"
    case BINARY => "BINARY"
    case VARBINARY => "VARBINARY"
    case LONGVARBINARY => "LONGVARBINARY"
    case CLOB => "CLOB"
    case BLOB => "BLOB"
    case BOOLEAN => "BOOLEAN"
    case OBJECT => "OBJECT"
  }

  /** `DataType.valueOf`: the constant with exactly this name; `None` where Java
      throws `IllegalArgumentException`. */
  function ValueOf(s: string): (r: Option<DataType>)
    ensures r.Some? ==> TypeName(r.value) == s
    ensures r.None? ==> forall t :: TypeName(t) != s
  {
    if s == "TINYINT" then Some(TINYINT)
    else if s == "SMALLINT" then Some(SMALLINT)
    else if s == "INTEGER" then Some(INTEGER)
    else if s == "BIGINT" then Some(BIGINT)
    else if s == "REAL" then Some(REAL)
    else if s == "FLOAT" then Some(FLOAT)
    else if s == "DOUBLE" then Some(DOUBLE)
    else if s == "NUMERIC" then Some(NUMERIC)
    else if s == "DECIMAL" then Some(DECIMAL)
    else if s == "CHAR" then Some(CHAR)
    else if s == "VARCHAR" then Some(VARCHAR)
    else if s == "LONGVARCHAR" then Some(LONGVARCHAR)
    else if s == "DATE" then Some(DATE)
    else if s == "TIME" then Some(TIME)
    else if s == "TIMESTAMP" then Some(TIMESTAMP)
    else if s == "BINARY" then Some(BINARY)
    else if s == "VARBINARY" then Some(VARBINARY)
    else if s == "LONGVARBINARY" then Some(LONGVARBINARY)
    else if s == "CLOB" then Some(CLOB)
    else if s == "BLOB" then Some(BLOB)
    else if s == "BOOLEAN" then Some(BOOLEAN)
    else if s == "OBJECT" then Some(OBJECT)
    else None
  }

  lemma ValueOfTypeName(t: DataType)
    ensures ValueOf(TypeName(t)) == Some(t)
  {
  }

  /** Every type name is spelled with upper-case letters only. */
  lemma TypeNameLetters(t: DataType)
    ensures |TypeName(t)| > 0
    ensures forall i :: 0 <= i < |TypeName(t)| ==> 'A' <= TypeName(t)[i] <= 'Z'
  {
  }

  /** A calendar value already broken down into its fields (the formatter's
      time zone and calendar are not modelled). */
  datatype DateTime = DateTime(year: nat, month: nat, day: nat, hour: nat, minute: nat, second: nat)

  /** A non-null column default: a `String`, a `java.util.Date`, or any other
      object, which is rendered by its `toString()` text. */
  datatype Value = Text(s: string) | Moment(d: DateTime) | Other(text: string)

  /** `ColumnMetaData`; a `None` default is Java's null. */
  datatype Column = Column(
    tableName: string,
    name: string,
    caption: string,
    dataType: DataType,
    length: int,
    scale: int,
    defaultValue: Option<Value>,
    nullable: bool,
    autoIncrement: bool)

  datatype IndexType = PRIMARY_KEY | UNIQUE | NORMAL

  /** `Index`: a name, a kind and the ordered column names. */
  datatype Index = Index(name: string, indexType: IndexType, columns: seq<string>)

  datatype TableType = TABLE | VIEW

  datatype TableInfo = TableInfo(tableType: TableType, schema: string, name: string)

  /** A table's row count, or the framework's unknown-row-count sentinel. */
  datatype RowCount = UnknownRowCount | RowCount(count: int)

  /** `TableMetaData` as the statement builders consume it. */
  datatype Table = Table(info: TableInfo, columns: seq<Column>, indices: seq<Index>, rowCount: RowCount)

  /** The identifier delimiter of the engine. */
  const Delimiter: char := '"'

  /** Identifier escaping: the name wrapped in the delimiter. */
  function Esc(name: string): (r: string)
    ensures |r| == |name| + 2
    ensures r[0] == Delimiter && r[|r| - 1] == Delimiter
    ensures r[1..|r| - 1] == name
  {
    [Delimiter] + name + [Delimiter]
  }
}
