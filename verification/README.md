# HSQLDB schema mapping, modelled in Dafny

This project models the schema-mapping core of the HyperSQL (HSQLDB 2.x)
adapter of a database framework. It does not model the JDBC calls. It models
what the adapter computes from what those calls return:

- **Type equivalence.** The framework uses `equalsType` to decide whether a
  client column and a database column need an ALTER.
- **DDL text.** The adapter writes CREATE TABLE, ALTER TABLE … ADD/ALTER/DROP
  COLUMN, ADD constraint and DROP CONSTRAINT statements. That covers the type
  clause, DEFAULT and IDENTITY clauses, string quoting, date literals and index
  definitions.
- **Catalog introspection.** The adapter folds the rows of the engine's system
  views into table lists and per-table metadata. That covers columns, primary
  key, index groups and row count.
- **Stored procedures.** Each procedure row is classified by its return flavour
  and its parameter list.
- **Relationship inference.** The adapter reads one-to-many relationships off
  the exported foreign keys of the tables it was asked about.
- **Ad-hoc CREATE TABLE.** The connection builds this statement from a primary
  key and a map of column types.

Queries become sequences of result rows, passed in as parameters. Java's `null`
becomes `Option`. A thrown exception becomes the `Failure` side of a `Result`.
Hash-map iteration order becomes an explicit parameter or a `map`.

Modules (one file each):

- `Wrappers`: `Option` and `Result`.
- `Text`: number rendering and parsing, prefixes, substrings, string order.
- `Sorting`: a stable insertion sort under a total preorder.
- `Schema`: data types, column, index and table descriptors, identifier
  escaping.
- `TypeMatch`: `equalsType` and `getTypeMatch`.
- `Ddl`: the statement text.
- `DdlReadBack`: parsers that read the DDL text back. They are the partners of
  the DDL functions and prove that the text determines the type, the quoted
  value, the index columns and the date fields.
- `Catalog`: table listing and table metadata.
- `Procedures`: stored procedures.
- `Relationships`: the entity-relationship model.
- `SimpleCreate`: the connection's CREATE TABLE builder.

## Model

Source paths are relative to the repository root.

| member | source | states |
|---|---|---|
| Schema.ValueOf | src/main/java/xdev/db/hsql2/jdbc/HSQL2JDBCMetaData.java:318 | `DataType.valueOf`. It returns a type exactly when the text is that type's name, and fails (Java throws) when no type has that name. |
| Schema.Esc | src/main/java/xdev/db/hsql2/jdbc/HSQL2Dbms.java:40 | An escaped identifier is the name between two `"` delimiters: two characters longer, with the name intact inside. |
| TypeMatch.GetTypeMatch | src/main/java/xdev/db/hsql2/jdbc/HSQL2JDBCMetaData.java:599-640 | It answers only for CLOB, LONGVARCHAR, BLOB, BINARY, BOOLEAN and TINYINT, and is undecided (null) for every other type. A positive answer always pairs two different types. |
| TypeMatch.EqualsType | src/main/java/xdev/db/hsql2/jdbc/HSQL2JDBCMetaData.java:538-596 | Agrees on every pair of columns with a reference rule table. For the same type: NUMERIC/DECIMAL compare length and scale, CHAR/VARCHAR compare length, the other 17 named types always match, an unnamed type never does. Across types only the CLOB/LONGVARCHAR, BLOB/BINARY and BOOLEAN/TINYINT(1) aliases match. |
| TypeMatch.EqualsTypeSymmetric | src/main/java/xdev/db/hsql2/jdbc/HSQL2JDBCMetaData.java:583-593 | Trying `getTypeMatch` in both orders makes the equivalence symmetric. |
| TypeMatch.SameTypeRules | src/main/java/xdev/db/hsql2/jdbc/HSQL2JDBCMetaData.java:543-580 | Same-type pairs: equality of length and scale for NUMERIC/DECIMAL, of length for CHAR/VARCHAR, always for the size-free types, never for an unnamed type. |
| TypeMatch.CrossTypeRules | src/main/java/xdev/db/hsql2/jdbc/HSQL2JDBCMetaData.java:600-640 | Different types match only along the three aliases. CLOB/LONGVARCHAR and BLOB/BINARY always match. BOOLEAN against TINYINT matches exactly when the TINYINT has length 1. |
| Ddl.TypeClauseParameters | src/main/java/xdev/db/hsql2/jdbc/HSQL2JDBCMetaData.java:779-840 | Only NUMERIC, DECIMAL, CHAR and VARCHAR depend on length or scale, and CHAR/VARCHAR not on scale. The 15 plain types print their name. CLOB prints LONGVARCHAR, BLOB prints BINARY, an unnamed type prints nothing. |
| Ddl.IntToStringHasNoComma | src/main/java/xdev/db/hsql2/jdbc/HSQL2JDBCMetaData.java:806-811 | A printed number contains no `,` and no `)`, so the type parameters stay separable. |
| Ddl.DoubleQuotes | src/main/java/xdev/db/hsql2/jdbc/HSQL2JDBCMetaData.java:845-852 | Doubling the apostrophes adds exactly one character per apostrophe. |
| Ddl.QuoteString | src/main/java/xdev/db/hsql2/jdbc/HSQL2JDBCMetaData.java:842-854 | The quoted literal starts and ends with an apostrophe. It is two characters plus one per apostrophe longer than the value. |
| Ddl.DateLiteral | src/main/java/xdev/db/hsql2/jdbc/HSQL2JDBCMetaData.java:859-883 | A date default is written exactly for DATE, TIME and TIMESTAMP columns. Other types write nothing. |
| Ddl.ColumnDefinition | src/main/java/xdev/db/hsql2/jdbc/HSQL2JDBCMetaData.java:731-774 | The definition starts with the type clause and ends with ` NULL` or ` NOT NULL` as the column is nullable. A DEFAULT clause follows the type exactly when the column is not auto-increment and has a default or is nullable. The IDENTITY clause follows exactly when it is auto-increment. |
| Ddl.ColumnDefinitionCases | src/main/java/xdev/db/hsql2/jdbc/HSQL2JDBCMetaData.java:737-763 | The whole definition for each case: IDENTITY; no default and not nullable; DEFAULT NULL; DEFAULT with a quoted string, a date literal or the value's text. |
| Ddl.DateDefaultOnOtherType | src/main/java/xdev/db/hsql2/jdbc/HSQL2JDBCMetaData.java:755-758 | A date default on a column that is not DATE/TIME/TIMESTAMP leaves a bare `DEFAULT` followed by the null clause. |
| Ddl.IndexDefinition | src/main/java/xdev/db/hsql2/jdbc/HSQL2JDBCMetaData.java:924-958 | Fails with the "Only primary keys and unique indices are supported." message exactly for NORMAL indices. Otherwise it writes `PRIMARY KEY (` or `UNIQUE (`, the escaped column list and `)`. |
| Ddl.CreateTable | src/main/java/xdev/db/hsql2/jdbc/HSQL2JDBCMetaData.java:643-682 | The statement opens with `CREATE CACHED TABLE "<name>" (` and closes with `)`. Its length is the head, the column clauses, the index clauses and the `)`, so nothing else is written. |
| Ddl.CreateTableColumnAt | src/main/java/xdev/db/hsql2/jdbc/HSQL2JDBCMetaData.java:652-664 | The i-th column's clause sits right after the head and the clauses of the columns before it, separated from them by `, `. |
| Ddl.CreateTableIndexAt | src/main/java/xdev/db/hsql2/jdbc/HSQL2JDBCMetaData.java:666-673 | Each supported index's definition follows all column clauses and the index clauses before it, after `, `. |
| Ddl.JoinedSplit | src/main/java/xdev/db/hsql2/jdbc/HSQL2JDBCMetaData.java:653-658 | A `, `-joined list splits at any position into the joined front, `, `, and the joined rest. |
| Ddl.CreateTableListsEverything | src/main/java/xdev/db/hsql2/jdbc/HSQL2JDBCMetaData.java:652-673 | Every column's escaped name and definition appear in the statement. So does every supported index's definition, after `, `. |
| Ddl.CreateTableSkipsUnsupported | src/main/java/xdev/db/hsql2/jdbc/HSQL2JDBCMetaData.java:666-673 | Removing the NORMAL indices from the table leaves the statement unchanged. |
| Ddl.IndexClausesIgnoreUnsupported | src/main/java/xdev/db/hsql2/jdbc/HSQL2JDBCMetaData.java:666-673 | The index part of CREATE TABLE is the same with or without the unsupported indices. |
| Ddl.SupportedOnly | src/main/java/xdev/db/hsql2/jdbc/HSQL2JDBCMetaData.java:918-921 | The filtered index list keeps exactly the PRIMARY_KEY and UNIQUE indices. |
| Ddl.AddColumn | src/main/java/xdev/db/hsql2/jdbc/HSQL2JDBCMetaData.java:685-701 | `ALTER TABLE "<t>" ADD COLUMN "<c>" <definition>` when no following column is given. With both a following and a preceding column, it is that text followed by ` BEFORE "<before>"`. With a following column but no preceding one, it fails with a NullPointerException, because the code reads the name of the preceding column. |
| Ddl.AlterColumn | src/main/java/xdev/db/hsql2/jdbc/HSQL2JDBCMetaData.java:711-728 | Exactly `ALTER TABLE "<t>" ALTER COLUMN "<existing>" <definition>`: the existing column's name, then the new column's definition, and nothing else. |
| Ddl.DropColumn | src/main/java/xdev/db/hsql2/jdbc/HSQL2JDBCMetaData.java:885-896 | Exactly `ALTER TABLE "<t>" DROP COLUMN "<c>"`: the prefix and the DROP COLUMN suffix, and nothing between them. |
| Ddl.CreateIndex | src/main/java/xdev/db/hsql2/jdbc/HSQL2JDBCMetaData.java:899-915 | No statement at all for a NORMAL index. Otherwise `ALTER TABLE "<t>" ADD ` and the index definition. |
| Ddl.ValidIndexName | src/main/java/xdev/db/hsql2/jdbc/HSQL2JDBCMetaData.java:976-984 | Never yields `PRIMARY_KEY`. It maps that name to `PK` and leaves every other name unchanged. |
| Ddl.ValidIndexNameIdempotent | src/main/java/xdev/db/hsql2/jdbc/HSQL2JDBCMetaData.java:976-984 | Applying the renaming twice is applying it once. |
| Ddl.DropIndex | src/main/java/xdev/db/hsql2/jdbc/HSQL2JDBCMetaData.java:961-973 | Exactly `ALTER TABLE "<t>" DROP CONSTRAINT "<name>"`, where the name is the valid index name. |
| Ddl.DropPrimaryKeyOfOrders | src/main/java/xdev/db/hsql2/jdbc/HSQL2JDBCMetaData.java:961-984 | Dropping the index `PRIMARY_KEY` of table ORDERS writes `ALTER TABLE "ORDERS" DROP CONSTRAINT "PK"`. |
| DdlReadBack.TypeClauseReadBack | src/main/java/xdev/db/hsql2/jdbc/HSQL2JDBCMetaData.java:779-840 | Parsing a type clause gives back its type and exactly the numbers that type takes: length and scale, length only, or none. CLOB and BLOB read back as their stored aliases. The unnamed type yields nothing readable. |
| DdlReadBack.TypeClauseRoundTripIsEquivalent | src/main/java/xdev/db/hsql2/jdbc/HSQL2JDBCMetaData.java:538-596 | For every named type, a column re-read from its own type clause is `equalsType`-equivalent to the original, so creating a column and comparing it again asks for no ALTER. |
| DdlReadBack.UndoubleDoubleQuotes | src/main/java/xdev/db/hsql2/jdbc/HSQL2JDBCMetaData.java:845-852 | Undoubling the apostrophes restores any value. |
| DdlReadBack.QuoteStringRoundTrip | src/main/java/xdev/db/hsql2/jdbc/HSQL2JDBCMetaData.java:842-854 | The quoted string literal reads back to the original value, whatever apostrophes it holds. |
| DdlReadBack.EscapedListRoundTrip | src/main/java/xdev/db/hsql2/jdbc/HSQL2JDBCMetaData.java:947-957 | The `", "`-separated escaped column list reads back to the same column names in order, when no name contains the delimiter. |
| DdlReadBack.IndexDefinitionReadBack | src/main/java/xdev/db/hsql2/jdbc/HSQL2JDBCMetaData.java:924-958 | From a supported index's definition one reads back its kind keyword and its column list. |
| DdlReadBack.DateLiteralReadBack | src/main/java/xdev/db/hsql2/jdbc/HSQL2JDBCMetaData.java:89 | A DATE default is `'yyyy-MM-dd'`: the digit fields at fixed positions parse back to year, month and day. |
| DdlReadBack.TimeLiteralReadBack | src/main/java/xdev/db/hsql2/jdbc/HSQL2JDBCMetaData.java:90 | A TIME default is `'HH:mm:ss'`, and its fields parse back to hour, minute and second. |
| DdlReadBack.TimestampLiteralShape | src/main/java/xdev/db/hsql2/jdbc/HSQL2JDBCMetaData.java:91 | A TIMESTAMP default is the date part, a blank and the time part, inside one pair of apostrophes. |
| Catalog.TableTypeStatement | src/main/java/xdev/db/hsql2/jdbc/HSQL2JDBCMetaData.java:987-1014 | Empty exactly for an empty set of types. Otherwise a parenthesised list that mentions `'TABLE'` exactly when TABLE is requested and `'VIEW'` exactly when VIEW is. With both types the text is exactly `('TABLE' , 'VIEW')`. |
| Catalog.SelectTables | src/main/java/xdev/db/hsql2/jdbc/HSQL2JDBCMetaData.java:113-132 | A table info is listed exactly when some catalog row has type TABLE or VIEW and that type is requested. Only requested types come out. |
| Catalog.SelectTablesOne | src/main/java/xdev/db/hsql2/jdbc/HSQL2JDBCMetaData.java:113-132 | One catalog row gives its table info when its type is admitted, and nothing otherwise. |
| Catalog.SelectTablesAppend | src/main/java/xdev/db/hsql2/jdbc/HSQL2JDBCMetaData.java:113-132 | The listing loop works row by row: the selection of two row runs one after the other is the selection of the first followed by that of the second. |
| Catalog.TableQueryRefused | src/main/java/xdev/db/hsql2/jdbc/HSQL2JDBCMetaData.java:108-111 | The listing query ends in `in ` with no list after it exactly when no table type is requested. |
| Catalog.TableInfos | src/main/java/xdev/db/hsql2/jdbc/HSQL2JDBCMetaData.java:100-142 | It fails exactly when no table type is requested, because the query then has nothing after `in `. Otherwise the listing is sorted under the table-info order and is a permutation of the admitted rows. Rows that tie under the order keep their catalog order, as `Arrays.sort` on objects is stable. |
| Sorting.InsertionSortStable | src/main/java/xdev/db/hsql2/jdbc/HSQL2JDBCMetaData.java:139-140 | Sorting keeps, for every element, the elements tied with it in their original order. |
| Catalog.AutoIncrementMap | src/main/java/xdev/db/hsql2/jdbc/HSQL2JDBCMetaData.java:151-160 | It has a key exactly for each result-column name. |
| Catalog.AutoIncrementLastWins | src/main/java/xdev/db/hsql2/jdbc/HSQL2JDBCMetaData.java:156-160 | For a repeated name, the flag of its last occurrence wins. |
| Catalog.ColumnFromRow | src/main/java/xdev/db/hsql2/jdbc/HSQL2JDBCMetaData.java:249-274 | A column descriptor from one system-column row:<br>- the default text `NULL` becomes no default;<br>- nullable exactly when IS_NULLABLE is `YES`;<br>- auto-increment exactly when the map has the name with `true`;<br>- an empty caption;<br>- type, size and digits copied. |
| Catalog.ColumnsOf | src/main/java/xdev/db/hsql2/jdbc/HSQL2JDBCMetaData.java:163-171 | One column per row, in row order. |
| Catalog.PrimaryKeyOf | src/main/java/xdev/db/hsql2/jdbc/HSQL2JDBCMetaData.java:173-185 | The key columns are the set of the rows' column names, empty exactly when there are no rows. The name is `PRIMARY_KEY` without rows and otherwise the last row's PK_NAME. |
| Catalog.IndexGroups | src/main/java/xdev/db/hsql2/jdbc/HSQL2JDBCMetaData.java:197-215 | Every group is the starting group plus the column names of the kept rows with that index name and kind. A row is kept when it has an index name and a column that is not a primary key column. Groups exist exactly for the start and the kept keys. |
| Catalog.IndexGroupsOf | src/main/java/xdev/db/hsql2/jdbc/HSQL2JDBCMetaData.java:187-226 | No groups unless indices are requested. A PRIMARY_KEY group exists exactly when they are and the key has rows, and it holds the key columns. Any other index key has a group exactly when the kept rows give it columns, and the group is exactly those columns. Every such group is disjoint from the key columns. Every PRIMARY_KEY group carries the key's name. |
| Catalog.TableMetaDataOf | src/main/java/xdev/db/hsql2/jdbc/HSQL2JDBCMetaData.java:145-247 | Assembles the info, the columns and the index groups. The row count stays unknown unless requested; when requested it is the count row's value, or unknown without one. |
| Procedures.SplitLengthAboveOne | src/main/java/xdev/db/hsql2/jdbc/HSQL2JDBCMetaData.java:309-310 | `split(",")` (trailing empty pieces dropped) yields more than one piece exactly when some comma is followed, somewhere later, by a character other than a comma. |
| Procedures.PiecesNonEmptyIffValue | src/main/java/xdev/db/hsql2/jdbc/HSQL2JDBCMetaData.java:309 | Some split piece is non-empty exactly when the text has a non-comma character. |
| Procedures.ConvDataTypeString | src/main/java/xdev/db/hsql2/jdbc/HSQL2JDBCMetaData.java:380-403 | `character`, `bit`, `other`, `datetime` and `int`, in any letter case, become CHAR, BOOLEAN, OBJECT, TIMESTAMP and INTEGER. Every other text is unchanged. |
| Procedures.ConvDataTypeStringIdempotent | src/main/java/xdev/db/hsql2/jdbc/HSQL2JDBCMetaData.java:380-403 | Converting twice is converting once, and every rewritten spelling is a framework type name. |
| Procedures.InitialFlavor | src/main/java/xdev/db/hsql2/jdbc/HSQL2JDBCMetaData.java:301-325 | procedureNoResult gives VOID; an unknown procedure type gives UNKNOWN. procedureReturnsResult gives RESULT_SET when the type text splits into several pieces. Otherwise it gives TYPE with the converted type, and fails when `valueOf` rejects it. |
| Procedures.ApplyColumns | src/main/java/xdev/db/hsql2/jdbc/HSQL2JDBCMetaData.java:330-360 | The parameters are the IN, OUT and IN_OUT columns in order, appended to those already collected. |
| Procedures.ApplyColumnsWithoutMarker | src/main/java/xdev/db/hsql2/jdbc/HSQL2JDBCMetaData.java:334-359 | Columns that are neither return nor result leave the flavour and the return type unchanged. |
| Procedures.ApplyColumnsLastMarker | src/main/java/xdev/db/hsql2/jdbc/HSQL2JDBCMetaData.java:336-343 | The last return or result column decides: a return column gives TYPE with its type, a result column gives RESULT_SET. A result column leaves the return type as the columns before it had set it. |
| Procedures.ApplyColumnsWithoutReturn | src/main/java/xdev/db/hsql2/jdbc/HSQL2JDBCMetaData.java:336-343 | Without a return column the return type is never touched. |
| Procedures.ProcedureOf | src/main/java/xdev/db/hsql2/jdbc/HSQL2JDBCMetaData.java:295-364 | It fails exactly when the initial classification fails. It carries the row's name and remarks and the parameters in column order. The flavour is the initial one unless some column marks it, and then the last marker decides. After a final result column the return type is whatever the earlier columns left, and without any return column it is the initial one. |
| Procedures.StoredProcedures | src/main/java/xdev/db/hsql2/jdbc/HSQL2JDBCMetaData.java:293-376 | It succeeds exactly when every row does, and then lists one procedure per row in row order. |
| Relationships.Flush | src/main/java/xdev/db/hsql2/jdbc/HSQL2JDBCMetaData.java:511-534 | It emits a ONE-to-MANY relationship exactly when both tables are among the inspected ones, and only then clears the column lists. Otherwise nothing changes. |
| Relationships.Fold | src/main/java/xdev/db/hsql2/jdbc/HSQL2JDBCMetaData.java:462-481 | The key lists stay of equal length. They are empty exactly when no row was read, and otherwise hold the last row's tables. Every relationship emitted so far is well formed. |
| Relationships.ScanTable | src/main/java/xdev/db/hsql2/jdbc/HSQL2JDBCMetaData.java:459-486 | Every relationship read from one table's exported keys is well formed: ONE to MANY, key column lists of equal non-zero length, both tables inspected. |
| Relationships.Subset | src/main/java/xdev/db/hsql2/jdbc/HSQL2JDBCMetaData.java:435-443 | The inspected tables are exactly the TABLE-type names, sorted as strings and as a permutation of the selected names. |
| Relationships.EntityRelationshipModel | src/main/java/xdev/db/hsql2/jdbc/HSQL2JDBCMetaData.java:425-505 | The model is the exported-key relationships of each inspected table, concatenated in the sorted visiting order. Every relationship in it is one-to-many between two TABLE-type tables of the request, with key column lists of equal non-zero length. |
| Relationships.ModelOver | src/main/java/xdev/db/hsql2/jdbc/HSQL2JDBCMetaData.java:450-494 | The relationships of the visited tables are each table's own relationships, one table after another in visiting order. |
| Relationships.Keys | src/main/java/xdev/db/hsql2/jdbc/HSQL2JDBCMetaData.java:467-481 | There is one key per key start (the first row and each later row numbered 1), each key is non-empty, and the last key ends with the last row. |
| Relationships.KeysSplitRows | src/main/java/xdev/db/hsql2/jdbc/HSQL2JDBCMetaData.java:467-481 | The keys put back together are the rows, in order. Every key after the first starts at a row numbered 1, and no row inside a key is numbered 1. |
| Relationships.FoldKeys | src/main/java/xdev/db/hsql2/jdbc/HSQL2JDBCMetaData.java:467-481 | When every key stays inside the inspected tables, after reading the rows the emitted relationships are those of all keys but the last, in order. The lists being gathered hold the last key's column names. |
| Relationships.ScanTableKeys | src/main/java/xdev/db/hsql2/jdbc/HSQL2JDBCMetaData.java:467-486 | When every key stays inside the inspected tables, the k-th relationship of a table is built from the k-th key. Its principal is the key's PKTABLE_NAME with the PKCOLUMN_NAME values in row order, and its dependent is FKTABLE_NAME with the FKCOLUMN_NAME values. |
| Relationships.FoldInsideSubset | src/main/java/xdev/db/hsql2/jdbc/HSQL2JDBCMetaData.java:467-481 | When every key stays inside the inspected tables, each key start after the first emits one relationship, and no key column is lost. |
| Relationships.ScanTableInsideSubset | src/main/java/xdev/db/hsql2/jdbc/HSQL2JDBCMetaData.java:467-486 | Then the table yields one relationship per key, and their columns add up to the number of rows. |
| Relationships.TwoKeysTwoRelationships | src/main/java/xdev/db/hsql2/jdbc/HSQL2JDBCMetaData.java:467-486 | Rows (T1→T2, seq 1), (T1→T2, seq 2), (T3→T4, seq 1) give a two-column relationship and then a one-column one. |
| Relationships.DiscardedKeyCarriesOver | src/main/java/xdev/db/hsql2/jdbc/HSQL2JDBCMetaData.java:519-533 | A key whose referencing table is not inspected is not emitted. Its columns stay in the lists and are prepended to the next key's columns. |
| SimpleCreate.WithPrimaryKey | src/main/java/xdev/db/hsql2/jdbc/HSQL2JDBCConnection.java:43-46 | A missing primary key is added with type INTEGER. Every existing entry is kept, and no other key is added. |
| SimpleCreate.CreateTableStatement | src/main/java/xdev/db/hsql2/jdbc/HSQL2JDBCConnection.java:38-72 | With auto-increment the statement opens `CREATE TABLE IF NOT EXISTS "<t>"(` and has the key clause ` IDENTITY NOT NULL,`. Without it, it opens `CREATE IF NOT EXISTS "<t>"(`. It always ends with `,)`. The resulting column map has the primary key added. The statement is exactly the opening, the key clause, the clauses of the non-key columns in enumeration order, and `)`. |
| SimpleCreate.NonKeyColumnsExact | src/main/java/xdev/db/hsql2/jdbc/HSQL2JDBCConnection.java:64-70 | The loop lists every key except the primary key, each exactly once. |
| SimpleCreate.EveryColumnListed | src/main/java/xdev/db/hsql2/jdbc/HSQL2JDBCConnection.java:64-70 | Every non-key column appears as `<name> <type>,` with its type text from the map. |
| SimpleCreate.ClauseAt | src/main/java/xdev/db/hsql2/jdbc/HSQL2JDBCConnection.java:64-70 | Each column's clause sits right after the clauses of the columns before it. |
| SimpleCreate.StatementClauseAt | src/main/java/xdev/db/hsql2/jdbc/HSQL2JDBCConnection.java:64-70 | In a statement built as opening, key clause, column clauses and `)`, the j-th column's clause sits right after the opening, the key clause and the clauses before it. |
| SimpleCreate.PlainStatementLacksTable | src/main/java/xdev/db/hsql2/jdbc/HSQL2JDBCConnection.java:57-62 | Without auto-increment the statement does not start with `CREATE TABLE`. |
| SimpleCreate.IntendedStatementShape | src/main/java/xdev/db/hsql2/jdbc/HSQL2JDBCConnection.java:50-72 | The corrected statement always opens `CREATE TABLE IF NOT EXISTS` and closes on its last column definition followed directly by `)`. |
| SimpleCreate.SingleKeyExample | src/main/java/xdev/db/hsql2/jdbc/HSQL2JDBCConnection.java:43-72 | For table T with only the key `id` and no auto-increment, the builder writes `CREATE IF NOT EXISTS "T"(id INTEGER,)`. The corrected builder writes `CREATE TABLE IF NOT EXISTS "T"(id INTEGER)`. |
| Text.IntToStringRoundTrip | src/main/java/xdev/db/hsql2/jdbc/HSQL2JDBCMetaData.java:808-810 | A printed length or scale, negative ones included, parses back to the same integer. |
| Text.PadLength | src/main/java/xdev/db/hsql2/jdbc/HSQL2JDBCMetaData.java:89-91 | A field below 10^width is printed in exactly `width` digits, zero-padded, as the date patterns require. |

## Left out

- Query execution, connections, statements, result sets and the progress monitor with its cancellation. The model starts from the rows the queries return. The SQL text of the catalog queries is not modelled, except for the table-listing query. For that query only the refusal of an empty `IN` filter is modelled. The engine's error text is not.
- `DataType.get(int)`, the JDBC type-code mapping. Catalog and procedure-column rows carry the already resolved type. The framework's type enumeration beyond the 21 types the adapter names is represented by `OBJECT`.
- `appendEscapedName` belongs to the framework and is not part of this model. It is modelled as wrapping the name in the `"` delimiter that the Dbms class declares, without escaping delimiters inside the name.
- The order of `TableInfo` (its `compareTo`) is a framework class and is taken as a parameter satisfying the total-preorder laws.
- The iteration order of `HashMap`/`HashSet` is not modelled. Index groups are a map from index key to a set of columns, and the connection's column map is enumerated in an order given as a parameter.
- `SimpleDateFormat`: time zone, calendar and era are left out. A date value is its broken-down fields.
- DdlReadBack.DateLiteralReadBack: stated for years below 10000. Longer years are printed in full and shift the field positions.
- Java `null` strings (a null DATA_TYPE, a null table name) and the resulting NullPointerExceptions are not modelled. The one null dereference that is modelled is `addColumn` reading a missing preceding column. Nullable catalog cells that the code tests for null are `Option`s.
- Procedures.ConvDataTypeString: `equalsIgnoreCase` is modelled with ASCII case folding only. Java also folds non-ASCII letters.
- Text.StrLe: strings are ordered by Dafny character, which matches `String.compareTo` on UTF-16 units only for characters of the Basic Multilingual Plane.
- Relationships: KEY_SEQ is taken as the integer `getShort` already returned. Truncating a larger catalog value to 16 bits is not modelled.
- The procedure query's `LIKE` filters and the framework's `getProcedureColumns` lookup are taken as a map from procedure name to its column rows.
- `getServerTime`, `HSQL2RetrospectionAccessor` and the `HSQL2Dbms` wiring (driver, connection URL, feature flags) are left out. They compute nothing over the schema.
- Writing the statements to the connection and the debug logging are left out.

## Findings

| source | as written | input that shows it | evidently intended | confidence | as-written member | corrected member |
|---|---|---|---|---|---|---|
| src/main/java/xdev/db/hsql2/jdbc/HSQL2JDBCConnection.java:57-62 | Without auto-increment the statement opens `CREATE IF NOT EXISTS "<t>"(`, leaving out the TABLE keyword. | table `T`, key `id`, empty map, no auto-increment | `CREATE TABLE IF NOT EXISTS "<t>"(`, as in the auto-increment branch | high; not executed | SimpleCreate.PlainStatementLacksTable | SimpleCreate.IntendedStatementShape |
| src/main/java/xdev/db/hsql2/jdbc/HSQL2JDBCConnection.java:61-72 | Every column clause, the last included, ends with `,`, so the statement always ends with `,)`. | table `T`, key `id`, empty map: `...(id INTEGER,)` | commas only between column definitions | high; not executed | SimpleCreate.SingleKeyExample | SimpleCreate.IntendedStatementShape |
