/**
 * The Postgres adapter (src/dbdiff/schema/postgres.py) after its catalog
 * queries: the entity constructors fed by `information_schema` rows, the check
 * clause of a constraint, the grooming of connection arguments, and the
 * `pg_catalog` constraint fetchers that map column positions to column names.
 * Catalog rows are given as values; the cursor and the SQL text are not part
 * of the model.
 */
module Postgres {
  import opened Wrappers
  import opened Schema
  import opened OrderedMaps
  import Databases
  import Partition
  import Text

  // ---------------------------------------------------------------- constructors

  /** The fields of an `information_schema.tables` row that `PostgresTable` keeps. */
  datatype TableRow = TableRow(tableSchema: string, tableName: string)

  /**
   * `PostgresTable(**row)`: a table in its schema, so its full name is qualified.
   * The rows count comes from a `TABLE_ROWS` field the Postgres catalog never has.
   */
  function NewPostgresTable(row: TableRow): (t: Table)
    ensures t.name == row.tableName && t.schema == Some(row.tableSchema)
    ensures FullName(t) == row.tableSchema + "." + row.tableName
    ensures t.columns == [] && t.constraints == [] && t.indexes == [] && t.rows == VNull
  {
    NewTable(row.tableName, Some(row.tableSchema), VNull)
  }

  /** The fields of an `information_schema.columns` row that `PostgresColumn` reads. */
  datatype ColumnRow = ColumnRow(tableSchema: string, tableName: string, columnName: string, ordinalPosition: Option<int>,
                                 columnDefault: Value, isNullable: Value, dataType: string,
                                 characterMaximumLength: Option<int>, udtName: string)

  /** `f"{n}"` for a length that may be missing. */
  function ShowLength(n: Option<int>): string {
    if n.Some? then Text.IntToString(n.value) else "None"
  }

  /** The type a `PostgresColumn` records: the length is appended for `character varying` only. */
  function PgDataType(row: ColumnRow): string {
    if row.dataType == "character varying" then row.udtName + "(" + ShowLength(row.characterMaximumLength) + ")"
    else row.udtName
  }

  /** `PostgresColumn(**row)`: nullable exactly for `'YES'`, never a key column until a primary key marks it. */
  function NewPostgresColumn(row: ColumnRow): (c: Column)
    ensures c.kind == Postgres && c.name == row.columnName && c.tableName == row.tableName
    ensures c.schema == Some(row.tableSchema) && c.position == row.ordinalPosition && c.defaultValue == row.columnDefault
    ensures c.nullable <==> row.isNullable == VStr("YES")
    ensures !c.primaryKey && c.constraints == VNull
    ensures row.dataType != "character varying" ==> c.typeName == row.udtName
    ensures row.dataType == "character varying" ==>
              |c.typeName| > |row.udtName| + 1 && c.typeName[..|row.udtName|] == row.udtName
              && c.typeName[|row.udtName|] == '(' && c.typeName[|c.typeName| - 1] == ')'
  {
    Column(Postgres, row.columnName, PgDataType(row), row.tableName, Some(row.tableSchema),
           row.isNullable == VStr("YES"), false, row.columnDefault, VNull, row.ordinalPosition)
  }

  /**
   * A `character varying` type reads back: the name before the first `(` is the
   * type name and the digits between the parentheses are the maximum length.
   */
  lemma VaryingTypeReadsBack(row: ColumnRow, n: nat)
    requires row.dataType == "character varying" && row.characterMaximumLength == Some(n) && '(' !in row.udtName
    ensures var s := NewPostgresColumn(row).typeName;
            var i := Text.IndexOf(s, '(');
            && i == |row.udtName| && s[..i] == row.udtName && s[|s| - 1] == ')'
            && (forall k :: i + 1 <= k < |s| - 1 ==> '0' <= s[k] <= '9')
            && Text.ParseNat(s[i + 1..|s| - 1]) == n
  {
    var s := PgDataType(row);
    var u := row.udtName;
    var digits := Text.NatToString(n);
    assert s == u + "(" + digits + ")";
    assert s[|u|] == '(';
    assert forall k :: 0 <= k < |u| ==> s[k] == u[k];
    assert Text.IndexOf(s, '(') == |u|;
    assert s[|u| + 1..|s| - 1] == digits;
    Text.NatToStringParses(n);
  }

  /** Two `character varying` columns of one type name and otherwise equal rows are equal exactly when their lengths are. */
  lemma VaryingLengthsDistinguish(row: ColumnRow, m: nat, n: nat)
    requires row.dataType == "character varying"
    ensures m == n <==> ColumnEq(NewPostgresColumn(row.(characterMaximumLength := Some(m))),
                                 NewPostgresColumn(row.(characterMaximumLength := Some(n))))
  {
    var a, b := row.(characterMaximumLength := Some(m)), row.(characterMaximumLength := Some(n));
    if PgDataType(a) == PgDataType(b) {
      var u := row.udtName;
      var da, db := Text.NatToString(m), Text.NatToString(n);
      assert PgDataType(a)[|u| + 1..|PgDataType(a)| - 1] == da;
      assert PgDataType(b)[|u| + 1..|PgDataType(b)| - 1] == db;
      Text.NatToStringInjective(m, n);
    }
  }

  /** The fields of an `information_schema.table_constraints` row that `PostgresConstraint` reads. */
  datatype ConstraintRow = ConstraintRow(constraintSchema: string, constraintName: string, constraintType: string,
                                         tableSchema: string, tableName: string)

  /**
   * `PostgresConstraint(**row)`: the constraint's schema is the constraint
   * schema, the table schema is not kept, and there is no check clause yet.
   */
  function NewPostgresConstraint(row: ConstraintRow): (c: Constraint)
    ensures c.kind == Postgres && c.name == row.constraintName && c.constraintType == row.constraintType
    ensures c.schema == Some(row.constraintSchema) && c.table == Some(row.tableName) && c.columns == []
    ensures c.referenceSchema.None? && c.referenceTable.None? && c.referenceColumns.None? && c.checkClause.None?
    ensures IsPrimaryKey(c) <==> row.constraintType == "PRIMARY KEY"
    ensures IsForeignKey(c) <==> row.constraintType == "FOREIGN KEY"
  {
    Constraint(Postgres, row.constraintName, Some(row.constraintSchema), row.constraintType, Some(row.tableName),
               [], None, None, None, None)
  }

  /** The table schema of a row plays no part in the constraint built from it. */
  lemma ConstraintIgnoresTableSchema(row: ConstraintRow, other: string)
    ensures NewPostgresConstraint(row.(tableSchema := other)) == NewPostgresConstraint(row)
  {
  }

  // ---------------------------------------------------------------- check clauses

  /** The column a check clause such as `fieldname IS NOT NULL` is about: its text up to the first space. */
  function ClauseField(clause: string): (f: string)
    ensures f == Text.Split(clause, ' ')[0]
    ensures ' ' !in f && f <= clause
  {
    clause[..Text.IndexOf(clause, ' ')]
  }

  /**
   * `add_check_clause(clause)`: the clause's column is added when the constraint
   * does not list it yet, and the clause is kept.
   */
  function AddCheckClause(c: Constraint, clause: string): (r: Constraint)
    ensures r.checkClause == Some(clause)
    ensures ClauseField(clause) in c.columns ==> r.columns == c.columns
    ensures ClauseField(clause) !in c.columns ==> r.columns == c.columns + [ClauseField(clause)]
    ensures r.(columns := c.columns, checkClause := c.checkClause) == c
  {
    var field := ClauseField(clause);
    var cols := if field !in c.columns then c.columns + [field] else c.columns;
    c.(columns := cols, checkClause := Some(clause))
  }

  /** After `add_check_clause` the clause's column is listed, and listed once if it was at most once before. */
  lemma CheckClauseListsField(c: Constraint, clause: string)
    ensures ClauseField(clause) in AddCheckClause(c, clause).columns
    ensures multiset(AddCheckClause(c, clause).columns)[ClauseField(clause)] == if ClauseField(clause) in c.columns then multiset(c.columns)[ClauseField(clause)] else 1
  {
  }

  /** Columns listed without repeats stay without repeats. */
  lemma CheckClauseKeepsDistinct(c: Constraint, clause: string)
    requires forall i, j :: 0 <= i < j < |c.columns| ==> c.columns[i] != c.columns[j]
    ensures var cols := AddCheckClause(c, clause).columns;
            forall i, j :: 0 <= i < j < |cols| ==> cols[i] != cols[j]
  {
  }

  /** Adding the same clause twice is adding it once. */
  lemma CheckClauseIdempotent(c: Constraint, clause: string)
    ensures AddCheckClause(AddCheckClause(c, clause), clause) == AddCheckClause(c, clause)
  {
  }

  /** The clause `name IS NOT NULL` is about column `name`. */
  lemma NotNullClauseField(name: string)
    requires ' ' !in name
    ensures ClauseField(name + " IS NOT NULL") == name
  {
    var s := name + " IS NOT NULL";
    assert s[|name|] == ' ';
    assert forall k :: 0 <= k < |name| ==> s[k] == name[k];
  }

  /** A second clause on another column appends that column after the first. */
  lemma TwoClausesInOrder(c: Constraint, a: string, b: string)
    requires c.columns == [] && ' ' !in a && ' ' !in b && a != b
    ensures var r := AddCheckClause(AddCheckClause(c, a + " IS NOT NULL"), b + " IS NOT NULL");
            r.columns == [a, b] && r.checkClause == Some(b + " IS NOT NULL")
  {
    NotNullClauseField(a);
    NotNullClauseField(b);
  }

  // ---------------------------------------------------------------- connection arguments

  /**
   * The keyword arguments `connect` hands on: `database` is renamed to `dbname`
   * unless `dbname` is given too, and `schemalist` is dropped.
   */
  function Groomed(kwargs: map<string, string>): (r: map<string, string>) {
    map k | k in (kwargs.Keys - {"database", "schemalist"}) + (if "database" in kwargs then {"dbname"} else {})
          :: if k == "dbname" && "dbname" !in kwargs then kwargs["database"] else kwargs[k]
  }

  /** What grooming keeps, renames and drops. */
  lemma GroomedContents(kwargs: map<string, string>)
    ensures "database" !in Groomed(kwargs) && "schemalist" !in Groomed(kwargs)
    ensures "dbname" in Groomed(kwargs) <==> "dbname" in kwargs || "database" in kwargs
    ensures "dbname" in kwargs ==> Groomed(kwargs)["dbname"] == kwargs["dbname"]
    ensures "dbname" !in kwargs && "database" in kwargs ==> Groomed(kwargs)["dbname"] == kwargs["database"]
    ensures forall k :: k != "database" && k != "schemalist" && k != "dbname" ==>
              (k in Groomed(kwargs) <==> k in kwargs) && (k in kwargs ==> Groomed(kwargs)[k] == kwargs[k])
  {
  }

  /** Grooming arguments that are already groomed changes nothing. */
  lemma GroomedIdempotent(kwargs: map<string, string>)
    ensures Groomed(Groomed(kwargs)) == Groomed(kwargs)
  {
    GroomedContents(kwargs);
    GroomedContents(Groomed(kwargs));
  }

  /** Grooming as the three dictionary updates `connect` performs, one after another. */
  lemma GroomedSteps(kwargs: map<string, string>)
    ensures Groomed(kwargs) == (if "database" in kwargs then
                                  var m1 := kwargs - {"database"};
                                  if "dbname" in m1 then m1 else m1["dbname" := kwargs["database"]]
                                else kwargs) - {"schemalist"}
  {
    var steps := (if "database" in kwargs then
                    var m1 := kwargs - {"database"};
                    if "dbname" in m1 then m1 else m1["dbname" := kwargs["database"]]
                  else kwargs) - {"schemalist"};
    GroomedContents(kwargs);
    assert forall k :: k in Groomed(kwargs) <==> k in steps;
    assert forall k :: k in steps ==> Groomed(kwargs)[k] == steps[k];
  }

  /** The grooming in `connect`: delete `database`, store it as `dbname` if that is missing, delete `schemalist`. */
  method GroomConnectArgs(kwargs: OrdMap<string, string>) returns (r: OrdMap<string, string>)
    requires kwargs.Valid()
    ensures r.Valid()
    ensures r.m == Groomed(kwargs.m)
  {
    r := kwargs;
    if "database" in r.m {
      var dbname := r.m["database"];
      r := r.Remove("database");
      if "dbname" !in r.m {
        r := r.Put("dbname", dbname);
      }
    }
    if "schemalist" in r.m {
      r := r.Remove("schemalist");
    }
    GroomedSteps(kwargs.m);
  }

  // ---------------------------------------------------------------- column positions

  /** `get_column_by_position(p)`: the first column at ordinal position `p`. */
  function ColumnAt(cols: seq<Column>, p: int): Option<Column> {
    Partition.Lookup(cols, ColumnPosition, Some(p))
  }

  function ColumnNotFound(p: int, tabname: string): Error {
    ValueError("column not found:" + Text.IntToString(p) + " in table " + tabname)
  }

  /**
   * The `for colindex in columns` loops of the `pgcat` fetchers: the name of the
   * column at each position in order, or `ValueError` for the first position
   * without a column.
   */
  function PositionNames(cols: seq<Column>, tabname: string, ps: seq<int>): (r: Result<seq<string>>)
    ensures r.Ok? ==> |r.value| == |ps|
  {
    if ps == [] then Ok([])
    else
      match PositionNames(cols, tabname, ps[..|ps| - 1])
      case Err(e) => Err(e)
      case Ok(names) =>
        match ColumnAt(cols, ps[|ps| - 1])
        case None => Err(ColumnNotFound(ps[|ps| - 1], tabname))
        case Some(c) => Ok(names + [c.name])
  }

  /** The positions are mapped exactly when each has a column, and each name is that of the first column there. */
  lemma {:induction false} PositionNamesOk(cols: seq<Column>, tabname: string, ps: seq<int>)
    ensures PositionNames(cols, tabname, ps).Ok? <==> forall k :: 0 <= k < |ps| ==> ColumnAt(cols, ps[k]).Some?
    ensures PositionNames(cols, tabname, ps).Ok? ==>
              forall k :: 0 <= k < |ps| ==> PositionNames(cols, tabname, ps).value[k] == ColumnAt(cols, ps[k]).value.name
    decreases |ps|
  {
    if ps != [] {
      var init := ps[..|ps| - 1];
      PositionNamesOk(cols, tabname, init);
      assert forall k :: 0 <= k < |init| ==> init[k] == ps[k];
    }
  }

  /** The error names the first position that has no column. */
  lemma {:induction false} PositionNamesFirstMissing(cols: seq<Column>, tabname: string, ps: seq<int>, n: nat)
    requires n < |ps| && ColumnAt(cols, ps[n]).None?
    requires forall k :: 0 <= k < n ==> ColumnAt(cols, ps[k]).Some?
    ensures PositionNames(cols, tabname, ps) == Err(ColumnNotFound(ps[n], tabname))
    decreases |ps|
  {
    var init := ps[..|ps| - 1];
    if n < |init| {
      assert forall k :: 0 <= k <= n ==> init[k] == ps[k];
      PositionNamesFirstMissing(cols, tabname, init, n);
    } else {
      assert forall k :: 0 <= k < |init| ==> init[k] == ps[k];
      PositionNamesOk(cols, tabname, init);
    }
  }

  /** One more position that has a column adds its name. */
  lemma PositionNamesNext(cols: seq<Column>, tabname: string, ps: seq<int>, i: nat)
    requires i < |ps| && PositionNames(cols, tabname, ps[..i]).Ok? && ColumnAt(cols, ps[i]).Some?
    ensures PositionNames(cols, tabname, ps[..i + 1])
         == Ok(PositionNames(cols, tabname, ps[..i]).value + [ColumnAt(cols, ps[i]).value.name])
  {
    assert ps[..i + 1][..i] == ps[..i];
  }

  /** How many positions, from the start, have a column. */
  function FoundCount(cols: seq<Column>, ps: seq<int>): (n: nat)
    ensures n <= |ps|
    ensures forall k :: 0 <= k < n ==> ColumnAt(cols, ps[k]).Some?
    ensures n < |ps| ==> ColumnAt(cols, ps[n]).None?
  {
    Partition.FirstIndex(ps, (p: int) => ColumnAt(cols, p).Some?, false)
  }

  /** The loop fails exactly when some position has no column, and then at the first of them. */
  lemma PositionNamesFails(cols: seq<Column>, tabname: string, ps: seq<int>)
    ensures PositionNames(cols, tabname, ps).Ok? <==> FoundCount(cols, ps) == |ps|
    ensures PositionNames(cols, tabname, ps).Err? ==>
              PositionNames(cols, tabname, ps).error == ColumnNotFound(ps[FoundCount(cols, ps)], tabname)
  {
    var n := FoundCount(cols, ps);
    PositionNamesOk(cols, tabname, ps);
    if n < |ps| {
      PositionNamesFirstMissing(cols, tabname, ps, n);
    }
  }

  // ---------------------------------------------------------------- marking primary-key columns

  /** Column `j` is the one `get_column_by_position` returns for a position listed in `ps`. */
  predicate MarkedBy(cols: seq<Column>, ps: seq<int>, j: nat)
    requires j < |cols|
  {
    cols[j].position.Some? && cols[j].position.value in ps
    && Partition.FirstIndex(cols, ColumnPosition, cols[j].position) == j
  }

  /** `column.primaryKey = True` on the column found at each position of `ps`. */
  function MarkKeyColumns(cols: seq<Column>, ps: seq<int>): (r: seq<Column>)
    ensures |r| == |cols|
  {
    seq(|cols|, j requires 0 <= j < |cols| => if MarkedBy(cols, ps, j) then cols[j].(primaryKey := true) else cols[j])
  }

  /** Marking changes no field of any column other than its key flag. */
  lemma MarkKeyColumnsOnlyFlags(cols: seq<Column>, ps: seq<int>)
    ensures forall j :: 0 <= j < |cols| ==>
              MarkKeyColumns(cols, ps)[j] == cols[j].(primaryKey := MarkKeyColumns(cols, ps)[j].primaryKey)
  {
  }

  /**
   * After marking, the column found at every listed position is a key column,
   * and every other column keeps its flag.
   */
  lemma MarkKeyColumnsMarks(cols: seq<Column>, ps: seq<int>)
    ensures forall k :: 0 <= k < |ps| && ColumnAt(cols, ps[k]).Some? ==>
              MarkKeyColumns(cols, ps)[Partition.FirstIndex(cols, ColumnPosition, Some(ps[k]))].primaryKey
    ensures forall j :: 0 <= j < |cols| && !MarkedBy(cols, ps, j) ==> MarkKeyColumns(cols, ps)[j] == cols[j]
  {
  }

  /** Marking changes no position, so every later lookup by position finds the same place. */
  lemma MarkKeepsLookup(cols: seq<Column>, ps: seq<int>, p: int)
    ensures Partition.FirstIndex(MarkKeyColumns(cols, ps), ColumnPosition, Some(p)) == Partition.FirstIndex(cols, ColumnPosition, Some(p))
  {
    var r := MarkKeyColumns(cols, ps);
    assert forall j :: 0 <= j < |r| ==> ColumnPosition(r[j]) == ColumnPosition(cols[j]) by {
      forall j | 0 <= j < |r| ensures ColumnPosition(r[j]) == ColumnPosition(cols[j]) {
        assert r[j] == cols[j].(primaryKey := r[j].primaryKey);
      }
    }
    Partition.FirstIndexSameKeys(r, cols, ColumnPosition, Some(p));
  }

  /** One more position marks the column found there and no other. */
  lemma MarkedByNext(cols: seq<Column>, ps: seq<int>, p: int, j: nat)
    requires j < |cols|
    ensures MarkedBy(cols, ps + [p], j) <==>
              MarkedBy(cols, ps, j) || j == Partition.FirstIndex(cols, ColumnPosition, Some(p))
  {
    var k := Partition.FirstIndex(cols, ColumnPosition, Some(p));
    if j == k {
      assert cols[j].position == Some(p);
    }
  }

  /** Marking one more position sets the flag of the column found there. */
  lemma MarkNext(cols: seq<Column>, ps: seq<int>, p: int)
    requires Partition.FirstIndex(cols, ColumnPosition, Some(p)) < |cols|
    ensures var k := Partition.FirstIndex(cols, ColumnPosition, Some(p));
            var prev := MarkKeyColumns(cols, ps);
            MarkKeyColumns(cols, ps + [p]) == prev[k := prev[k].(primaryKey := true)]
  {
    var k := Partition.FirstIndex(cols, ColumnPosition, Some(p));
    var prev := MarkKeyColumns(cols, ps);
    var next := MarkKeyColumns(cols, ps + [p]);
    var want := prev[k := prev[k].(primaryKey := true)];
    MarkNextEach(cols, ps, p);
    Partition.SameItems(next, want);
  }

  lemma MarkNextEach(cols: seq<Column>, ps: seq<int>, p: int)
    requires Partition.FirstIndex(cols, ColumnPosition, Some(p)) < |cols|
    ensures var k := Partition.FirstIndex(cols, ColumnPosition, Some(p));
            var prev := MarkKeyColumns(cols, ps);
            forall j :: 0 <= j < |cols| ==> MarkKeyColumns(cols, ps + [p])[j] == prev[k := prev[k].(primaryKey := true)][j]
  {
    forall j | 0 <= j < |cols|
      ensures MarkKeyColumns(cols, ps + [p])[j] == MarkKeyColumns(cols, ps)[Partition.FirstIndex(cols, ColumnPosition, Some(p)) := MarkKeyColumns(cols, ps)[Partition.FirstIndex(cols, ColumnPosition, Some(p))].(primaryKey := true)][j]
    {
      MarkNextAt(cols, ps, p, j);
    }
  }

  lemma MarkNextAt(cols: seq<Column>, ps: seq<int>, p: int, j: nat)
    requires Partition.FirstIndex(cols, ColumnPosition, Some(p)) < |cols| && j < |cols|
    ensures var k := Partition.FirstIndex(cols, ColumnPosition, Some(p));
            var prev := MarkKeyColumns(cols, ps);
            MarkKeyColumns(cols, ps + [p])[j] == prev[k := prev[k].(primaryKey := true)][j]
  {
    MarkedByNext(cols, ps, p, j);
    var k := Partition.FirstIndex(cols, ColumnPosition, Some(p));
    var prev := MarkKeyColumns(cols, ps);
    assert MarkKeyColumns(cols, ps + [p])[j] == if MarkedBy(cols, ps + [p], j) then cols[j].(primaryKey := true) else cols[j];
    assert prev[j] == if MarkedBy(cols, ps, j) then cols[j].(primaryKey := true) else cols[j];
    if j == k {
      assert prev[k] == if MarkedBy(cols, ps, k) then cols[k].(primaryKey := true) else cols[k];
    }
  }

  /** Marking no position changes nothing. */
  lemma MarkNothing(cols: seq<Column>)
    ensures MarkKeyColumns(cols, []) == cols
  {
  }

  // ---------------------------------------------------------------- the pgcat fetchers

  type Schemas = OrdMap<Option<string>, Databases.Namespace>

  /** A `pg_constraint` row of a primary-key or unique constraint, with `conkey` as positions. */
  datatype KeyRow = KeyRow(constraintName: string, tableName: string, tableSchema: string, columns: seq<int>)

  /** A `pg_constraint` row of a foreign key, with `conkey` and `confkey` as positions. */
  datatype ForeignKeyRow = ForeignKeyRow(constraintName: string, tableName: string, tableSchema: string,
                                         refTableName: string, refTableSchema: string,
                                         columns: seq<int>, refColumns: seq<int>)

  /** The constraint a `pgcat` row starts from: typed, in the fetched schema, on the row's table. */
  function PgcatConstraint(name: string, schema: string, ctype: string, tabname: string, tabschema: string): (c: Constraint)
    ensures c == NewPostgresConstraint(ConstraintRow(schema, name, ctype, tabschema, tabname))
  {
    NewPostgresConstraint(ConstraintRow(schema, name, ctype, tabschema, tabname))
  }

  /** `get_table(tabname, tabschema)`: with the schema given, the default schema plays no part. */
  function FindTable(schemas: Schemas, tabname: string, tabschema: string): (r: Result<Option<Table>>)
    ensures r.Err? <==> Some(tabschema) !in schemas.m
    ensures r.Err? ==> r.error == ValueError("Invalid schema: " + tabschema)
    ensures r.Ok? ==> r.value == schemas.m[Some(tabschema)].tables.Get(tabname)
  {
    Databases.LookupTable(schemas, None, tabname, Some(tabschema))
  }

  /** The stored table at `s`, `n` replaced by `t`, as the in-place updates of a fetched table leave it. */
  function ReplaceTable(schemas: Schemas, s: Option<string>, n: string, t: Table): (r: Schemas)
    requires s in schemas.m && n in schemas.m[s].tables.m
    ensures r.keys == schemas.keys && r.m.Keys == schemas.m.Keys
    ensures r.m[s] == schemas.m[s].(tables := schemas.m[s].tables.Set(n, t))
    ensures forall x :: x in schemas.m && x != s ==> r.m[x] == schemas.m[x]
  {
    var ns := schemas.m[s];
    schemas.Set(s, ns.(tables := ns.tables.Set(n, t)))
  }

  /** Replacing a stored table by one of the same name and schema keeps the namespaces valid. */
  lemma ReplaceTableValid(schemas: Schemas, s: Option<string>, n: string, t: Table)
    requires Databases.NamespacesValid(schemas) && s in schemas.m && n in schemas.m[s].tables.m
    requires t.name == n && t.schema == s
    ensures Databases.NamespacesValid(ReplaceTable(schemas, s, n, t))
  {
    var r := ReplaceTable(schemas, s, n, t);
    assert Databases.NamespaceValid(r.m[s]);
  }

  /** The stored tables after one row of a fetcher, and the error it raised, if it did. */
  datatype Fetched = Fetched(schemas: Schemas, failure: Option<Error>)

  /**
   * One primary-key (`marks`) or unique row applied to its table: each found
   * column is named and, for a primary key, marked as a key column; the first
   * missing position raises after the earlier columns were marked; otherwise the
   * constraint is appended.
   */
  function KeyOn(t: Table, schema: string, ctype: string, marks: bool, row: KeyRow): (r: Fetched1)
    ensures var n := FoundCount(t.columns, row.columns);
            r.table.columns == MarkKeyColumns(t.columns, if marks then row.columns[..n] else [])
    ensures r.table.(columns := t.columns, constraints := t.constraints) == t
    ensures r.failure.None? <==> FoundCount(t.columns, row.columns) == |row.columns|
    ensures r.failure.Some? ==> r.table.constraints == t.constraints
                                && r.failure.value == ColumnNotFound(row.columns[FoundCount(t.columns, row.columns)], row.tableName)
    ensures r.failure.None? ==>
              var c := PgcatConstraint(row.constraintName, schema, ctype, row.tableName, row.tableSchema);
              PositionNames(t.columns, row.tableName, row.columns).Ok?
              && r.table.constraints == t.constraints + [c.(columns := PositionNames(t.columns, row.tableName, row.columns).value)]
  {
    var n := FoundCount(t.columns, row.columns);
    var marked := t.(columns := MarkKeyColumns(t.columns, if marks then row.columns[..n] else []));
    PositionNamesFails(t.columns, row.tableName, row.columns);
    match PositionNames(t.columns, row.tableName, row.columns)
    case Err(e) => Fetched1(marked, Some(e))
    case Ok(names) =>
      var c := PgcatConstraint(row.constraintName, schema, ctype, row.tableName, row.tableSchema);
      Fetched1(marked.(constraints := marked.constraints + [c.(columns := names)]), None)
  }

  /** A table after one row of a fetcher, and the error the row raised, if it did. */
  datatype Fetched1 = Fetched1(table: Table, failure: Option<Error>)

  function TableNotFound(what: string, tabname: string, tabschema: string): Error {
    ValueError(what + " not found:" + tabname + " schema:" + tabschema)
  }

  /** One row of `fetch_primary_keys_pgcat` (`marks`) or `fetch_unique_constraints_pgcat`. */
  function KeyStep(schemas: Schemas, schema: string, ctype: string, marks: bool, row: KeyRow): (r: Fetched)
    ensures r.schemas.keys == schemas.keys && r.schemas.m.Keys == schemas.m.Keys
  {
    match FindTable(schemas, row.tableName, row.tableSchema)
    case Err(e) => Fetched(schemas, Some(e))
    case Ok(None) => Fetched(schemas, Some(TableNotFound("table", row.tableName, row.tableSchema)))
    case Ok(Some(t)) =>
      var a := KeyOn(t, schema, ctype, marks, row);
      Fetched(ReplaceTable(schemas, Some(row.tableSchema), row.tableName, a.table), a.failure)
  }

  /**
   * One row of `fetch_foreign_keys_pgcat`: the base table and its columns, then
   * the referenced table and its columns, are looked up in turn, and the
   * constraint is appended to the base table. A foreign key without referenced
   * positions keeps `None` as its referenced columns.
   */
  function ForeignKeyStep(schemas: Schemas, schema: string, row: ForeignKeyRow): (r: Fetched)
    ensures r.schemas.keys == schemas.keys && r.schemas.m.Keys == schemas.m.Keys
    ensures r.failure.Some? ==> r.schemas == schemas
  {
    match FindTable(schemas, row.tableName, row.tableSchema)
    case Err(e) => Fetched(schemas, Some(e))
    case Ok(None) => Fetched(schemas, Some(TableNotFound("table", row.tableName, row.tableSchema)))
    case Ok(Some(base)) =>
      match PositionNames(base.columns, row.tableName, row.columns)
      case Err(e) => Fetched(schemas, Some(e))
      case Ok(names) =>
        match FindTable(schemas, row.refTableName, row.refTableSchema)
        case Err(e) => Fetched(schemas, Some(e))
        case Ok(None) => Fetched(schemas, Some(TableNotFound("ref table", row.refTableName, row.refTableSchema)))
        case Ok(Some(ref)) =>
          match PositionNames(ref.columns, row.refTableName, row.refColumns)
          case Err(e) => Fetched(schemas, Some(e))
          case Ok(refnames) =>
            var fk := ForeignKeyOf(schema, row, names, refnames);
            Fetched(ReplaceTable(schemas, Some(row.tableSchema), row.tableName, base.(constraints := base.constraints + [fk])), None)
  }

  /** The foreign key a row yields once its positions are mapped to `names` and `refnames`. */
  function ForeignKeyOf(schema: string, row: ForeignKeyRow, names: seq<string>, refnames: seq<string>): (c: Constraint)
    ensures IsForeignKey(c) && c.kind == Postgres && c.name == row.constraintName && c.schema == Some(schema)
    ensures c.table == Some(row.tableName) && c.columns == names && c.checkClause.None?
    ensures c.referenceSchema == Some(row.refTableSchema) && c.referenceTable == Some(row.refTableName)
    ensures c.referenceColumns == if refnames == [] then None else Some(refnames)
  {
    PgcatConstraint(row.constraintName, schema, "FOREIGN KEY", row.tableName, row.tableSchema)
      .(referenceTable := Some(row.refTableName), referenceSchema := Some(row.refTableSchema),
        columns := names, referenceColumns := if refnames == [] then None else Some(refnames))
  }

  function KeyStepOf(schema: string, ctype: string, marks: bool): (Schemas, KeyRow) -> Fetched {
    (s: Schemas, row: KeyRow) => KeyStep(s, schema, ctype, marks, row)
  }

  function ForeignKeyStepOf(schema: string): (Schemas, ForeignKeyRow) -> Fetched {
    (s: Schemas, row: ForeignKeyRow) => ForeignKeyStep(s, schema, row)
  }

  /** A fetcher's loop over `rows`, stopping at the first row that raises. */
  function FetchAll<R>(schemas: Schemas, rows: seq<R>, step: (Schemas, R) -> Fetched): Fetched
    decreases |rows|
  {
    if rows == [] then Fetched(schemas, None)
    else
      var prev := FetchAll(schemas, rows[..|rows| - 1], step);
      if prev.failure.Some? then prev else step(prev.schemas, rows[|rows| - 1])
  }

  lemma FetchAllNext<R>(schemas: Schemas, rows: seq<R>, i: nat, step: (Schemas, R) -> Fetched)
    requires i < |rows| && FetchAll(schemas, rows[..i], step).failure.None?
    ensures FetchAll(schemas, rows[..i + 1], step) == step(FetchAll(schemas, rows[..i], step).schemas, rows[i])
  {
    assert rows[..i + 1][..i] == rows[..i];
  }

  /** Once a row has raised, the later rows change nothing. */
  lemma {:induction false} FetchAllStops<R>(schemas: Schemas, rows: seq<R>, i: nat, step: (Schemas, R) -> Fetched)
    requires i < |rows| && FetchAll(schemas, rows[..i + 1], step).failure.Some?
    ensures FetchAll(schemas, rows, step) == FetchAll(schemas, rows[..i + 1], step)
    decreases |rows|
  {
    if |rows| > i + 1 {
      var init := rows[..|rows| - 1];
      assert init[..i + 1] == rows[..i + 1];
      FetchAllStops(schemas, init, i, step);
    } else {
      assert rows[..i + 1] == rows;
    }
  }

  /** A successful loop succeeded on every row, each applied to the tables the earlier rows left. */
  lemma {:induction false} FetchAllEveryRow<R>(schemas: Schemas, rows: seq<R>, step: (Schemas, R) -> Fetched, i: nat)
    requires i < |rows| && FetchAll(schemas, rows, step).failure.None?
    ensures FetchAll(schemas, rows[..i], step).failure.None?
    ensures step(FetchAll(schemas, rows[..i], step).schemas, rows[i]).failure.None?
    decreases |rows|
  {
    var init := rows[..|rows| - 1];
    if i < |init| {
      assert init[..i] == rows[..i] && init[i] == rows[i];
      FetchAllEveryRow(schemas, init, step, i);
    } else {
      assert init == rows[..i];
    }
  }

  /** A key row leaves the namespaces valid: the table it updates keeps its name and schema. */
  lemma KeyStepValid(schemas: Schemas, schema: string, ctype: string, marks: bool, row: KeyRow)
    requires Databases.NamespacesValid(schemas)
    ensures Databases.NamespacesValid(KeyStep(schemas, schema, ctype, marks, row).schemas)
  {
    var found := FindTable(schemas, row.tableName, row.tableSchema);
    if found.Ok? && found.value.Some? {
      var t := found.value.value;
      assert Databases.NamespaceValid(schemas.m[Some(row.tableSchema)]);
      var a := KeyOn(t, schema, ctype, marks, row);
      assert a.table.name == t.name && a.table.schema == t.schema;
      ReplaceTableValid(schemas, Some(row.tableSchema), row.tableName, a.table);
    }
  }

  /** A foreign-key row leaves the namespaces valid. */
  lemma ForeignKeyStepValid(schemas: Schemas, schema: string, row: ForeignKeyRow)
    requires Databases.NamespacesValid(schemas)
    ensures Databases.NamespacesValid(ForeignKeyStep(schemas, schema, row).schemas)
  {
    var found := FindTable(schemas, row.tableName, row.tableSchema);
    if found.Ok? && found.value.Some? {
      var t := found.value.value;
      assert Databases.NamespaceValid(schemas.m[Some(row.tableSchema)]);
      assert t.name == row.tableName && t.schema == Some(row.tableSchema);
      var names := PositionNames(t.columns, row.tableName, row.columns);
      var ref := FindTable(schemas, row.refTableName, row.refTableSchema);
      if names.Ok? && ref.Ok? && ref.value.Some? {
        var refnames := PositionNames(ref.value.value.columns, row.refTableName, row.refColumns);
        if refnames.Ok? {
          var fk := ForeignKeyOf(schema, row, names.value, refnames.value);
          ReplaceTableValid(schemas, Some(row.tableSchema), row.tableName, t.(constraints := t.constraints + [fk]));
        }
      }
    }
  }

  /** After a successful primary-key row, the column at its `k`-th position is a key column named as the constraint lists it. */
  lemma PrimaryKeyMarksAt(t: Table, schema: string, row: KeyRow, k: nat)
    requires KeyOn(t, schema, "PRIMARY KEY", true, row).failure.None? && k < |row.columns|
    ensures var r := KeyOn(t, schema, "PRIMARY KEY", true, row).table;
            var c := r.constraints[|r.constraints| - 1];
            && k < |c.columns|
            && ColumnAt(r.columns, row.columns[k]).Some?
            && ColumnAt(r.columns, row.columns[k]).value.primaryKey
            && ColumnAt(r.columns, row.columns[k]).value.name == c.columns[k]
  {
    var ps := row.columns;
    assert ps[..|ps|] == ps;
    PositionNamesOk(t.columns, row.tableName, ps);
    MarkKeyColumnsMarks(t.columns, ps);
    MarkKeepsLookup(t.columns, ps, ps[k]);
  }

  /**
   * A primary-key row that succeeds leaves, at each of its positions, a key
   * column whose name is the one the constraint lists there.
   */
  lemma PrimaryKeyMarksNamed(t: Table, schema: string, row: KeyRow)
    requires KeyOn(t, schema, "PRIMARY KEY", true, row).failure.None?
    ensures var r := KeyOn(t, schema, "PRIMARY KEY", true, row).table;
            var c := r.constraints[|r.constraints| - 1];
            && IsPrimaryKey(c) && |c.columns| == |row.columns|
            && forall k :: 0 <= k < |row.columns| ==>
                 && ColumnAt(r.columns, row.columns[k]).Some?
                 && ColumnAt(r.columns, row.columns[k]).value.primaryKey
                 && ColumnAt(r.columns, row.columns[k]).value.name == c.columns[k]
                 && ColumnAt(r.columns, row.columns[k]).value in PrimaryKeyColumns(r.columns)
  {
    var r := KeyOn(t, schema, "PRIMARY KEY", true, row).table;
    PrimaryKeyColumnsMembers(r.columns);
    forall k | 0 <= k < |row.columns|
      ensures ColumnAt(r.columns, row.columns[k]).Some? && ColumnAt(r.columns, row.columns[k]).value in r.columns
    {
      PrimaryKeyMarksAt(t, schema, row, k);
    }
    forall k | 0 <= k < |row.columns|
      ensures && ColumnAt(r.columns, row.columns[k]).value.primaryKey
              && ColumnAt(r.columns, row.columns[k]).value.name == r.constraints[|r.constraints| - 1].columns[k]
    {
      PrimaryKeyMarksAt(t, schema, row, k);
    }
  }

  /** A unique-constraint row changes no column. */
  lemma UniqueKeepsColumns(t: Table, schema: string, row: KeyRow)
    ensures KeyOn(t, schema, "UNIQUE", false, row).table.columns == t.columns
  {
    MarkNothing(t.columns);
  }

  /**
   * A foreign-key row that succeeds found both tables and every position in
   * each, and the constraint it appends names those columns in position order.
   */
  lemma ForeignKeyResolves(schemas: Schemas, schema: string, row: ForeignKeyRow) returns (base: Table, ref: Table)
    requires ForeignKeyStep(schemas, schema, row).failure.None?
    ensures FindTable(schemas, row.tableName, row.tableSchema) == Ok(Some(base))
    ensures FindTable(schemas, row.refTableName, row.refTableSchema) == Ok(Some(ref))
    ensures var r := ForeignKeyStep(schemas, schema, row).schemas.m[Some(row.tableSchema)].tables.m[row.tableName];
            && |r.constraints| == |base.constraints| + 1 && r.constraints[..|base.constraints|] == base.constraints
            && var c := r.constraints[|base.constraints|];
            && IsForeignKey(c) && c.referenceTable == Some(row.refTableName) && |c.columns| == |row.columns|
            && (forall k :: 0 <= k < |row.columns| ==>
                  ColumnAt(base.columns, row.columns[k]).Some? && c.columns[k] == ColumnAt(base.columns, row.columns[k]).value.name)
            && (row.refColumns == [] <==> c.referenceColumns.None?)
            && (c.referenceColumns.Some? ==>
                  && |c.referenceColumns.value| == |row.refColumns|
                  && forall k :: 0 <= k < |row.refColumns| ==>
                       && ColumnAt(ref.columns, row.refColumns[k]).Some?
                       && c.referenceColumns.value[k] == ColumnAt(ref.columns, row.refColumns[k]).value.name)
  {
    base := FindTable(schemas, row.tableName, row.tableSchema).value.value;
    ref := FindTable(schemas, row.refTableName, row.refTableSchema).value.value;
    PositionNamesOk(base.columns, row.tableName, row.columns);
    PositionNamesOk(ref.columns, row.refTableName, row.refColumns);
    var names := PositionNames(base.columns, row.tableName, row.columns).value;
    var refnames := PositionNames(ref.columns, row.refTableName, row.refColumns).value;
    var fk := ForeignKeyOf(schema, row, names, refnames);
    var r := ForeignKeyStep(schemas, schema, row).schemas.m[Some(row.tableSchema)].tables.m[row.tableName];
    assert r == base.(constraints := base.constraints + [fk]);
  }

  // ---------------------------------------------------------------- the fetchers' loops

  /** The `for colindex in columns` loop that only names columns. */
  method ResolvePositions(t: Table, tabname: string, ps: seq<int>) returns (r: Result<seq<string>>)
    ensures r == PositionNames(t.columns, tabname, ps)
  {
    var cols := t.columns;
    var names: seq<string> := [];
    var i := 0;
    while i < |ps|
      invariant 0 <= i <= |ps|
      invariant PositionNames(cols, tabname, ps[..i]) == Ok(names)
    {
      assert ps[..i + 1][..i] == ps[..i];
      var column := GetColumnByPosition(t, ps[i]);
      if column == None {
        r := Err(ColumnNotFound(ps[i], tabname));
        forall k | 0 <= k < i ensures ColumnAt(cols, ps[k]).Some? {
          PositionNamesOk(cols, tabname, ps[..i]);
          assert ps[..i][k] == ps[k];
        }
        PositionNamesFirstMissing(cols, tabname, ps, i);
        return;
      }
      names := names + [column.value.name];
      i := i + 1;
    }
    assert ps[..i] == ps;
    r := Ok(names);
  }

  /**
   * The body of the key fetchers' row loop once the table is found: name the
   * column at each position, marking it as a key column when `marks`, then
   * append the constraint.
   */
  method ApplyKeyRow(t0: Table, schema: string, ctype: string, marks: bool, row: KeyRow) returns (t: Table, failure: Option<Error>)
    ensures Fetched1(t, failure) == KeyOn(t0, schema, ctype, marks, row)
  {
    var ps := row.columns;
    var names: seq<string> := [];
    var cols := t0.columns;
    var i := 0;
    while i < |ps|
      invariant 0 <= i <= |ps|
      invariant forall k :: 0 <= k < i ==> ColumnAt(t0.columns, ps[k]).Some?
      invariant PositionNames(t0.columns, row.tableName, ps[..i]) == Ok(names)
      invariant cols == MarkKeyColumns(t0.columns, if marks then ps[..i] else [])
    {
      MarkStep(t0.columns, ps, i, marks);
      var k := Partition.FirstIndex(cols, ColumnPosition, Some(ps[i]));
      if k == |cols| {
        KeyOnFails(t0, schema, ctype, marks, row, i);
        t, failure := t0.(columns := cols), Some(ColumnNotFound(ps[i], row.tableName));
        return;
      }
      PositionNamesNext(t0.columns, row.tableName, ps, i);
      names := names + [cols[k].name];
      if marks {
        cols := cols[k := cols[k].(primaryKey := true)];
      }
      i := i + 1;
    }
    assert ps[..i] == ps;
    KeyOnSucceeds(t0, schema, ctype, marks, row, names);
    var c := PgcatConstraint(row.constraintName, schema, ctype, row.tableName, row.tableSchema);
    t := t0.(columns := cols, constraints := t0.constraints + [c.(columns := names)]);
    failure := None;
  }

  /** A row whose `i`-th position is the first without a column. */
  lemma KeyOnFails(t: Table, schema: string, ctype: string, marks: bool, row: KeyRow, i: nat)
    requires i < |row.columns| && ColumnAt(t.columns, row.columns[i]).None?
    requires forall k :: 0 <= k < i ==> ColumnAt(t.columns, row.columns[k]).Some?
    ensures KeyOn(t, schema, ctype, marks, row)
         == Fetched1(t.(columns := MarkKeyColumns(t.columns, if marks then row.columns[..i] else [])),
                     Some(ColumnNotFound(row.columns[i], row.tableName)))
  {
    PositionNamesFirstMissing(t.columns, row.tableName, row.columns, i);
    assert FoundCount(t.columns, row.columns) == i;
  }

  /** A row whose every position has a column. */
  lemma KeyOnSucceeds(t: Table, schema: string, ctype: string, marks: bool, row: KeyRow, names: seq<string>)
    requires PositionNames(t.columns, row.tableName, row.columns) == Ok(names)
    ensures var c := PgcatConstraint(row.constraintName, schema, ctype, row.tableName, row.tableSchema);
            KeyOn(t, schema, ctype, marks, row)
              == Fetched1(t.(columns := MarkKeyColumns(t.columns, if marks then row.columns else []),
                           constraints := t.constraints + [c.(columns := names)]), None)
  {
    PositionNamesFails(t.columns, row.tableName, row.columns);
    assert row.columns[..|row.columns|] == row.columns;
  }

  /** What one more position of the loop finds and marks, stated on the original columns. */
  lemma MarkStep(cols: seq<Column>, ps: seq<int>, i: nat, marks: bool)
    requires i < |ps|
    ensures var cur := MarkKeyColumns(cols, if marks then ps[..i] else []);
            var k := Partition.FirstIndex(cur, ColumnPosition, Some(ps[i]));
            && k == Partition.FirstIndex(cols, ColumnPosition, Some(ps[i]))
            && (k < |cols| ==> ColumnAt(cols, ps[i]) == Some(cols[k]) && cur[k].name == cols[k].name)
            && (k < |cols| && marks ==> MarkKeyColumns(cols, ps[..i + 1]) == cur[k := cur[k].(primaryKey := true)])
            && (!marks ==> MarkKeyColumns(cols, if marks then ps[..i + 1] else []) == cur)
            && (k == |cols| ==> ColumnAt(cols, ps[i]).None?)
  {
    assert ps[..i + 1] == ps[..i] + [ps[i]];
    MarkKeepsLookup(cols, if marks then ps[..i] else [], ps[i]);
    var k := Partition.FirstIndex(cols, ColumnPosition, Some(ps[i]));
    if k < |cols| && marks {
      MarkNext(cols, ps[..i], ps[i]);
    }
  }


  /** The body of the key fetchers' row loop, given what `get_table` returned for the row. */
  method ApplyKeyRowTo(schemas: Schemas, found: Result<Option<Table>>, schema: string, ctype: string, marks: bool, row: KeyRow)
    returns (r: Fetched)
    requires found == FindTable(schemas, row.tableName, row.tableSchema)
    ensures r == KeyStep(schemas, schema, ctype, marks, row)
  {
    if found.Err? {
      return Fetched(schemas, Some(found.error));
    }
    if found.value.None? {
      return Fetched(schemas, Some(TableNotFound("table", row.tableName, row.tableSchema)));
    }
    var t, f := ApplyKeyRow(found.value.value, schema, ctype, marks, row);
    r := Fetched(ReplaceTable(schemas, Some(row.tableSchema), row.tableName, t), f);
  }

  /**
   * `fetch_primary_keys_pgcat` (`marks`, type `PRIMARY KEY`) and
   * `fetch_unique_constraints_pgcat` (type `UNIQUE`) after the query: every row
   * is applied to its table in turn, and the count is the number of constraints
   * appended.
   */
  method FetchKeyConstraints(db: Databases.SchemaAwareDatabase, schema: string, ctype: string, marks: bool, rows: seq<KeyRow>)
    returns (count: int, failure: Option<Error>)
    requires db.Valid()
    modifies db
    ensures db.Valid() && db.name == old(db.name) && db.defaultSchema == old(db.defaultSchema)
    ensures Fetched(db.schemas, failure) == FetchAll(old(db.schemas), rows, KeyStepOf(schema, ctype, marks))
    ensures failure.None? ==> count == |rows|
  {
    var step := KeyStepOf(schema, ctype, marks);
    count := 0;
    var i := 0;
    while i < |rows|
      invariant 0 <= i <= |rows| && count == i
      invariant db.Valid() && db.name == old(db.name) && db.defaultSchema == old(db.defaultSchema)
      invariant FetchAll(old(db.schemas), rows[..i], step) == Fetched(db.schemas, None)
    {
      FetchAllNext(old(db.schemas), rows, i, step);
      KeyStepValid(db.schemas, schema, ctype, marks, rows[i]);
      var found := db.GetTable(rows[i].tableName, Some(rows[i].tableSchema));
      var r := ApplyKeyRowTo(db.schemas, found, schema, ctype, marks, rows[i]);
      db.schemas := r.schemas;
      if r.failure.Some? {
        failure := r.failure;
        FetchAllStops(old(db.schemas), rows, i, step);
        return;
      }
      count := count + 1;
      i := i + 1;
    }
    assert rows[..i] == rows;
    failure := None;
  }

  /** `fetch_primary_keys_pgcat` after the query. */
  method FetchPrimaryKeysPgcat(db: Databases.SchemaAwareDatabase, schema: string, rows: seq<KeyRow>)
    returns (count: int, failure: Option<Error>)
    requires db.Valid()
    modifies db
    ensures db.Valid() && db.name == old(db.name) && db.defaultSchema == old(db.defaultSchema)
    ensures Fetched(db.schemas, failure) == FetchAll(old(db.schemas), rows, KeyStepOf(schema, "PRIMARY KEY", true))
    ensures failure.None? ==> count == |rows|
  {
    count, failure := FetchKeyConstraints(db, schema, "PRIMARY KEY", true, rows);
  }

  /** `fetch_unique_constraints_pgcat` after the query. */
  method FetchUniqueConstraintsPgcat(db: Databases.SchemaAwareDatabase, schema: string, rows: seq<KeyRow>)
    returns (count: int, failure: Option<Error>)
    requires db.Valid()
    modifies db
    ensures db.Valid() && db.name == old(db.name) && db.defaultSchema == old(db.defaultSchema)
    ensures Fetched(db.schemas, failure) == FetchAll(old(db.schemas), rows, KeyStepOf(schema, "UNIQUE", false))
    ensures failure.None? ==> count == |rows|
  {
    count, failure := FetchKeyConstraints(db, schema, "UNIQUE", false, rows);
  }

  /** The body of `fetch_foreign_keys_pgcat`'s row loop, on the stored tables. */
  method ApplyForeignKeyRow(schemas: Schemas, schema: string, row: ForeignKeyRow) returns (r: Fetched)
    ensures r == ForeignKeyStep(schemas, schema, row)
  {
    var found := FindTable(schemas, row.tableName, row.tableSchema);
    if found.Err? {
      return Fetched(schemas, Some(found.error));
    }
    if found.value.None? {
      return Fetched(schemas, Some(TableNotFound("table", row.tableName, row.tableSchema)));
    }
    var base := found.value.value;
    var names := ResolvePositions(base, row.tableName, row.columns);
    if names.Err? {
      return Fetched(schemas, Some(names.error));
    }
    var refFound := FindTable(schemas, row.refTableName, row.refTableSchema);
    if refFound.Err? {
      return Fetched(schemas, Some(refFound.error));
    }
    if refFound.value.None? {
      return Fetched(schemas, Some(TableNotFound("ref table", row.refTableName, row.refTableSchema)));
    }
    var refnames := ResolvePositions(refFound.value.value, row.refTableName, row.refColumns);
    if refnames.Err? {
      return Fetched(schemas, Some(refnames.error));
    }
    var fk := ForeignKeyOf(schema, row, names.value, refnames.value);
    r := Fetched(ReplaceTable(schemas, Some(row.tableSchema), row.tableName, base.(constraints := base.constraints + [fk])), None);
  }

  /** `fetch_foreign_keys_pgcat` after the query. */
  method FetchForeignKeysPgcat(db: Databases.SchemaAwareDatabase, schema: string, rows: seq<ForeignKeyRow>)
    returns (count: int, failure: Option<Error>)
    requires db.Valid()
    modifies db
    ensures db.Valid() && db.name == old(db.name) && db.defaultSchema == old(db.defaultSchema)
    ensures Fetched(db.schemas, failure) == FetchAll(old(db.schemas), rows, ForeignKeyStepOf(schema))
    ensures failure.None? ==> count == |rows|
  {
    var step := ForeignKeyStepOf(schema);
    count := 0;
    var i := 0;
    while i < |rows|
      invariant 0 <= i <= |rows| && count == i
      invariant db.Valid() && db.name == old(db.name) && db.defaultSchema == old(db.defaultSchema)
      invariant FetchAll(old(db.schemas), rows[..i], step) == Fetched(db.schemas, None)
    {
      FetchAllNext(old(db.schemas), rows, i, step);
      ForeignKeyStepValid(db.schemas, schema, rows[i]);
      var r := ApplyForeignKeyRow(db.schemas, schema, rows[i]);
      db.schemas := r.schemas;
      if r.failure.Some? {
        failure := r.failure;
        FetchAllStops(old(db.schemas), rows, i, step);
        return;
      }
      count := count + 1;
      i := i + 1;
    }
    assert rows[..i] == rows;
    failure := None;
  }

  /** The primary-key and then the unique-constraint fetcher, the first error ending the import. */
  function KeysAll(schemas: Schemas, schema: string, pks: seq<KeyRow>, uniques: seq<KeyRow>): Fetched {
    var a := FetchAll(schemas, pks, KeyStepOf(schema, "PRIMARY KEY", true));
    if a.failure.Some? then a else FetchAll(a.schemas, uniques, KeyStepOf(schema, "UNIQUE", false))
  }

  /** The three `pgcat` fetchers one after another, the first error ending the import. */
  function PgcatAll(schemas: Schemas, schema: string, pks: seq<KeyRow>, uniques: seq<KeyRow>, fks: seq<ForeignKeyRow>): Fetched {
    var b := KeysAll(schemas, schema, pks, uniques);
    if b.failure.Some? then b else FetchAll(b.schemas, fks, ForeignKeyStepOf(schema))
  }

  /** The first two calls of `fetch_constraints_pgcat`. */
  method FetchKeysPgcat(db: Databases.SchemaAwareDatabase, schema: string, pks: seq<KeyRow>, uniques: seq<KeyRow>)
    returns (count: int, failure: Option<Error>)
    requires db.Valid()
    modifies db
    ensures db.Valid() && db.name == old(db.name) && db.defaultSchema == old(db.defaultSchema)
    ensures Fetched(db.schemas, failure) == KeysAll(old(db.schemas), schema, pks, uniques)
    ensures failure.None? ==> count == |pks| + |uniques|
  {
    count := 0;
    var pk, uq;
    pk, failure := FetchPrimaryKeysPgcat(db, schema, pks);
    if failure.Some? {
      return;
    }
    uq, failure := FetchUniqueConstraintsPgcat(db, schema, uniques);
    count := pk + uq;
  }

  /** `fetch_constraints_pgcat`: the sum of the three counts. */
  method FetchConstraintsPgcat(db: Databases.SchemaAwareDatabase, schema: string,
                               pks: seq<KeyRow>, uniques: seq<KeyRow>, fks: seq<ForeignKeyRow>)
    returns (count: int, failure: Option<Error>)
    requires db.Valid()
    modifies db
    ensures db.Valid() && db.name == old(db.name) && db.defaultSchema == old(db.defaultSchema)
    ensures Fetched(db.schemas, failure) == PgcatAll(old(db.schemas), schema, pks, uniques, fks)
    ensures failure.None? ==> count == |pks| + |uniques| + |fks|
  {
    count := 0;
    var keys, fk;
    keys, failure := FetchKeysPgcat(db, schema, pks, uniques);
    if failure.Some? {
      return;
    }
    fk, failure := FetchForeignKeysPgcat(db, schema, fks);
    count := keys + fk;
  }
}
