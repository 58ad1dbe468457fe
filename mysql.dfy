/**
 * The MySQL adapter (src/dbdiff/schema/mysql.py) after its catalog queries:
 * the entity constructors fed by `information_schema` rows, the import of
 * columns, index rows and constraints into a `Database`, and the matching of
 * key-column-usage rows to constraints. Catalog rows are given as values; the
 * cursor and the SQL text are not part of the model.
 */
module MySql {
  import opened Wrappers
  import opened Schema
  import opened OrderedMaps
  import Databases
  import Partition

  // ---------------------------------------------------------------- constructors

  /** The fields of an `information_schema.tables` row that `MySQLTable` keeps. */
  datatype TableRow = TableRow(tableName: string, tableRows: Value, dataLength: Value, indexLength: Value,
                               autoIncrement: Value, tableCollation: Value)

  /** `MySQLTable(**row)`: a table without a schema, so its full name is its bare name. */
  function NewMySqlTable(row: TableRow): (t: Table)
    ensures t.name == row.tableName && t.schema.None? && FullName(t) == row.tableName
    ensures t.columns == [] && t.constraints == [] && t.indexes == []
    ensures t.rows == row.tableRows && t.dataLength == row.dataLength && t.indexLength == row.indexLength
    ensures t.autoIncrement == row.autoIncrement && t.tableCollation == row.tableCollation
  {
    NewTable(row.tableName, None, row.tableRows).(dataLength := row.dataLength, indexLength := row.indexLength,
                                                  autoIncrement := row.autoIncrement, tableCollation := row.tableCollation)
  }

  /** An `information_schema.columns` row, in the order the column query selects. */
  datatype ColumnRow = ColumnRow(tableName: string, columnName: string, columnType: string, columnKey: Value,
                                 isNullable: Value, columnDefault: Value, ordinalPosition: Option<int>)

  /** `MySQLColumn(**row)`: nullable exactly for `'YES'`, a key column exactly for `'PRI'`. */
  function NewMySqlColumn(row: ColumnRow): (c: Column)
    ensures c.kind == MySql && c.schema.None? && c.constraints == VNull
    ensures c.nullable <==> row.isNullable == VStr("YES")
    ensures c.primaryKey <==> row.columnKey == VStr("PRI")
    ensures c.name == row.columnName && c.typeName == row.columnType && c.tableName == row.tableName
    ensures c.defaultValue == row.columnDefault && c.position == row.ordinalPosition
  {
    Column(MySql, row.columnName, row.columnType, row.tableName, None, row.isNullable == VStr("YES"),
           row.columnKey == VStr("PRI"), row.columnDefault, VNull, row.ordinalPosition)
  }

  /**
   * Two catalog rows give equal columns exactly when they agree on everything but
   * the spelling of the nullability and key flags.
   */
  lemma ColumnEqFromRows(a: ColumnRow, b: ColumnRow)
    ensures ColumnEq(NewMySqlColumn(a), NewMySqlColumn(b)) <==>
      && a.tableName == b.tableName && a.columnName == b.columnName && a.columnType == b.columnType
      && (a.isNullable == VStr("YES") <==> b.isNullable == VStr("YES"))
      && (a.columnKey == VStr("PRI") <==> b.columnKey == VStr("PRI"))
      && a.columnDefault == b.columnDefault && a.ordinalPosition == b.ordinalPosition
  {
  }

  /** `MySQLColumn('table', name, 'varchar(255)', None, isNullable, default, position)` as the unit tests build it. */
  function SampleColumn(name: string, isNullable: string, default: Value, position: int): Column {
    NewMySqlColumn(ColumnRow("table", name, "varchar(255)", VNull, VStr(isNullable), default, Some(position)))
  }

  lemma CreateColumnExample()
    ensures var c := SampleColumn("column", "", VNull, 1);
            && c.tableName == "table" && c.name == "column" && c.typeName == "varchar(255)"
            && c.defaultValue == VNull && !c.nullable && c.position == Some(1)
  {
  }

  lemma ColumnEqualsExample()
    ensures ColumnEq(SampleColumn("column", "", VNull, 1), SampleColumn("column", "", VNull, 1))
    ensures !ColumnEq(SampleColumn("column", "", VNull, 1), SampleColumn("column", "YES", VNull, 1))
    ensures SampleColumn("column", "YES", VNull, 1).nullable
  {
  }

  /** The map of differing fields, checked field by field. */
  lemma DiffMapIs(a: Column, b: Column, expected: map<string, Value>)
    requires forall f :: f in expected <==> f in ColumnFields && ColumnField(a, f) != ColumnField(b, f)
    requires forall f :: f in expected ==> expected[f] == ColumnField(a, f)
    ensures DiffMap(a, b, ColumnFields) == expected
  {
    forall f ensures f in DiffMap(a, b, ColumnFields) <==> f in expected {
      DiffMapMember(a, b, ColumnFields, f);
    }
    forall f | f in expected ensures DiffMap(a, b, ColumnFields)[f] == expected[f] {
      DiffMapMember(a, b, ColumnFields, f);
    }
  }

  lemma DiffNameExample()
    ensures DiffMap(SampleColumn("column1", "", VNull, 1), SampleColumn("column2", "", VNull, 1), ColumnFields)
         == map["name" := VStr("column1")]
    ensures DiffMap(SampleColumn("column2", "", VNull, 1), SampleColumn("column1", "", VNull, 1), ColumnFields)
         == map["name" := VStr("column2")]
  {
    DiffMapIs(SampleColumn("column1", "", VNull, 1), SampleColumn("column2", "", VNull, 1), map["name" := VStr("column1")]);
    DiffMapIs(SampleColumn("column2", "", VNull, 1), SampleColumn("column1", "", VNull, 1), map["name" := VStr("column2")]);
  }

  lemma DiffNamePositionExample()
    ensures DiffMap(SampleColumn("column1", "", VNull, 1), SampleColumn("column2", "", VNull, 2), ColumnFields)
         == map["name" := VStr("column1"), "position" := VInt(1)]
    ensures DiffMap(SampleColumn("column2", "", VNull, 2), SampleColumn("column1", "", VNull, 1), ColumnFields)
         == map["name" := VStr("column2"), "position" := VInt(2)]
  {
    DiffMapIs(SampleColumn("column1", "", VNull, 1), SampleColumn("column2", "", VNull, 2),
              map["name" := VStr("column1"), "position" := VInt(1)]);
    DiffMapIs(SampleColumn("column2", "", VNull, 2), SampleColumn("column1", "", VNull, 1),
              map["name" := VStr("column2"), "position" := VInt(2)]);
  }

  lemma DiffNullableDefaultExample()
    ensures DiffMap(SampleColumn("column1", "YES", VNull, 1), SampleColumn("column1", "", VStr("0"), 1), ColumnFields)
         == map["nullable" := VBool(true), "defaultValue" := VNull]
    ensures DiffMap(SampleColumn("column1", "", VStr("0"), 1), SampleColumn("column1", "YES", VNull, 1), ColumnFields)
         == map["nullable" := VBool(false), "defaultValue" := VStr("0")]
  {
    DiffMapIs(SampleColumn("column1", "YES", VNull, 1), SampleColumn("column1", "", VStr("0"), 1),
              map["nullable" := VBool(true), "defaultValue" := VNull]);
    DiffMapIs(SampleColumn("column1", "", VStr("0"), 1), SampleColumn("column1", "YES", VNull, 1),
              map["nullable" := VBool(false), "defaultValue" := VStr("0")]);
  }

  /** An `information_schema.table_constraints` row. */
  datatype ConstraintRow = ConstraintRow(tableName: string, constraintName: string, constraintType: string)

  /** `MySQLConstraint(**row)`: no columns and no reference yet; its kind predicates test the type. */
  function NewMySqlConstraint(row: ConstraintRow): (c: Constraint)
    ensures c.kind == MySql && c.name == row.constraintName && c.constraintType == row.constraintType
    ensures c.table == Some(row.tableName) && c.schema.None? && c.columns == []
    ensures c.referenceSchema.None? && c.referenceTable.None? && c.referenceColumns.None? && c.checkClause.None?
    ensures IsPrimaryKey(c) <==> row.constraintType == "PRIMARY KEY"
    ensures IsForeignKey(c) <==> row.constraintType == "FOREIGN KEY"
  {
    Constraint(MySql, row.constraintName, None, row.constraintType, Some(row.tableName), [], None, None, None, None)
  }

  /** `MySQLIndex(name, tableName, unique)`: no descriptors yet. */
  function NewMySqlIndex(name: string, tableName: string, unique: bool): (i: Index)
    ensures i.kind == MySql && i.name == name && i.tableName == tableName && i.schema.None?
    ensures i.unique == unique && i.columns == []
  {
    Index(MySql, name, tableName, None, unique, [])
  }

  /** `MySQLIndex.add_column(...)`: one more descriptor at the end, nothing else changes. */
  function AddColumn(i: Index, name: string, collation: Value, nullable: bool, subPart: Value, position: Value): (r: Index)
    ensures r.columns == i.columns + [IndexColumn(name, collation, nullable, subPart, position)]
    ensures r.(columns := i.columns) == i
  {
    i.(columns := i.columns + [IndexColumn(name, collation, nullable, subPart, position)])
  }

  /** After `add_column`, `get_column` finds the new descriptor unless an earlier one had its name. */
  lemma AddColumnThenGet(i: Index, name: string, collation: Value, nullable: bool, subPart: Value, position: Value, n: string)
    ensures Partition.Lookup(AddColumn(i, name, collation, nullable, subPart, position).columns, IndexColumnName, n)
         == if Partition.Lookup(i.columns, IndexColumnName, n).Some? then Partition.Lookup(i.columns, IndexColumnName, n)
            else if name == n then Some(IndexColumn(name, collation, nullable, subPart, position)) else None
  {
    Partition.LookupAppend(i.columns, IndexColumn(name, collation, nullable, subPart, position), IndexColumnName, n);
  }

  // ---------------------------------------------------------------- index rows

  /** An `information_schema.statistics` row, in the order the index query selects. */
  datatype IndexRow = IndexRow(tableName: string, indexName: string, nonUnique: Value, columnName: string,
                               collation: Value, subPart: Value, nullable: Value, seqInIndex: Value)

  /** Python's `v == 0`, which `False` satisfies too. */
  predicate IsZero(v: Value) {
    v == VInt(0) || v == VBool(false)
  }

  /** The descriptor an index row contributes, its nullability converted to a flag. */
  function Descriptor(row: IndexRow): IndexColumn {
    IndexColumn(row.columnName, row.collation, row.nullable == VStr("YES"), row.subPart, row.seqInIndex)
  }

  /**
   * One index row applied to its table: the first index of the row's name is
   * found, or created with `unique` fixed from `NON_UNIQUE`, and gets the row's
   * descriptor.
   */
  function AddIndexRow(t: Table, row: IndexRow): Table {
    var k := Partition.FirstIndex(t.indexes, IndexName, row.indexName);
    var nullable := row.nullable == VStr("YES");
    if k < |t.indexes| then
      t.(indexes := t.indexes[k := AddColumn(t.indexes[k], row.columnName, row.collation, nullable, row.subPart, row.seqInIndex)])
    else
      var created := NewMySqlIndex(row.indexName, row.tableName, IsZero(row.nonUnique));
      t.(indexes := t.indexes + [AddColumn(created, row.columnName, row.collation, nullable, row.subPart, row.seqInIndex)])
  }

  /**
   * An index row touches only the index of its name: that index ends with the
   * row's descriptor and keeps the uniqueness it was created with, every other
   * name finds what it found before, and the rest of the table is unchanged.
   */
  lemma IndexRowEffect(t: Table, row: IndexRow)
    ensures var r := AddIndexRow(t, row);
            var before := Partition.Lookup(t.indexes, IndexName, row.indexName);
            var after := Partition.Lookup(r.indexes, IndexName, row.indexName);
            && r.(indexes := t.indexes) == t
            && after.Some?
            && after.value.columns == (if before.Some? then before.value.columns else []) + [Descriptor(row)]
            && after.value.unique == (if before.Some? then before.value.unique else IsZero(row.nonUnique))
            && |r.indexes| == |t.indexes| + (if before.Some? then 0 else 1)
    ensures forall n :: n != row.indexName ==>
              Partition.Lookup(AddIndexRow(t, row).indexes, IndexName, n) == Partition.Lookup(t.indexes, IndexName, n)
  {
    var r := AddIndexRow(t, row);
    var k := Partition.FirstIndex(t.indexes, IndexName, row.indexName);
    if k < |t.indexes| {
      forall n ensures Partition.FirstIndex(r.indexes, IndexName, n) == Partition.FirstIndex(t.indexes, IndexName, n) {
        Partition.FirstIndexSameKeys(r.indexes, t.indexes, IndexName, n);
      }
    } else {
      var created := NewMySqlIndex(row.indexName, row.tableName, IsZero(row.nonUnique));
      var x := AddColumn(created, row.columnName, row.collation, row.nullable == VStr("YES"), row.subPart, row.seqInIndex);
      forall n ensures Partition.Lookup(r.indexes, IndexName, n)
                    == if Partition.Lookup(t.indexes, IndexName, n).Some? then Partition.Lookup(t.indexes, IndexName, n)
                       else if x.name == n then Some(x) else None {
        Partition.LookupAppend(t.indexes, x, IndexName, n);
      }
    }
  }

  /** No two indexes of a list share a name. */
  predicate DistinctIndexNames(ixs: seq<Index>) {
    forall i, j :: 0 <= i < j < |ixs| ==> ixs[i].name != ixs[j].name
  }

  /** Find-or-create never makes a second index of the same name. */
  lemma IndexRowKeepsNamesDistinct(t: Table, row: IndexRow)
    requires DistinctIndexNames(t.indexes)
    ensures DistinctIndexNames(AddIndexRow(t, row).indexes)
  {
    var k := Partition.FirstIndex(t.indexes, IndexName, row.indexName);
    var r := AddIndexRow(t, row).indexes;
    if k == |t.indexes| {
      forall i, j | 0 <= i < j < |r| ensures r[i].name != r[j].name {
        if j == |t.indexes| {
          assert IndexName(t.indexes[i]) != row.indexName;
        }
      }
    }
  }

  /** The number of descriptors over a list of indexes. */
  function Descriptors(ixs: seq<Index>): nat {
    if ixs == [] then 0 else Descriptors(ixs[..|ixs| - 1]) + |ixs[|ixs| - 1].columns|
  }

  lemma {:induction false} DescriptorsUpdate(ixs: seq<Index>, k: nat, x: Index)
    requires k < |ixs|
    ensures Descriptors(ixs[k := x]) + |ixs[k].columns| == Descriptors(ixs) + |x.columns|
    decreases |ixs|
  {
    var u := ixs[k := x];
    if k < |ixs| - 1 {
      DescriptorsUpdate(ixs[..|ixs| - 1], k, x);
      assert u[..|u| - 1] == ixs[..|ixs| - 1][k := x];
    } else {
      assert u[..|u| - 1] == ixs[..|ixs| - 1];
    }
  }

  lemma DescriptorsAppend(ixs: seq<Index>, x: Index)
    ensures Descriptors(ixs + [x]) == Descriptors(ixs) + |x.columns|
  {
    assert (ixs + [x])[..|ixs|] == ixs;
  }

  /** Each index row adds exactly one descriptor to its table. */
  lemma IndexRowAddsOne(t: Table, row: IndexRow)
    ensures Descriptors(AddIndexRow(t, row).indexes) == Descriptors(t.indexes) + 1
  {
    var k := Partition.FirstIndex(t.indexes, IndexName, row.indexName);
    var r := AddIndexRow(t, row);
    if k < |t.indexes| {
      DescriptorsUpdate(t.indexes, k, r.indexes[k]);
    } else {
      DescriptorsAppend(t.indexes, r.indexes[|t.indexes|]);
    }
  }

  // ---------------------------------------------------------------- importing into a database

  /** The stored tables after an import loop, and the error that stopped it, if one did. */
  datatype Imported = Imported(tables: OrdMap<string, Table>, failure: Option<Error>)

  /** A loop over `rows` that applies `step` to the stored tables and stops at the first error. */
  function ImportAll<R>(tables: OrdMap<string, Table>, rows: seq<R>,
                        step: (OrdMap<string, Table>, R) -> Result<OrdMap<string, Table>>): Imported
    decreases |rows|
  {
    if rows == [] then Imported(tables, None)
    else
      var prev := ImportAll(tables, rows[..|rows| - 1], step);
      if prev.failure.Some? then prev
      else
        match step(prev.tables, rows[|rows| - 1])
        case Err(e) => Imported(prev.tables, Some(e))
        case Ok(next) => Imported(next, None)
  }

  /** Once a row has failed, the later rows change nothing. */
  lemma {:induction false} ImportAllStops<R>(tables: OrdMap<string, Table>, rows: seq<R>, i: nat,
                                             step: (OrdMap<string, Table>, R) -> Result<OrdMap<string, Table>>)
    requires i < |rows| && ImportAll(tables, rows[..i + 1], step).failure.Some?
    ensures ImportAll(tables, rows, step) == ImportAll(tables, rows[..i + 1], step)
    decreases |rows|
  {
    if |rows| > i + 1 {
      var init := rows[..|rows| - 1];
      assert init[..i + 1] == rows[..i + 1];
      ImportAllStops(tables, init, i, step);
    } else {
      assert rows[..i + 1] == rows;
    }
  }

  /** The loop state after one more row that did not fail. */
  lemma ImportAllNext<R>(tables: OrdMap<string, Table>, rows: seq<R>, i: nat,
                         step: (OrdMap<string, Table>, R) -> Result<OrdMap<string, Table>>)
    requires i < |rows| && ImportAll(tables, rows[..i], step).failure.None?
    ensures ImportAll(tables, rows[..i + 1], step)
         == match step(ImportAll(tables, rows[..i], step).tables, rows[i])
            case Err(e) => Imported(ImportAll(tables, rows[..i], step).tables, Some(e))
            case Ok(next) => Imported(next, None)
  {
    assert rows[..i + 1][..i] == rows[..i];
  }

  /** Columns import: `table.columns.append(column)` on the table of the column's name, `ValueError` when there is none. */
  function ImportColumn(tables: OrdMap<string, Table>, c: Column): (r: Result<OrdMap<string, Table>>)
    ensures r.Ok? <==> c.tableName in tables.m
    ensures r.Err? ==> r.error == ValueError(c.tableName)
    ensures r.Ok? ==> r.value.keys == tables.keys && r.value.m.Keys == tables.m.Keys
  {
    match tables.Get(c.tableName)
    case None => Err(ValueError(c.tableName))
    case Some(t) => Ok(tables.Set(c.tableName, t.(columns := t.columns + [c])))
  }

  /** Index-rows import: the row applied to its table, `ValueError` naming the table when there is none. */
  function ImportIndexRow(tables: OrdMap<string, Table>, row: IndexRow): (r: Result<OrdMap<string, Table>>)
    ensures r.Ok? <==> row.tableName in tables.m
    ensures r.Err? ==> r.error == ValueError(row.tableName)
    ensures r.Ok? ==> r.value.keys == tables.keys && r.value.m.Keys == tables.m.Keys
  {
    match tables.Get(row.tableName)
    case None => Err(ValueError(row.tableName))
    case Some(t) => Ok(tables.Set(row.tableName, AddIndexRow(t, row)))
  }

  /**
   * Constraints import: the constraint goes to the end of its table's list;
   * `ValueError('constraint <name> missing table <table>')` when the table is
   * not stored, and the string concatenation's `TypeError` for a constraint
   * without a table.
   */
  function ImportConstraint(tables: OrdMap<string, Table>, c: Constraint): (r: Result<OrdMap<string, Table>>)
    ensures r.Ok? <==> c.table.Some? && c.table.value in tables.m
    ensures c.table.Some? && c.table.value !in tables.m ==>
              r == Err(ValueError("constraint " + c.name + " missing table " + c.table.value))
    ensures r.Ok? ==> r.value.keys == tables.keys && r.value.m.Keys == tables.m.Keys
  {
    if c.table.None? then Err(TypeError("can only concatenate str (not \"NoneType\") to str"))
    else
      match tables.Get(c.table.value)
      case None => Err(ValueError("constraint " + c.name + " missing table " + c.table.value))
      case Some(t) => Ok(tables.Set(c.table.value, t.(constraints := t.constraints + [c])))
  }

  /** The columns of `cols` that belong to table `n`, in order. */
  function ColumnsOf(cols: seq<Column>, n: string): seq<Column> {
    if cols == [] then []
    else ColumnsOf(cols[..|cols| - 1], n) + (if cols[|cols| - 1].tableName == n then [cols[|cols| - 1]] else [])
  }

  /** The constraints of `cons` that belong to table `n`, in order. */
  function ConstraintsOf(cons: seq<Constraint>, n: string): seq<Constraint> {
    if cons == [] then []
    else ConstraintsOf(cons[..|cons| - 1], n) + (if cons[|cons| - 1].table == Some(n) then [cons[|cons| - 1]] else [])
  }

  /** The index rows of `rows` that belong to table `n`. */
  function IndexRowsOf(rows: seq<IndexRow>, n: string): nat {
    if rows == [] then 0
    else IndexRowsOf(rows[..|rows| - 1], n) + (if rows[|rows| - 1].tableName == n then 1 else 0)
  }

  /** The loop keeps the set of stored table names and their order. */
  lemma {:induction false} ImportAllKeys<R>(tables: OrdMap<string, Table>, rows: seq<R>,
                                            step: (OrdMap<string, Table>, R) -> Result<OrdMap<string, Table>>)
    requires forall ts: OrdMap<string, Table>, row: R :: step(ts, row).Ok? ==>
               step(ts, row).value.keys == ts.keys && step(ts, row).value.m.Keys == ts.m.Keys
    ensures ImportAll(tables, rows, step).tables.keys == tables.keys
    ensures ImportAll(tables, rows, step).tables.m.Keys == tables.m.Keys
    decreases |rows|
  {
    if rows != [] {
      ImportAllKeys(tables, rows[..|rows| - 1], step);
    }
  }

  /** A loop whose every step leaves the stored names alone fails exactly when some row's step fails there. */
  lemma {:induction false} ImportAllFails<R>(tables: OrdMap<string, Table>, rows: seq<R>,
                                             step: (OrdMap<string, Table>, R) -> Result<OrdMap<string, Table>>,
                                             fits: R -> bool)
    requires forall ts: OrdMap<string, Table>, row: R :: step(ts, row).Ok? ==>
               step(ts, row).value.keys == ts.keys && step(ts, row).value.m.Keys == ts.m.Keys
    requires forall ts: OrdMap<string, Table>, row: R :: ts.m.Keys == tables.m.Keys ==> (step(ts, row).Ok? <==> fits(row))
    ensures ImportAll(tables, rows, step).failure.None? <==> forall j :: 0 <= j < |rows| ==> fits(rows[j])
    decreases |rows|
  {
    if rows != [] {
      var init := rows[..|rows| - 1];
      ImportAllFails(tables, init, step, fits);
      ImportAllKeys(tables, init, step);
      assert forall j :: 0 <= j < |init| ==> init[j] == rows[j];
    }
  }

  function KnownTable(tables: OrdMap<string, Table>): Column -> bool {
    (c: Column) => c.tableName in tables.m
  }

  function KnownConstraintTable(tables: OrdMap<string, Table>): Constraint -> bool {
    (c: Constraint) => c.table.Some? && c.table.value in tables.m
  }

  function KnownIndexTable(tables: OrdMap<string, Table>): IndexRow -> bool {
    (row: IndexRow) => row.tableName in tables.m
  }

  /** A columns import fails exactly when some column names a table that is not stored. */
  lemma ImportColumnsFails(tables: OrdMap<string, Table>, cols: seq<Column>)
    ensures ImportAll(tables, cols, ImportColumn).failure.None? <==> forall j :: 0 <= j < |cols| ==> cols[j].tableName in tables.m
  {
    ImportAllFails(tables, cols, ImportColumn, KnownTable(tables));
  }

  /** A constraints import fails exactly when some constraint has no stored table. */
  lemma ImportConstraintsFails(tables: OrdMap<string, Table>, cons: seq<Constraint>)
    ensures ImportAll(tables, cons, ImportConstraint).failure.None? <==>
            forall j :: 0 <= j < |cons| ==> cons[j].table.Some? && cons[j].table.value in tables.m
  {
    ImportAllFails(tables, cons, ImportConstraint, KnownConstraintTable(tables));
  }

  /** An index-rows import fails exactly when some row names a table that is not stored. */
  lemma ImportIndexRowsFails(tables: OrdMap<string, Table>, rows: seq<IndexRow>)
    ensures ImportAll(tables, rows, ImportIndexRow).failure.None? <==> forall j :: 0 <= j < |rows| ==> rows[j].tableName in tables.m
  {
    ImportAllFails(tables, rows, ImportIndexRow, KnownIndexTable(tables));
  }

  /** A successful columns import gives every stored table exactly its own columns, in order, at the end. */
  lemma {:induction false} ImportColumnsGroups(tables: OrdMap<string, Table>, cols: seq<Column>, n: string)
    requires n in tables.m && ImportAll(tables, cols, ImportColumn).failure.None?
    ensures ImportAll(tables, cols, ImportColumn).tables.Get(n)
         == Some(tables.m[n].(columns := tables.m[n].columns + ColumnsOf(cols, n)))
    decreases |cols|
  {
    if cols != [] {
      var init, c := cols[..|cols| - 1], cols[|cols| - 1];
      assert ImportAll(tables, init, ImportColumn).failure.None?;
      ImportColumnsGroups(tables, init, n);
      ImportAllKeys(tables, init, ImportColumn);
      var prev := ImportAll(tables, init, ImportColumn).tables;
      var next := ImportColumn(prev, c);
      assert next.Ok? && ImportAll(tables, cols, ImportColumn).tables == next.value;
      var t0 := tables.m[n];
      if c.tableName == n {
        assert next.value.m[n] == t0.(columns := t0.columns + ColumnsOf(init, n) + [c]);
        assert t0.columns + ColumnsOf(init, n) + [c] == t0.columns + ColumnsOf(cols, n);
      } else {
        assert next.value.m[n] == prev.m[n];
        assert ColumnsOf(cols, n) == ColumnsOf(init, n);
      }
    } else {
      assert tables.m[n].columns + [] == tables.m[n].columns;
    }
  }

  /** A successful constraints import gives every stored table exactly its own constraints, in order, at the end. */
  lemma {:induction false} ImportConstraintsGroups(tables: OrdMap<string, Table>, cons: seq<Constraint>, n: string)
    requires n in tables.m && ImportAll(tables, cons, ImportConstraint).failure.None?
    ensures ImportAll(tables, cons, ImportConstraint).tables.Get(n)
         == Some(tables.m[n].(constraints := tables.m[n].constraints + ConstraintsOf(cons, n)))
    decreases |cons|
  {
    if cons != [] {
      var init, c := cons[..|cons| - 1], cons[|cons| - 1];
      assert ImportAll(tables, init, ImportConstraint).failure.None?;
      ImportConstraintsGroups(tables, init, n);
      ImportAllKeys(tables, init, ImportConstraint);
      var prev := ImportAll(tables, init, ImportConstraint).tables;
      var next := ImportConstraint(prev, c);
      assert next.Ok? && ImportAll(tables, cons, ImportConstraint).tables == next.value;
      var t0 := tables.m[n];
      if c.table == Some(n) {
        assert next.value.m[n] == t0.(constraints := t0.constraints + ConstraintsOf(init, n) + [c]);
        assert t0.constraints + ConstraintsOf(init, n) + [c] == t0.constraints + ConstraintsOf(cons, n);
      } else {
        assert next.value.m[n] == prev.m[n];
        assert ConstraintsOf(cons, n) == ConstraintsOf(init, n);
      }
    } else {
      assert tables.m[n].constraints + [] == tables.m[n].constraints;
    }
  }

  /**
   * A successful index-rows import gives every stored table one more descriptor
   * per row of its own and changes nothing of it but its indexes.
   */
  lemma {:induction false} ImportIndexRowsCount(tables: OrdMap<string, Table>, rows: seq<IndexRow>, n: string)
    requires n in tables.m && ImportAll(tables, rows, ImportIndexRow).failure.None?
    ensures var t := ImportAll(tables, rows, ImportIndexRow).tables.Get(n);
            && t.Some? && t.value.(indexes := tables.m[n].indexes) == tables.m[n]
            && Descriptors(t.value.indexes) == Descriptors(tables.m[n].indexes) + IndexRowsOf(rows, n)
    decreases |rows|
  {
    if rows != [] {
      var init, row := rows[..|rows| - 1], rows[|rows| - 1];
      ImportIndexRowsCount(tables, init, n);
      var prev := ImportAll(tables, init, ImportIndexRow).tables;
      if row.tableName == n {
        IndexRowAddsOne(prev.m[n], row);
        IndexRowEffect(prev.m[n], row);
        assert ImportAll(tables, rows, ImportIndexRow).tables.m[n] == AddIndexRow(prev.m[n], row);
      }
    }
  }

  /** A stored table found by its name, changed only inside, can go back under that name. */
  lemma SetKeepsValid(tables: OrdMap<string, Table>, routines: OrdMap<string, Routine>, n: string, t: Table)
    requires Databases.ContainersValid(tables, routines) && n in tables.m && t.name == tables.m[n].name
    ensures Databases.ContainersValid(tables.Set(n, t), routines)
  {
  }

  /** The columns loop of `import_schema`. */
  method ImportColumns(db: Databases.Database, cols: seq<Column>) returns (failure: Option<Error>)
    requires db.Valid()
    modifies db
    ensures db.Valid() && db.name == old(db.name) && db.routines == old(db.routines)
    ensures Imported(db.tables, failure) == ImportAll(old(db.tables), cols, ImportColumn)
  {
    var i := 0;
    while i < |cols|
      invariant 0 <= i <= |cols|
      invariant db.Valid() && db.name == old(db.name) && db.routines == old(db.routines)
      invariant ImportAll(old(db.tables), cols[..i], ImportColumn) == Imported(db.tables, None)
    {
      ImportAllNext(old(db.tables), cols, i, ImportColumn);
      var c := cols[i];
      var table := db.GetTable(c.tableName);
      if table == None {
        failure := Some(ValueError(c.tableName));
        ImportAllStops(old(db.tables), cols, i, ImportColumn);
        return;
      }
      SetKeepsValid(db.tables, db.routines, c.tableName, table.value.(columns := table.value.columns + [c]));
      db.tables := db.tables.Set(c.tableName, table.value.(columns := table.value.columns + [c]));
      i := i + 1;
    }
    assert cols[..|cols|] == cols;
    failure := None;
  }

  /** The body of the index-rows loop for a table that was found: find or create the index, then `add_column`. */
  method ApplyIndexRow(t0: Table, row: IndexRow) returns (t: Table)
    ensures t == AddIndexRow(t0, row)
  {
    t := t0;
    var index := Schema.GetIndex(t, row.indexName);
    var k := Partition.FirstIndex(t.indexes, IndexName, row.indexName);
    if index == None {
      var created := NewMySqlIndex(row.indexName, row.tableName, IsZero(row.nonUnique));
      t := t.(indexes := t.indexes + [created]);
      k := |t.indexes| - 1;
    }
    var nullable := row.nullable == VStr("YES");
    t := t.(indexes := t.indexes[k := AddColumn(t.indexes[k], row.columnName, row.collation, nullable, row.subPart, row.seqInIndex)]);
  }

  /** The index-rows loop of `import_schema`. */
  method ImportIndexRows(db: Databases.Database, rows: seq<IndexRow>) returns (failure: Option<Error>)
    requires db.Valid()
    modifies db
    ensures db.Valid() && db.name == old(db.name) && db.routines == old(db.routines)
    ensures Imported(db.tables, failure) == ImportAll(old(db.tables), rows, ImportIndexRow)
  {
    var i := 0;
    while i < |rows|
      invariant 0 <= i <= |rows|
      invariant db.Valid() && db.name == old(db.name) && db.routines == old(db.routines)
      invariant ImportAll(old(db.tables), rows[..i], ImportIndexRow) == Imported(db.tables, None)
    {
      ImportAllNext(old(db.tables), rows, i, ImportIndexRow);
      var row := rows[i];
      var table := db.GetTable(row.tableName);
      if table == None {
        failure := Some(ValueError(row.tableName));
        ImportAllStops(old(db.tables), rows, i, ImportIndexRow);
        return;
      }
      var t := ApplyIndexRow(table.value, row);
      SetKeepsValid(db.tables, db.routines, row.tableName, t);
      db.tables := db.tables.Set(row.tableName, t);
      i := i + 1;
    }
    assert rows[..|rows|] == rows;
    failure := None;
  }

  /** The constraints loop of `import_schema`. */
  method ImportConstraints(db: Databases.Database, cons: seq<Constraint>) returns (failure: Option<Error>)
    requires db.Valid()
    modifies db
    ensures db.Valid() && db.name == old(db.name) && db.routines == old(db.routines)
    ensures Imported(db.tables, failure) == ImportAll(old(db.tables), cons, ImportConstraint)
  {
    var i := 0;
    while i < |cons|
      invariant 0 <= i <= |cons|
      invariant db.Valid() && db.name == old(db.name) && db.routines == old(db.routines)
      invariant ImportAll(old(db.tables), cons[..i], ImportConstraint) == Imported(db.tables, None)
    {
      ImportAllNext(old(db.tables), cons, i, ImportConstraint);
      var c := cons[i];
      if c.table.None? {
        failure := Some(TypeError("can only concatenate str (not \"NoneType\") to str"));
        ImportAllStops(old(db.tables), cons, i, ImportConstraint);
        return;
      }
      var table := db.GetTable(c.table.value);
      if table == None {
        failure := Some(ValueError("constraint " + c.name + " missing table " + c.table.value));
        ImportAllStops(old(db.tables), cons, i, ImportConstraint);
        return;
      }
      SetKeepsValid(db.tables, db.routines, c.table.value, table.value.(constraints := table.value.constraints + [c]));
      db.tables := db.tables.Set(c.table.value, table.value.(constraints := table.value.constraints + [c]));
      i := i + 1;
    }
    assert cons[..|cons|] == cons;
    failure := None;
  }

  // ---------------------------------------------------------------- key-column rows

  /** A row of `information_schema.key_column_usage`, with the fields `fetch_constraints` reads. */
  datatype KeyColumnRow = KeyColumnRow(constraintName: string, tableName: string, columnName: string,
                                       referencedTableName: Option<string>, referencedColumnName: Option<string>)

  /** What a key-column row is matched on: the constraint's table and name. */
  function ConstraintKey(c: Constraint): (Option<string>, string) {
    (c.table, c.name)
  }

  function RowKey(row: KeyColumnRow): (Option<string>, string) {
    (Some(row.tableName), row.constraintName)
  }

  /** The position of the first constraint a row matches, or `|cons|`. */
  function Target(cons: seq<Constraint>, row: KeyColumnRow): nat {
    Partition.FirstIndex(cons, ConstraintKey, RowKey(row))
  }

  /** A list extended by `more`; a missing list is created only when there is something to add. */
  function Extend(l: Option<seq<string>>, more: seq<string>): Option<seq<string>> {
    if more == [] then l else Some((if l.Some? then l.value else []) + more)
  }

  /**
   * One key-column row applied to its constraint: the column is appended, a
   * referenced table is recorded when none is and must agree with the one
   * recorded, and a referenced column is appended.
   */
  function AddKeyColumn(c: Constraint, row: KeyColumnRow): (r: Result<Constraint>)
    ensures r.Ok? <==> row.referencedTableName.None? || c.referenceTable.None? || c.referenceTable == row.referencedTableName
    ensures r.Err? ==> r.error == ValueError("Constraint " + c.name + " ref table mismatch " + row.referencedTableName.value
                                             + " is not " + c.referenceTable.value)
    ensures r.Ok? ==> ConstraintKey(r.value) == ConstraintKey(c)
    ensures r.Ok? ==> r.value.(columns := c.columns, referenceTable := c.referenceTable, referenceColumns := c.referenceColumns) == c
    ensures r.Ok? ==> r.value.columns == c.columns + [row.columnName]
    ensures r.Ok? ==> r.value.referenceTable == if row.referencedTableName.Some? then row.referencedTableName else c.referenceTable
    ensures r.Ok? ==> r.value.referenceColumns == Extend(c.referenceColumns, ReferencedColumn(row))
  {
    var c1 := c.(columns := c.columns + [row.columnName]);
    var rt := row.referencedTableName;
    if rt.Some? && c1.referenceTable.Some? && c1.referenceTable.value != rt.value then
      Err(ValueError("Constraint " + c1.name + " ref table mismatch " + rt.value + " is not " + c1.referenceTable.value))
    else
      var c2 := if rt.Some? then c1.(referenceTable := rt) else c1;
      var rc := row.referencedColumnName;
      Ok(if rc.Some? then c2.(referenceColumns := Extend(c2.referenceColumns, [rc.value])) else c2)
  }

  /** One row of the key-column loop: `ValueError('Missing Constraint ...')` when no constraint matches. */
  function KeyColumnStep(cons: seq<Constraint>, row: KeyColumnRow): (r: Result<seq<Constraint>>)
    ensures Target(cons, row) == |cons| ==> r == Err(ValueError("Missing Constraint " + row.constraintName))
    ensures r.Ok? ==> |r.value| == |cons|
  {
    var k := Target(cons, row);
    if k == |cons| then Err(ValueError("Missing Constraint " + row.constraintName))
    else
      match AddKeyColumn(cons[k], row)
      case Err(e) => Err(e)
      case Ok(c) => Ok(cons[k := c])
  }

  /** The key-column loop of `fetch_constraints` over all rows, stopping at the first error. */
  function KeyColumns(cons: seq<Constraint>, rows: seq<KeyColumnRow>): (r: Result<seq<Constraint>>)
    ensures r.Ok? ==> |r.value| == |cons|
  {
    if rows == [] then Ok(cons)
    else
      match KeyColumns(cons, rows[..|rows| - 1])
      case Err(e) => Err(e)
      case Ok(cs) => KeyColumnStep(cs, rows[|rows| - 1])
  }

  /** The rows that `Target` sends to constraint `i`, in order. */
  function RowsFor(cons: seq<Constraint>, rows: seq<KeyColumnRow>, i: nat): seq<KeyColumnRow> {
    if rows == [] then []
    else RowsFor(cons, rows[..|rows| - 1], i) + (if Target(cons, rows[|rows| - 1]) == i then [rows[|rows| - 1]] else [])
  }

  function ColumnNames(rows: seq<KeyColumnRow>): seq<string> {
    if rows == [] then [] else ColumnNames(rows[..|rows| - 1]) + [rows[|rows| - 1].columnName]
  }

  /** A row's referenced column, when it has one. */
  function ReferencedColumn(row: KeyColumnRow): seq<string> {
    if row.referencedColumnName.Some? then [row.referencedColumnName.value] else []
  }

  /** The non-null referenced columns of `rows`, in order. */
  function ReferencedColumns(rows: seq<KeyColumnRow>): seq<string> {
    if rows == [] then [] else ReferencedColumns(rows[..|rows| - 1]) + ReferencedColumn(rows[|rows| - 1])
  }

  lemma ExtendTwice(l: Option<seq<string>>, xs: seq<string>, ys: seq<string>)
    ensures Extend(Extend(l, xs), ys) == Extend(l, xs + ys)
  {
    if xs == [] {
      assert xs + ys == ys;
    } else if ys != [] {
      assert ((if l.Some? then l.value else []) + xs) + ys == (if l.Some? then l.value else []) + (xs + ys);
    } else {
      assert xs + ys == xs;
    }
  }

  lemma KeyColumnsErrSticks(cons: seq<Constraint>, rows: seq<KeyColumnRow>, i: nat)
    requires i < |rows| && KeyColumns(cons, rows[..i + 1]).Err?
    ensures KeyColumns(cons, rows) == KeyColumns(cons, rows[..i + 1])
    decreases |rows|
  {
    if |rows| > i + 1 {
      var init := rows[..|rows| - 1];
      assert init[..i + 1] == rows[..i + 1];
      KeyColumnsErrSticks(cons, init, i);
    } else {
      assert rows[..i + 1] == rows;
    }
  }

  /**
   * The loop keeps every constraint in its place with its table, name, type and
   * schema; only columns and the reference change.
   */
  lemma {:induction false} KeyColumnsKeepShape(cons: seq<Constraint>, rows: seq<KeyColumnRow>)
    requires KeyColumns(cons, rows).Ok?
    ensures var r := KeyColumns(cons, rows).value;
            && |r| == |cons|
            && forall i :: 0 <= i < |cons| ==>
                 r[i].(columns := cons[i].columns, referenceTable := cons[i].referenceTable,
                       referenceColumns := cons[i].referenceColumns) == cons[i]
    decreases |rows|
  {
    if rows != [] {
      KeyColumnsKeepShape(cons, rows[..|rows| - 1]);
    }
  }

  /** Constraint `i` is matched by a row in the loop's current list exactly as in the list it started from. */
  lemma KeyColumnsSameTarget(cons: seq<Constraint>, rows: seq<KeyColumnRow>, row: KeyColumnRow)
    requires KeyColumns(cons, rows).Ok?
    ensures Target(KeyColumns(cons, rows).value, row) == Target(cons, row)
  {
    var r := KeyColumns(cons, rows).value;
    KeyColumnsKeepShape(cons, rows);
    assert forall i :: 0 <= i < |r| ==> ConstraintKey(r[i]) == ConstraintKey(cons[i]) by {
      forall i | 0 <= i < |r| ensures ConstraintKey(r[i]) == ConstraintKey(cons[i]) {
        assert r[i].(columns := cons[i].columns, referenceTable := cons[i].referenceTable,
                     referenceColumns := cons[i].referenceColumns) == cons[i];
      }
    }
    Partition.FirstIndexSameKeys(r, cons, ConstraintKey, RowKey(row));
  }

  /** When the loop succeeds, every row matched a constraint: a row without one raises `Missing Constraint`. */
  lemma {:induction false} KeyColumnsAllFound(cons: seq<Constraint>, rows: seq<KeyColumnRow>)
    requires KeyColumns(cons, rows).Ok?
    ensures forall j :: 0 <= j < |rows| ==> Target(cons, rows[j]) < |cons|
    decreases |rows|
  {
    if rows != [] {
      var init := rows[..|rows| - 1];
      KeyColumnsAllFound(cons, init);
      KeyColumnsSameTarget(cons, init, rows[|rows| - 1]);
      assert forall j :: 0 <= j < |init| ==> rows[j] == init[j];
    }
  }

  /** What `RowsFor` adds for one more row. */
  lemma RowsForNext(cons: seq<Constraint>, rows: seq<KeyColumnRow>, i: nat)
    requires rows != []
    ensures var init, row := rows[..|rows| - 1], rows[|rows| - 1];
            var prev := RowsFor(cons, init, i);
            && ColumnNames(RowsFor(cons, rows, i)) == ColumnNames(prev) + (if Target(cons, row) == i then [row.columnName] else [])
            && ReferencedColumns(RowsFor(cons, rows, i)) == ReferencedColumns(prev) + (if Target(cons, row) == i then ReferencedColumn(row) else [])
  {
    var init, row := rows[..|rows| - 1], rows[|rows| - 1];
    var prev := RowsFor(cons, init, i);
    if Target(cons, row) == i {
      assert RowsFor(cons, rows, i) == prev + [row];
      assert (prev + [row])[..|prev|] == prev;
    } else {
      assert RowsFor(cons, rows, i) == prev;
    }
  }

  /** One successful step changes only the constraint its row targets, as `AddKeyColumn` says. */
  lemma KeyColumnStepAt(cons: seq<Constraint>, row: KeyColumnRow, i: nat)
    requires KeyColumnStep(cons, row).Ok? && i < |cons|
    ensures i < |KeyColumnStep(cons, row).value|
    ensures Target(cons, row) == i ==>
              AddKeyColumn(cons[i], row).Ok? && KeyColumnStep(cons, row).value[i] == AddKeyColumn(cons[i], row).value
    ensures Target(cons, row) != i ==> KeyColumnStep(cons, row).value[i] == cons[i]
  {
  }

  /** When the loop succeeds, each constraint has gained the columns of its rows, in row order. */
  lemma {:induction false} KeyColumnsColumns(cons: seq<Constraint>, rows: seq<KeyColumnRow>, i: nat)
    requires KeyColumns(cons, rows).Ok? && i < |cons|
    ensures i < |KeyColumns(cons, rows).value|
    ensures KeyColumns(cons, rows).value[i].columns == cons[i].columns + ColumnNames(RowsFor(cons, rows, i))
    decreases |rows|
  {
    KeyColumnsKeepShape(cons, rows);
    if rows != [] {
      var init, row := rows[..|rows| - 1], rows[|rows| - 1];
      KeyColumnsColumns(cons, init, i);
      KeyColumnsSameTarget(cons, init, row);
      RowsForNext(cons, rows, i);
    }
  }

  /** When the loop succeeds, each constraint has gained the non-null referenced columns of its rows, in row order. */
  lemma {:induction false} KeyColumnsReferencedColumns(cons: seq<Constraint>, rows: seq<KeyColumnRow>, i: nat)
    requires KeyColumns(cons, rows).Ok? && i < |cons|
    ensures i < |KeyColumns(cons, rows).value|
    ensures KeyColumns(cons, rows).value[i].referenceColumns
         == Extend(cons[i].referenceColumns, ReferencedColumns(RowsFor(cons, rows, i)))
    decreases |rows|
  {
    if rows != [] {
      var init, row := rows[..|rows| - 1], rows[|rows| - 1];
      KeyColumnsReferencedColumns(cons, init, i);
      KeyColumnsSameTarget(cons, init, row);
      RowsForNext(cons, rows, i);
      var prevs := KeyColumns(cons, init).value;
      assert KeyColumns(cons, rows) == KeyColumnStep(prevs, row);
      KeyColumnStepAt(prevs, row, i);
      var here := KeyColumns(cons, rows).value[i];
      var before := Extend(cons[i].referenceColumns, ReferencedColumns(RowsFor(cons, init, i)));
      assert prevs[i].referenceColumns == before;
      if Target(cons, row) == i {
        assert here.referenceColumns == Extend(before, ReferencedColumn(row));
        ExtendTwice(cons[i].referenceColumns, ReferencedColumns(RowsFor(cons, init, i)), ReferencedColumn(row));
        assert ReferencedColumns(RowsFor(cons, rows, i)) == ReferencedColumns(RowsFor(cons, init, i)) + ReferencedColumn(row);
      } else {
        assert here == prevs[i];
        assert ReferencedColumns(RowsFor(cons, rows, i)) == ReferencedColumns(RowsFor(cons, init, i)) + [];
        assert ReferencedColumns(RowsFor(cons, init, i)) + [] == ReferencedColumns(RowsFor(cons, init, i));
      }
    }
  }

  /**
   * When the loop succeeds, a row's non-null referenced table is the one its
   * constraint ends with: the first non-null value is recorded and every later one agrees.
   */
  lemma {:induction false} KeyColumnsReferenceAgrees(cons: seq<Constraint>, rows: seq<KeyColumnRow>, j: nat)
    requires KeyColumns(cons, rows).Ok? && j < |rows| && rows[j].referencedTableName.Some?
    ensures Target(cons, rows[j]) < |KeyColumns(cons, rows).value|
    ensures KeyColumns(cons, rows).value[Target(cons, rows[j])].referenceTable == rows[j].referencedTableName
    decreases |rows|
  {
    KeyColumnsAllFound(cons, rows);
    var init, row := rows[..|rows| - 1], rows[|rows| - 1];
    KeyColumnsUnfold(cons, rows);
    KeyColumnsSameTarget(cons, init, row);
    var cs := KeyColumns(cons, init).value;
    if j < |init| {
      assert init[j] == rows[j];
      KeyColumnsReferenceAgrees(cons, init, j);
      StepReference(cs, row, Target(cons, rows[j]));
    } else {
      StepReference(cs, row, Target(cons, row));
    }
  }

  /** A successful loop over rows is a successful loop over all rows but the last, then one step. */
  lemma KeyColumnsUnfold(cons: seq<Constraint>, rows: seq<KeyColumnRow>)
    requires rows != [] && KeyColumns(cons, rows).Ok?
    ensures KeyColumns(cons, rows[..|rows| - 1]).Ok?
    ensures KeyColumns(cons, rows) == KeyColumnStep(KeyColumns(cons, rows[..|rows| - 1]).value, rows[|rows| - 1])
  {
  }

  /** One successful step records a row's non-null referenced table and keeps the ones already recorded. */
  lemma StepReference(cs: seq<Constraint>, row: KeyColumnRow, k: nat)
    requires KeyColumnStep(cs, row).Ok? && k < |cs|
    ensures k < |KeyColumnStep(cs, row).value|
    ensures k == Target(cs, row) && row.referencedTableName.Some? ==>
              KeyColumnStep(cs, row).value[k].referenceTable == row.referencedTableName
    ensures cs[k].referenceTable.Some? ==> KeyColumnStep(cs, row).value[k].referenceTable == cs[k].referenceTable
  {
  }

  /** When the loop succeeds, a referenced table a constraint already had is kept. */
  lemma {:induction false} KeyColumnsReferenceKept(cons: seq<Constraint>, rows: seq<KeyColumnRow>, i: nat)
    requires KeyColumns(cons, rows).Ok? && i < |cons| && cons[i].referenceTable.Some?
    ensures i < |KeyColumns(cons, rows).value|
    ensures KeyColumns(cons, rows).value[i].referenceTable == cons[i].referenceTable
    decreases |rows|
  {
    KeyColumnsKeepShape(cons, rows);
    if rows != [] {
      var init, row := rows[..|rows| - 1], rows[|rows| - 1];
      KeyColumnsReferenceKept(cons, init, i);
      KeyColumnsSameTarget(cons, init, row);
    }
  }

  /** Two rows of one constraint with different non-null referenced tables make the loop raise. */
  lemma ReferenceMismatchRaises(cons: seq<Constraint>, rows: seq<KeyColumnRow>, j1: nat, j2: nat)
    requires j1 < |rows| && j2 < |rows| && Target(cons, rows[j1]) == Target(cons, rows[j2])
    requires rows[j1].referencedTableName.Some? && rows[j2].referencedTableName.Some?
    requires rows[j1].referencedTableName != rows[j2].referencedTableName
    ensures KeyColumns(cons, rows).Err?
  {
    if KeyColumns(cons, rows).Ok? {
      KeyColumnsReferenceAgrees(cons, rows, j1);
      KeyColumnsReferenceAgrees(cons, rows, j2);
    }
  }

  /** A row that matches no constraint makes the loop raise. */
  lemma MissingConstraintRaises(cons: seq<Constraint>, rows: seq<KeyColumnRow>, j: nat)
    requires j < |rows| && Target(cons, rows[j]) == |cons|
    ensures KeyColumns(cons, rows).Err?
  {
    if KeyColumns(cons, rows).Ok? {
      KeyColumnsAllFound(cons, rows);
    }
  }

  /** The scan for `cmatch`: the first constraint with the row's table and name, or `|cons|`. */
  method FindKeyTarget(cons: seq<Constraint>, row: KeyColumnRow) returns (k: nat)
    ensures k == Target(cons, row)
  {
    k := 0;
    while k < |cons| && !(cons[k].table == Some(row.tableName) && cons[k].name == row.constraintName)
      invariant 0 <= k <= |cons|
      invariant forall j :: 0 <= j < k ==> ConstraintKey(cons[j]) != RowKey(row)
    {
      k := k + 1;
    }
    Partition.FirstIndexIs(cons, ConstraintKey, RowKey(row), k);
  }

  /** The updates `fetch_constraints` makes to `cmatch` for one row. */
  method ApplyKeyColumn(c0: Constraint, row: KeyColumnRow) returns (r: Result<Constraint>)
    ensures r == AddKeyColumn(c0, row)
  {
    var c := c0.(columns := c0.columns + [row.columnName]);
    if row.referencedTableName.Some? {
      if c.referenceTable.None? {
        c := c.(referenceTable := row.referencedTableName);
      } else if c.referenceTable.value != row.referencedTableName.value {
        return Err(ValueError("Constraint " + c.name + " ref table mismatch " + row.referencedTableName.value
                              + " is not " + c.referenceTable.value));
      }
    }
    if row.referencedColumnName.Some? {
      if c.referenceColumns.None? {
        c := c.(referenceColumns := Some([]));
      }
      c := c.(referenceColumns := Some(c.referenceColumns.value + [row.referencedColumnName.value]));
    }
    r := Ok(c);
  }

  /**
   * `fetch_constraints` after its two queries: one constraint per constraint row,
   * then every key-column row applied to the first constraint of its table and name.
   */
  method FetchConstraints(constraintRows: seq<ConstraintRow>, keyRows: seq<KeyColumnRow>) returns (r: Result<seq<Constraint>>)
    ensures r == KeyColumns(Partition.MapSeq(constraintRows, NewMySqlConstraint), keyRows)
  {
    var constraints: seq<Constraint> := [];
    var i := 0;
    while i < |constraintRows|
      invariant 0 <= i <= |constraintRows|
      invariant constraints == Partition.MapSeq(constraintRows[..i], NewMySqlConstraint)
    {
      constraints := constraints + [NewMySqlConstraint(constraintRows[i])];
      i := i + 1;
    }
    assert constraintRows[..|constraintRows|] == constraintRows;
    ghost var initial := constraints;
    i := 0;
    while i < |keyRows|
      invariant 0 <= i <= |keyRows|
      invariant KeyColumns(initial, keyRows[..i]) == Ok(constraints)
    {
      var row := keyRows[i];
      assert keyRows[..i + 1][..i] == keyRows[..i];
      var k := FindKeyTarget(constraints, row);
      if k == |constraints| {
        r := Err(ValueError("Missing Constraint " + row.constraintName));
        KeyColumnsErrSticks(initial, keyRows, i);
        return;
      }
      var c := ApplyKeyColumn(constraints[k], row);
      if c.Err? {
        r := Err(c.error);
        KeyColumnsErrSticks(initial, keyRows, i);
        return;
      }
      constraints := constraints[k := c.value];
      i := i + 1;
    }
    assert keyRows[..|keyRows|] == keyRows;
    r := Ok(constraints);
  }

  // ---------------------------------------------------------------- import_schema

  /** The tables `fetch_tables` registers with `add_table`, one per row, a later name replacing an earlier one. */
  function TablesFrom(rows: seq<TableRow>): (r: OrdMap<string, Table>)
    ensures r.Valid() && Databases.KeyedByName(r)
    ensures forall n :: n in r.m <==> exists j :: 0 <= j < |rows| && rows[j].tableName == n
  {
    if rows == [] then Empty()
    else
      var prev := TablesFrom(rows[..|rows| - 1]);
      var last := rows[|rows| - 1];
      assert forall j :: 0 <= j < |rows| - 1 ==> rows[..|rows| - 1][j] == rows[j];
      prev.Put(last.tableName, NewMySqlTable(last))
  }

  /** What `import_schema` leaves in the database: each loop in turn, stopping at the first error. */
  function SchemaImport(tableRows: seq<TableRow>, columnRows: seq<ColumnRow>, indexRows: seq<IndexRow>,
                        constraintRows: seq<ConstraintRow>, keyRows: seq<KeyColumnRow>): Imported
  {
    var columns := ImportAll(TablesFrom(tableRows), Partition.MapSeq(columnRows, NewMySqlColumn), ImportColumn);
    if columns.failure.Some? then columns
    else
      var indexes := ImportAll(columns.tables, indexRows, ImportIndexRow);
      if indexes.failure.Some? then indexes
      else
        match KeyColumns(Partition.MapSeq(constraintRows, NewMySqlConstraint), keyRows)
        case Err(e) => Imported(indexes.tables, Some(e))
        case Ok(cons) => ImportAll(indexes.tables, cons, ImportConstraint)
  }

  /**
   * `MySQLDatabase.import_schema(dbname)` over the rows its queries return: reset,
   * tables, columns, index rows, then the constraints `fetch_constraints` builds.
   */
  method ImportSchema(db: Databases.Database, dbname: string, tableRows: seq<TableRow>, columnRows: seq<ColumnRow>,
                      indexRows: seq<IndexRow>, constraintRows: seq<ConstraintRow>, keyRows: seq<KeyColumnRow>)
    returns (failure: Option<Error>)
    modifies db
    ensures db.Valid() && db.name == dbname && db.routines == Empty()
    ensures Imported(db.tables, failure) == SchemaImport(tableRows, columnRows, indexRows, constraintRows, keyRows)
  {
    db.Reset(dbname);
    var i := 0;
    while i < |tableRows|
      invariant 0 <= i <= |tableRows|
      invariant db.Valid() && db.name == dbname && db.routines == Empty()
      invariant db.tables == TablesFrom(tableRows[..i])
    {
      assert tableRows[..i + 1][..i] == tableRows[..i];
      db.AddTable(NewMySqlTable(tableRows[i]));
      i := i + 1;
    }
    assert tableRows[..|tableRows|] == tableRows;
    var columns := Partition.MapSeq(columnRows, NewMySqlColumn);
    failure := ImportColumns(db, columns);
    if failure.Some? {
      return;
    }
    failure := ImportIndexRows(db, indexRows);
    if failure.Some? {
      return;
    }
    var cons := FetchConstraints(constraintRows, keyRows);
    if cons.Err? {
      failure := Some(cons.error);
      return;
    }
    failure := ImportConstraints(db, cons.value);
  }
}
