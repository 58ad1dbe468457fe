/**
 * The entity model of the schema package (src/schema/__init__.py): columns,
 * indexes, constraints, routines and tables, their hand-written equality, the
 * field-by-field column diff, the canonicalizing copies and the three
 * table-level diffs.
 */
module Schema {
  import opened Wrappers
  import Partition

  /**
   * The concrete Python class of an entity (`Column`, `MySQLColumn`,
   * `PostgresColumn`, ...). `__eq__` is false and `diff` raises when it differs.
   */
  datatype Kind = Base | MySql | Postgres

  /** A scalar as Python holds it: `None`, a bool, an int or a str. */
  datatype Value = VNull | VBool(b: bool) | VInt(i: int) | VStr(s: string)

  /** A name-canonicalization hook such as upper- or lower-casing. */
  type Canonicalizer = string -> string

  /** `canonicalize(s)` when the hook is given, else `s`. */
  function Canon(canon: Option<Canonicalizer>, s: string): string {
    if canon.Some? then canon.value(s) else s
  }

  /** The copy-time treatment of a field that may hold `None`: only a present name is canonicalized. */
  function CanonOpt(canon: Option<Canonicalizer>, s: Option<string>): Option<string> {
    if canon.Some? && s.Some? then Some(canon.value(s.value)) else s
  }

  function OptStr(s: Option<string>): Value {
    if s.Some? then VStr(s.value) else VNull
  }

  function OptInt(n: Option<int>): Value {
    if n.Some? then VInt(n.value) else VNull
  }

  // ---------------------------------------------------------------- Column

  datatype Column = Column(
    kind: Kind,
    name: string,
    typeName: string,
    tableName: string,
    schema: Option<string>,
    nullable: bool,
    primaryKey: bool,
    defaultValue: Value,
    constraints: Value,
    position: Option<int>)

  function ColumnName(c: Column): string { c.name }

  function ColumnPosition(c: Column): Option<int> { c.position }

  /** `Column.__eq__`: same class and the same eight fields; `schema` is not compared. */
  predicate ColumnEq(a: Column, b: Column) {
    && a.kind == b.kind
    && a.name == b.name
    && a.typeName == b.typeName
    && a.nullable == b.nullable
    && a.primaryKey == b.primaryKey
    && a.defaultValue == b.defaultValue
    && a.constraints == b.constraints
    && a.position == b.position
    && a.tableName == b.tableName
  }

  /** Column equality is identity of everything except the schema. */
  lemma ColumnEqIgnoresOnlySchema(a: Column, b: Column)
    ensures ColumnEq(a, b) <==> a.(schema := b.schema) == b
  {
  }

  /** The attribute names of a column object, in the order its constructor assigns them. */
  const ColumnFields: seq<string> :=
    ["name", "type", "nullable", "primaryKey", "defaultValue", "constraints", "position", "tableName", "schema"]

  /** `col.__dict__[f]` for one of the attribute names above. */
  function ColumnField(c: Column, f: string): Value {
    match f
    case "name" => VStr(c.name)
    case "type" => VStr(c.typeName)
    case "nullable" => VBool(c.nullable)
    case "primaryKey" => VBool(c.primaryKey)
    case "defaultValue" => c.defaultValue
    case "constraints" => c.constraints
    case "position" => OptInt(c.position)
    case "tableName" => VStr(c.tableName)
    case "schema" => OptStr(c.schema)
    case _ => VNull
  }

  /** The fields among `fields` on which `x` and `y` differ, mapped to `x`'s values. */
  function DiffMap(x: Column, y: Column, fields: seq<string>): (m: map<string, Value>)
    decreases |fields|
  {
    if fields == [] then map[]
    else
      var f := fields[|fields| - 1];
      var init := DiffMap(x, y, fields[..|fields| - 1]);
      if ColumnField(x, f) != ColumnField(y, f) then init[f := ColumnField(x, f)] else init
  }

  lemma {:induction false} DiffMapMember(x: Column, y: Column, fields: seq<string>, f: string)
    ensures f in DiffMap(x, y, fields) <==> f in fields && ColumnField(x, f) != ColumnField(y, f)
    ensures f in DiffMap(x, y, fields) ==> DiffMap(x, y, fields)[f] == ColumnField(x, f)
    decreases |fields|
  {
    if fields != [] {
      DiffMapMember(x, y, fields[..|fields| - 1], f);
      assert fields == fields[..|fields| - 1] + [fields[|fields| - 1]];
    }
  }

  /** The result of `Column.diff`: a flag and, when it is set, the two maps of differing fields. */
  datatype FieldDiff = FieldDiff(differs: bool, left: Option<map<string, Value>>, right: Option<map<string, Value>>)

  /** `str(type(col))` for the message of `diff`'s `TypeError`; the class is named without its module path. */
  function ColumnClassName(k: Kind): string {
    match k
    case Base => "<class 'Column'>"
    case MySql => "<class 'MySQLColumn'>"
    case Postgres => "<class 'PostgresColumn'>"
  }

  /**
   * `Column.diff`: a `TypeError` for a column of another class, `(False, None, None)`
   * for equal columns, and otherwise the two maps holding exactly the attributes
   * whose values differ, each with its own side's value.
   */
  method Diff(a: Column, b: Column) returns (r: Result<FieldDiff>)
    ensures a.kind != b.kind ==> r == Err(TypeError(ColumnClassName(b.kind)))
    ensures a.kind == b.kind && ColumnEq(a, b) ==> r == Ok(FieldDiff(false, None, None))
    ensures a.kind == b.kind && !ColumnEq(a, b) ==>
              r == Ok(FieldDiff(true, Some(DiffMap(a, b, ColumnFields)), Some(DiffMap(b, a, ColumnFields))))
    ensures r.Ok? && r.value.differs ==>
              forall f :: (f in r.value.left.value <==> f in ColumnFields && ColumnField(a, f) != ColumnField(b, f))
                       && (f in r.value.right.value <==> f in ColumnFields && ColumnField(a, f) != ColumnField(b, f))
  {
    if a.kind != b.kind {
      return Err(TypeError(ColumnClassName(b.kind)));
    }
    if ColumnEq(a, b) {
      return Ok(FieldDiff(false, None, None));
    }
    var diff1: map<string, Value> := map[];
    var diff2: map<string, Value> := map[];
    var i := 0;
    while i < |ColumnFields|
      invariant 0 <= i <= |ColumnFields|
      invariant diff1 == DiffMap(a, b, ColumnFields[..i])
      invariant diff2 == DiffMap(b, a, ColumnFields[..i])
    {
      var key := ColumnFields[i];
      var val1 := ColumnField(a, key);
      var val2 := ColumnField(b, key);
      if val1 != val2 {
        diff1 := diff1[key := val1];
        diff2 := diff2[key := val2];
      }
      assert ColumnFields[..i + 1][..i] == ColumnFields[..i];
      i := i + 1;
    }
    assert ColumnFields[..i] == ColumnFields;
    forall f ensures (f in diff1 <==> f in ColumnFields && ColumnField(a, f) != ColumnField(b, f))
                  && (f in diff2 <==> f in ColumnFields && ColumnField(a, f) != ColumnField(b, f))
    {
      DiffMapMember(a, b, ColumnFields, f);
      DiffMapMember(b, a, ColumnFields, f);
    }
    r := Ok(FieldDiff(true, Some(diff1), Some(diff2)));
  }

  /** Two unequal columns of one class differ in at least one reported attribute. */
  lemma DiffNotEmpty(a: Column, b: Column)
    requires a.kind == b.kind && !ColumnEq(a, b)
    ensures DiffMap(a, b, ColumnFields) != map[]
  {
    var f :=
      if a.name != b.name then "name"
      else if a.typeName != b.typeName then "type"
      else if a.nullable != b.nullable then "nullable"
      else if a.primaryKey != b.primaryKey then "primaryKey"
      else if a.defaultValue != b.defaultValue then "defaultValue"
      else if a.constraints != b.constraints then "constraints"
      else if a.position != b.position then "position"
      else "tableName";
    assert ColumnField(a, f) != ColumnField(b, f);
    DiffMapMember(a, b, ColumnFields, f);
  }

  /** Swapping the two columns swaps the two maps of `diff`. */
  lemma DiffMapSymmetric(a: Column, b: Column, f: string)
    ensures f in DiffMap(a, b, ColumnFields) <==> f in DiffMap(b, a, ColumnFields)
  {
    DiffMapMember(a, b, ColumnFields, f);
    DiffMapMember(b, a, ColumnFields, f);
  }

  /** `Column.copy(canonicalize)`: only the copy's `tableName` changes. */
  function CopyColumn(c: Column, canon: Option<Canonicalizer>): (r: Column)
    ensures r.(tableName := c.tableName) == c
    ensures r.tableName == Canon(canon, c.tableName)
  {
    c.(tableName := Canon(canon, c.tableName))
  }

  /** A name-matched column pair counts as the same in `diff_columns`. */
  predicate ColumnSame(canon: Option<Canonicalizer>, a: Column, b: Column) {
    ColumnEq(a, b) || (canon.Some? && ColumnEq(CopyColumn(a, canon), CopyColumn(b, canon)))
  }

  function ColumnMatch(canon: Option<Canonicalizer>): (Column, Column) -> bool {
    (a: Column, b: Column) => ColumnSame(canon, a, b)
  }

  /**
   * With a canonicalizer the pair is the same exactly when the canonicalized
   * copies are equal; without one, exactly when the columns are equal.
   */
  lemma ColumnSameIff(canon: Option<Canonicalizer>, a: Column, b: Column)
    ensures canon.None? ==> (ColumnSame(canon, a, b) <==> ColumnEq(a, b))
    ensures canon.Some? ==> (ColumnSame(canon, a, b) <==> ColumnEq(CopyColumn(a, canon), CopyColumn(b, canon)))
  {
  }

  // ---------------------------------------------------------------- Index

  /** One column descriptor of an index, the dict `add_column` builds. */
  datatype IndexColumn = IndexColumn(name: string, collation: Value, nullable: bool, subpart: Value, position: Value)

  function IndexColumnName(d: IndexColumn): string { d.name }

  /** Descriptors are dicts: they are compared as whole values. */
  function DescriptorMatch(): (IndexColumn, IndexColumn) -> bool {
    (x: IndexColumn, y: IndexColumn) => x == y
  }

  datatype Index = Index(kind: Kind, name: string, tableName: string, schema: Option<string>, unique: bool, columns: seq<IndexColumn>)

  function IndexName(i: Index): string { i.name }

  /** `Index.__eq__`: same class, name, table name, uniqueness and descriptors; `schema` is not compared. */
  predicate IndexEq(a: Index, b: Index) {
    a.kind == b.kind && a.name == b.name && a.tableName == b.tableName && a.unique == b.unique && a.columns == b.columns
  }

  /** `Index.copy(canonicalize)`: only the copy's `tableName` changes. */
  function CopyIndex(i: Index, canon: Option<Canonicalizer>): (r: Index)
    ensures r.(tableName := i.tableName) == i
    ensures r.tableName == Canon(canon, i.tableName)
  {
    i.(tableName := Canon(canon, i.tableName))
  }

  predicate IndexSame(canon: Option<Canonicalizer>, a: Index, b: Index) {
    IndexEq(a, b) || (canon.Some? && IndexEq(CopyIndex(a, canon), CopyIndex(b, canon)))
  }

  function IndexMatch(canon: Option<Canonicalizer>): (Index, Index) -> bool {
    (a: Index, b: Index) => IndexSame(canon, a, b)
  }

  /**
   * `Index.diff_columns`: the descriptors of `a` partitioned against those of `b`
   * by their `'name'` entry, compared as whole descriptors.
   */
  method DiffIndexColumns(a: seq<IndexColumn>, b: seq<IndexColumn>) returns (p: Partition.Partition<IndexColumn>)
    ensures p == Partition.Spec(a, b, IndexColumnName, DescriptorMatch())
    ensures multiset(p.same) + multiset(p.changed) + multiset(p.onlyLeft) == multiset(a)
    ensures forall d :: d in p.same <==> d in a && Partition.Lookup(b, IndexColumnName, d.name) == Some(d)
    ensures forall d :: d in p.onlyRight <==> d in b && forall j :: 0 <= j < |a| ==> a[j].name != d.name
  {
    p := Partition.DiffByName(a, b, IndexColumnName, DescriptorMatch());
    Partition.SelectCovers(a, b, IndexColumnName, DescriptorMatch());
    forall d ensures d in p.same <==> d in a && Partition.Lookup(b, IndexColumnName, d.name) == Some(d) {
      Partition.SelectMember(a, b, IndexColumnName, DescriptorMatch(), Partition.Same, d);
    }
    forall d ensures d in p.onlyRight <==> d in b && forall j :: 0 <= j < |a| ==> a[j].name != d.name {
      Partition.OnlyRightMember(a, b, IndexColumnName, DescriptorMatch(), d);
    }
  }

  // ---------------------------------------------------------------- Constraint

  datatype Constraint = Constraint(
    kind: Kind,
    name: string,
    schema: Option<string>,
    constraintType: string,
    table: Option<string>,
    columns: seq<string>,
    referenceSchema: Option<string>,
    referenceTable: Option<string>,
    referenceColumns: Option<seq<string>>,
    checkClause: Option<string>)

  function ConstraintName(c: Constraint): string { c.name }

  /** `Constraint.__eq__`: same class and eight fields; a check clause is not compared. */
  predicate ConstraintEq(a: Constraint, b: Constraint) {
    && a.kind == b.kind
    && a.name == b.name
    && a.schema == b.schema
    && a.constraintType == b.constraintType
    && a.table == b.table
    && a.columns == b.columns
    && a.referenceSchema == b.referenceSchema
    && a.referenceTable == b.referenceTable
    && a.referenceColumns == b.referenceColumns
  }

  /**
   * `is_foreign_key()`: the base class always answers False; the MySQL and
   * Postgres subclasses test the constraint type.
   */
  predicate IsForeignKey(c: Constraint) {
    c.kind != Base && c.constraintType == "FOREIGN KEY"
  }

  /** `is_primary_key()`, dispatched the same way. */
  predicate IsPrimaryKey(c: Constraint) {
    c.kind != Base && c.constraintType == "PRIMARY KEY"
  }

  /** No constraint is both kinds, and one of the base class is neither. */
  lemma KindPredicates(c: Constraint)
    ensures !(IsForeignKey(c) && IsPrimaryKey(c))
    ensures c.kind == Base ==> !IsForeignKey(c) && !IsPrimaryKey(c)
    ensures c.kind != Base ==> (IsForeignKey(c) <==> c.constraintType == "FOREIGN KEY")
    ensures c.kind != Base ==> (IsPrimaryKey(c) <==> c.constraintType == "PRIMARY KEY")
  {
  }

  /** `Constraint.copy(canonicalize)`: only `table` and `reference_table` change, and only when present. */
  function CopyConstraint(c: Constraint, canon: Option<Canonicalizer>): (r: Constraint)
    ensures r.(table := c.table, referenceTable := c.referenceTable) == c
    ensures r.table == CanonOpt(canon, c.table) && r.referenceTable == CanonOpt(canon, c.referenceTable)
    ensures c.table.None? ==> r.table.None?
    ensures c.referenceTable.None? ==> r.referenceTable.None?
  {
    c.(table := CanonOpt(canon, c.table), referenceTable := CanonOpt(canon, c.referenceTable))
  }

  predicate ConstraintSame(canon: Option<Canonicalizer>, a: Constraint, b: Constraint) {
    ConstraintEq(a, b) || (canon.Some? && ConstraintEq(CopyConstraint(a, canon), CopyConstraint(b, canon)))
  }

  function ConstraintMatch(canon: Option<Canonicalizer>): (Constraint, Constraint) -> bool {
    (a: Constraint, b: Constraint) => ConstraintSame(canon, a, b)
  }

  // ---------------------------------------------------------------- Routine and Table

  datatype Routine = Routine(name: string, schema: Option<string>, routineType: Value, definition: Value)

  datatype Table = Table(
    name: string,
    schema: Option<string>,
    columns: seq<Column>,
    constraints: seq<Constraint>,
    indexes: seq<Index>,
    rows: Value,
    dataLength: Value,
    indexLength: Value,
    autoIncrement: Value,
    tableCollation: Value)

  /** `Table(name, schema, rows)`: no columns, constraints or indexes yet, zero lengths. */
  function NewTable(name: string, schema: Option<string>, rows: Value): (t: Table)
    ensures t.name == name && t.schema == schema && t.rows == rows
    ensures t.columns == [] && t.constraints == [] && t.indexes == []
  {
    Table(name, schema, [], [], [], rows, VInt(0), VInt(0), VNull, VNull)
  }

  /** `get_full_name()`: `schema.name`, or the bare name for a table without a schema. */
  function FullName(t: Table): (r: string)
    ensures t.schema.None? ==> r == t.name
    ensures t.schema.Some? ==> r == t.schema.value + "." + t.name
  {
    if t.schema.Some? then t.schema.value + "." + t.name else t.name
  }

  /** The primary-key columns among `cols`, in column order. */
  function PrimaryKeyColumns(cols: seq<Column>): (r: seq<Column>)
    ensures |r| <= |cols|
    decreases |cols|
  {
    if cols == [] then []
    else
      var init := PrimaryKeyColumns(cols[..|cols| - 1]);
      if cols[|cols| - 1].primaryKey then init + [cols[|cols| - 1]] else init
  }

  /** A column is kept exactly when it is one of `cols` and is marked as a primary key. */
  lemma {:induction false} PrimaryKeyColumnsMembers(cols: seq<Column>)
    ensures forall c :: c in PrimaryKeyColumns(cols) <==> c in cols && c.primaryKey
  {
    if cols != [] {
      var init := cols[..|cols| - 1];
      PrimaryKeyColumnsMembers(init);
      assert cols == init + [cols[|cols| - 1]];
    }
  }

  /** The key columns of two lists one after the other are the key columns of each, one after the other. */
  lemma {:induction false} PrimaryKeyColumnsAppend(cols: seq<Column>, more: seq<Column>)
    ensures PrimaryKeyColumns(cols + more) == PrimaryKeyColumns(cols) + PrimaryKeyColumns(more)
    decreases |more|
  {
    if more == [] {
      assert cols + more == cols;
    } else {
      var init := more[..|more| - 1];
      PrimaryKeyColumnsAppend(cols, init);
      Partition.ConcatLast(cols, more);
    }
  }

  /** `Table.get_column(name)`: the first column of that name. */
  method GetColumn(t: Table, name: string) returns (r: Option<Column>)
    ensures r == Partition.Lookup(t.columns, ColumnName, name)
    ensures r.None? <==> forall j :: 0 <= j < |t.columns| ==> t.columns[j].name != name
    ensures r.Some? ==> r.value in t.columns && r.value.name == name
  {
    r := Partition.FindFirst(t.columns, ColumnName, name);
  }

  /** `Table.get_column_by_position(position)`: the first column at that ordinal position. */
  method GetColumnByPosition(t: Table, position: int) returns (r: Option<Column>)
    ensures r == Partition.Lookup(t.columns, ColumnPosition, Some(position))
    ensures r.None? <==> forall j :: 0 <= j < |t.columns| ==> t.columns[j].position != Some(position)
    ensures r.Some? ==> r.value in t.columns && r.value.position == Some(position)
  {
    r := Partition.FindFirst(t.columns, ColumnPosition, Some(position));
  }

  /** `Table.get_constraint(name)`: the first constraint of that name. */
  method GetConstraint(t: Table, name: string) returns (r: Option<Constraint>)
    ensures r == Partition.Lookup(t.constraints, ConstraintName, name)
    ensures r.None? <==> forall j :: 0 <= j < |t.constraints| ==> t.constraints[j].name != name
    ensures r.Some? ==> r.value in t.constraints && r.value.name == name
  {
    r := Partition.FindFirst(t.constraints, ConstraintName, name);
  }

  /** `Table.get_index(name)`: the first index of that name. */
  method GetIndex(t: Table, name: string) returns (r: Option<Index>)
    ensures r == Partition.Lookup(t.indexes, IndexName, name)
    ensures r.None? <==> forall j :: 0 <= j < |t.indexes| ==> t.indexes[j].name != name
    ensures r.Some? ==> r.value in t.indexes && r.value.name == name
  {
    r := Partition.FindFirst(t.indexes, IndexName, name);
  }

  /** `Index.get_column(name)`: the first column descriptor whose `'name'` entry is `name`. */
  method IndexGetColumn(i: Index, name: string) returns (r: Option<IndexColumn>)
    ensures r == Partition.Lookup(i.columns, IndexColumnName, name)
    ensures r.None? <==> forall j :: 0 <= j < |i.columns| ==> i.columns[j].name != name
    ensures r.Some? ==> r.value in i.columns && r.value.name == name
  {
    r := Partition.FindFirst(i.columns, IndexColumnName, name);
  }

  /** `Table.add_index(index)`: the index goes to the end, nothing else changes. */
  function AddIndex(t: Table, i: Index): (r: Table)
    ensures r.indexes == t.indexes + [i]
    ensures r == t.(indexes := r.indexes)
  {
    t.(indexes := t.indexes + [i])
  }

  /**
   * After `add_index`, `get_index` by the new index's name finds it unless an
   * earlier index already had that name, and other names find what they found before.
   */
  lemma AddIndexThenGet(t: Table, i: Index, name: string)
    ensures Partition.Lookup(AddIndex(t, i).indexes, IndexName, name)
         == if Partition.Lookup(t.indexes, IndexName, name).Some? then Partition.Lookup(t.indexes, IndexName, name)
            else if i.name == name then Some(i) else None
  {
    Partition.LookupAppend(t.indexes, i, IndexName, name);
  }

  // ---------------------------------------------------------------- Table diffs

  /**
   * `Table.diff_columns(table, canonicalize)`: every column of `t1` lands in
   * exactly one of same / changed / only-left, matched by exact name against the
   * first column of that name in `t2`; `onlyRight` holds the columns of `t2`
   * whose name no column of `t1` has.
   */
  method DiffColumns(t1: Table, t2: Table, canon: Option<Canonicalizer>) returns (p: Partition.Partition<Column>)
    ensures p == Partition.Spec(t1.columns, t2.columns, ColumnName, ColumnMatch(canon))
    ensures multiset(p.same) + multiset(p.changed) + multiset(p.onlyLeft) == multiset(t1.columns)
    ensures forall c :: c in p.onlyLeft <==> c in t1.columns && Partition.Lookup(t2.columns, ColumnName, c.name).None?
    ensures forall c :: c in p.same <==> (c in t1.columns && Partition.Lookup(t2.columns, ColumnName, c.name).Some?
                                      && ColumnSame(canon, c, Partition.Lookup(t2.columns, ColumnName, c.name).value))
    ensures forall c :: c in p.onlyRight <==> c in t2.columns && forall j :: 0 <= j < |t1.columns| ==> t1.columns[j].name != c.name
  {
    p := Partition.DiffByName(t1.columns, t2.columns, ColumnName, ColumnMatch(canon));
    Partition.SelectCovers(t1.columns, t2.columns, ColumnName, ColumnMatch(canon));
    forall c ensures (c in p.onlyLeft <==> c in t1.columns && Partition.Lookup(t2.columns, ColumnName, c.name).None?)
                  && (c in p.same <==> (c in t1.columns && Partition.Lookup(t2.columns, ColumnName, c.name).Some?
                                      && ColumnSame(canon, c, Partition.Lookup(t2.columns, ColumnName, c.name).value)))
                  && (c in p.onlyRight <==> c in t2.columns && forall j :: 0 <= j < |t1.columns| ==> t1.columns[j].name != c.name)
    {
      Partition.SelectMember(t1.columns, t2.columns, ColumnName, ColumnMatch(canon), Partition.OnlyLeft, c);
      Partition.SelectMember(t1.columns, t2.columns, ColumnName, ColumnMatch(canon), Partition.Same, c);
      Partition.OnlyRightMember(t1.columns, t2.columns, ColumnName, ColumnMatch(canon), c);
    }
  }

  /** `Table.diff_indexes(table, canonicalize)`: the same partition over indexes. */
  method DiffIndexes(t1: Table, t2: Table, canon: Option<Canonicalizer>) returns (p: Partition.Partition<Index>)
    ensures p == Partition.Spec(t1.indexes, t2.indexes, IndexName, IndexMatch(canon))
    ensures multiset(p.same) + multiset(p.changed) + multiset(p.onlyLeft) == multiset(t1.indexes)
    ensures forall i :: i in p.onlyLeft <==> i in t1.indexes && Partition.Lookup(t2.indexes, IndexName, i.name).None?
    ensures forall i :: i in p.same <==> (i in t1.indexes && Partition.Lookup(t2.indexes, IndexName, i.name).Some?
                                      && IndexSame(canon, i, Partition.Lookup(t2.indexes, IndexName, i.name).value))
    ensures forall i :: i in p.onlyRight <==> i in t2.indexes && forall j :: 0 <= j < |t1.indexes| ==> t1.indexes[j].name != i.name
  {
    p := Partition.DiffByName(t1.indexes, t2.indexes, IndexName, IndexMatch(canon));
    Partition.SelectCovers(t1.indexes, t2.indexes, IndexName, IndexMatch(canon));
    forall i ensures (i in p.onlyLeft <==> i in t1.indexes && Partition.Lookup(t2.indexes, IndexName, i.name).None?)
                  && (i in p.same <==> (i in t1.indexes && Partition.Lookup(t2.indexes, IndexName, i.name).Some?
                                      && IndexSame(canon, i, Partition.Lookup(t2.indexes, IndexName, i.name).value)))
                  && (i in p.onlyRight <==> i in t2.indexes && forall j :: 0 <= j < |t1.indexes| ==> t1.indexes[j].name != i.name)
    {
      Partition.SelectMember(t1.indexes, t2.indexes, IndexName, IndexMatch(canon), Partition.OnlyLeft, i);
      Partition.SelectMember(t1.indexes, t2.indexes, IndexName, IndexMatch(canon), Partition.Same, i);
      Partition.OnlyRightMember(t1.indexes, t2.indexes, IndexName, IndexMatch(canon), i);
    }
  }

  /**
   * `Table.diff_constraints(table, canonicalize)` with the still-unequal
   * canonicalized branch recording the constraint as changed (the evidently
   * intended `notsame.append(con)`).
   */
  method DiffConstraints(t1: Table, t2: Table, canon: Option<Canonicalizer>) returns (p: Partition.Partition<Constraint>)
    ensures p == Partition.Spec(t1.constraints, t2.constraints, ConstraintName, ConstraintMatch(canon))
    ensures multiset(p.same) + multiset(p.changed) + multiset(p.onlyLeft) == multiset(t1.constraints)
    ensures forall c :: c in p.changed <==> (c in t1.constraints && Partition.Lookup(t2.constraints, ConstraintName, c.name).Some?
                                         && !ConstraintSame(canon, c, Partition.Lookup(t2.constraints, ConstraintName, c.name).value))
    ensures forall c :: c in p.onlyRight <==> c in t2.constraints && forall j :: 0 <= j < |t1.constraints| ==> t1.constraints[j].name != c.name
  {
    p := Partition.DiffByName(t1.constraints, t2.constraints, ConstraintName, ConstraintMatch(canon));
    Partition.SelectCovers(t1.constraints, t2.constraints, ConstraintName, ConstraintMatch(canon));
    forall c ensures (c in p.changed <==> (c in t1.constraints && Partition.Lookup(t2.constraints, ConstraintName, c.name).Some?
                                         && !ConstraintSame(canon, c, Partition.Lookup(t2.constraints, ConstraintName, c.name).value)))
                  && (c in p.onlyRight <==> c in t2.constraints && forall j :: 0 <= j < |t1.constraints| ==> t1.constraints[j].name != c.name)
    {
      Partition.SelectMember(t1.constraints, t2.constraints, ConstraintName, ConstraintMatch(canon), Partition.Changed, c);
      Partition.OnlyRightMember(t1.constraints, t2.constraints, ConstraintName, ConstraintMatch(canon), c);
    }
  }

  /**
   * The branch of `diff_constraints` as written that calls the list `notsame`
   * instead of appending to it: a name-matched constraint that is unequal even
   * after canonicalization.
   */
  predicate HitsNotSameCall(canon: Option<Canonicalizer>, c: Constraint, right: seq<Constraint>) {
    var m := Partition.Lookup(right, ConstraintName, c.name);
    canon.Some? && m.Some? && !ConstraintSame(canon, c, m.value)
  }

  /**
   * `diff_constraints` exactly as written: the loop raises `TypeError` at the
   * first constraint that reaches `notsame(con)`, and otherwise returns the
   * same partition as the corrected version.
   */
  method DiffConstraintsAsWritten(t1: Table, t2: Table, canon: Option<Canonicalizer>)
    returns (r: Result<Partition.Partition<Constraint>>)
    ensures r.Err? <==> exists c :: c in t1.constraints && HitsNotSameCall(canon, c, t2.constraints)
    ensures r.Err? ==> r.error == TypeError("'list' object is not callable")
    ensures r.Ok? ==> r.value == Partition.Spec(t1.constraints, t2.constraints, ConstraintName, ConstraintMatch(canon))
  {
    var i := 0;
    while i < |t1.constraints|
      invariant 0 <= i <= |t1.constraints|
      invariant forall j :: 0 <= j < i ==> !HitsNotSameCall(canon, t1.constraints[j], t2.constraints)
    {
      var con := t1.constraints[i];
      var tab2con := Partition.FindFirst(t2.constraints, ConstraintName, con.name);
      if tab2con.Some? && !ConstraintEq(con, tab2con.value) && canon.Some?
         && !ConstraintEq(CopyConstraint(con, canon), CopyConstraint(tab2con.value, canon)) {
        assert HitsNotSameCall(canon, con, t2.constraints);
        return Err(TypeError("'list' object is not callable"));
      }
      i := i + 1;
    }
    var p := DiffConstraints(t1, t2, canon);
    r := Ok(p);
  }

  /**
   * The input that shows the defect: two like-named foreign keys whose columns
   * differ. With a canonicalizer the code as written raises, where the intended
   * diff reports the constraint as changed.
   */
  lemma NotSameCallRaises(canon: Canonicalizer)
    ensures var c1 := Constraint(MySql, "fk", None, "FOREIGN KEY", Some("orders"), ["a"], None, Some("t"), Some(["id"]), None);
            var c2 := c1.(columns := ["b"]);
            && HitsNotSameCall(Some(canon), c1, [c2])
            && Partition.Spec([c1], [c2], ConstraintName, ConstraintMatch(Some(canon))) == Partition.Partition([], [c1], [], [])
  {
    var c1 := Constraint(MySql, "fk", None, "FOREIGN KEY", Some("orders"), ["a"], None, Some("t"), Some(["id"]), None);
    var c2 := c1.(columns := ["b"]);
    var m := ConstraintMatch(Some(canon));
    assert Partition.FirstIndex([c2], ConstraintName, "fk") == 0;
    assert Partition.FirstIndex([c1], ConstraintName, "fk") == 0;
    assert Partition.Lookup([c2], ConstraintName, "fk") == Some(c2);
    assert Partition.Lookup([c1], ConstraintName, "fk") == Some(c1);
    assert CopyConstraint(c1, Some(canon)).columns != CopyConstraint(c2, Some(canon)).columns;
    assert !m(c1, c2);
    assert Partition.BucketOf(c1, [c2], ConstraintName, m) == Partition.Changed;
    assert Partition.BucketOf(c2, [c1], ConstraintName, m) != Partition.OnlyLeft;
    assert [c1][..0] == [] && [c2][..0] == [];
    assert Partition.Select([c1], [c2], ConstraintName, m, Partition.Changed) == [c1];
    assert Partition.Select([c1], [c2], ConstraintName, m, Partition.Same) == [];
    assert Partition.Select([c1], [c2], ConstraintName, m, Partition.OnlyLeft) == [];
    assert Partition.Select([c2], [c1], ConstraintName, m, Partition.OnlyLeft) == [];
  }

  /** Without a canonicalizer the code as written never reaches the defective branch. */
  lemma NoCanonNeverRaises(t1: Table, t2: Table)
    ensures forall c :: c in t1.constraints ==> !HitsNotSameCall(None, c, t2.constraints)
  {
  }
}
