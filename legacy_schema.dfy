/**
 * The older entity model (schema/__init__.py): the same columns, indexes,
 * constraints and tables without schema fields, compared field by field, and
 * the three table-level diffs without a canonicalization hook. Every entity
 * here is the projection of the newer one that forgets its schema fields, and
 * the lemmas at the end say where the two models agree and where they do not.
 */
module LegacySchema {
  import opened Wrappers
  import Schema
  import Partition

  // ---------------------------------------------------------------- Column

  /** `Column`: the eight attributes of the older constructor; there is no `schema`. */
  datatype Column = Column(
    kind: Schema.Kind,
    name: string,
    typeName: string,
    tableName: string,
    nullable: bool,
    primaryKey: bool,
    defaultValue: Schema.Value,
    constraints: Schema.Value,
    position: Option<int>)

  function ColumnName(c: Column): string { c.name }

  /** `Column.__eq__`: same class and all eight attributes. */
  predicate ColumnEq(a: Column, b: Column) {
    && a.kind == b.kind
    && a.name == b.name
    && a.typeName == b.typeName
    && a.nullable == b.nullable
    && a.primaryKey == b.primaryKey
    && a.defaultValue == b.defaultValue
    && a.constraints == b.constraints
    && a.position == b.position
    && a.tableName == b.tableName
  }

  /** Column equality here is plain identity: the older column has no attribute it leaves out. */
  lemma ColumnEqIsIdentity(a: Column, b: Column)
    ensures ColumnEq(a, b) <==> a == b
  {
  }

  function ColumnMatch(): (Column, Column) -> bool {
    (a: Column, b: Column) => ColumnEq(a, b)
  }

  /** The older column seen as a newer one without a schema. */
  function Lift(c: Column): (r: Schema.Column)
    ensures r.schema.None? && r.name == c.name && r.tableName == c.tableName
  {
    Schema.Column(c.kind, c.name, c.typeName, c.tableName, None, c.nullable, c.primaryKey,
                  c.defaultValue, c.constraints, c.position)
  }

  /** The attribute names of the older column, in the order its constructor assigns them. */
  const Fields: seq<string> :=
    ["name", "type", "nullable", "primaryKey", "defaultValue", "constraints", "position", "tableName"]

  /** The newer attribute list is this one plus `schema`. */
  lemma FieldsExtend()
    ensures Schema.ColumnFields == Fields + ["schema"]
  {
  }

  /**
   * `Column.diff`: a `TypeError` for a column of another class, `(False, None, None)`
   * for equal columns, and otherwise the two maps holding exactly the attributes
   * whose values differ, each with its own side's value.
   */
  method Diff(a: Column, b: Column) returns (r: Result<Schema.FieldDiff>)
    ensures a.kind != b.kind ==> r == Err(TypeError(Schema.ColumnClassName(b.kind)))
    ensures a.kind == b.kind && ColumnEq(a, b) ==> r == Ok(Schema.FieldDiff(false, None, None))
    ensures a.kind == b.kind && !ColumnEq(a, b) ==>
              r == Ok(Schema.FieldDiff(true, Some(Schema.DiffMap(Lift(a), Lift(b), Fields)),
                                             Some(Schema.DiffMap(Lift(b), Lift(a), Fields))))
    ensures r.Ok? && r.value.differs ==>
              forall f :: (f in r.value.left.value <==> f in Fields && Schema.ColumnField(Lift(a), f) != Schema.ColumnField(Lift(b), f))
                       && (f in r.value.right.value <==> f in Fields && Schema.ColumnField(Lift(a), f) != Schema.ColumnField(Lift(b), f))
  {
    if a.kind != b.kind {
      return Err(TypeError(Schema.ColumnClassName(b.kind)));
    }
    if ColumnEq(a, b) {
      return Ok(Schema.FieldDiff(false, None, None));
    }
    var diff1: map<string, Schema.Value> := map[];
    var diff2: map<string, Schema.Value> := map[];
    var i := 0;
    while i < |Fields|
      invariant 0 <= i <= |Fields|
      invariant diff1 == Schema.DiffMap(Lift(a), Lift(b), Fields[..i])
      invariant diff2 == Schema.DiffMap(Lift(b), Lift(a), Fields[..i])
    {
      var key := Fields[i];
      var val1 := Schema.ColumnField(Lift(a), key);
      var val2 := Schema.ColumnField(Lift(b), key);
      if val1 != val2 {
        diff1 := diff1[key := val1];
        diff2 := diff2[key := val2];
      }
      assert Fields[..i + 1][..i] == Fields[..i];
      i := i + 1;
    }
    assert Fields[..i] == Fields;
    forall f ensures (f in diff1 <==> f in Fields && Schema.ColumnField(Lift(a), f) != Schema.ColumnField(Lift(b), f))
                  && (f in diff2 <==> f in Fields && Schema.ColumnField(Lift(a), f) != Schema.ColumnField(Lift(b), f))
    {
      Schema.DiffMapMember(Lift(a), Lift(b), Fields, f);
      Schema.DiffMapMember(Lift(b), Lift(a), Fields, f);
    }
    r := Ok(Schema.FieldDiff(true, Some(diff1), Some(diff2)));
  }

  /** Two unequal columns of one class differ in at least one reported attribute. */
  lemma DiffNotEmpty(a: Column, b: Column)
    requires a.kind == b.kind && !ColumnEq(a, b)
    ensures Schema.DiffMap(Lift(a), Lift(b), Fields) != map[]
  {
    var f :=
      if a.name != b.name then "name"
      else if a.typeName != b.typeName then "type"
      else if a.nullable != b.nullable then "nullable"
      else if a.primaryKey != b.primaryKey then "primaryKey"
      else if a.defaultValue != b.defaultValue then "defaultValue"
      else if a.constraints != b.constraints then "constraints"
      else if a.position != b.position then "position"
      else "tableName";
    assert Schema.ColumnField(Lift(a), f) != Schema.ColumnField(Lift(b), f);
    Schema.DiffMapMember(Lift(a), Lift(b), Fields, f);
  }

  // ---------------------------------------------------------------- Index

  /** `Index`: name, table name, descriptors and uniqueness; there is no `schema`. */
  datatype Index = Index(kind: Schema.Kind, name: string, tableName: string, unique: bool, columns: seq<Schema.IndexColumn>)

  function IndexName(i: Index): string { i.name }

  /** `Index.__eq__`: same class, name, table name, uniqueness and descriptors. */
  predicate IndexEq(a: Index, b: Index) {
    a.kind == b.kind && a.name == b.name && a.tableName == b.tableName && a.unique == b.unique && a.columns == b.columns
  }

  function IndexMatch(): (Index, Index) -> bool {
    (a: Index, b: Index) => IndexEq(a, b)
  }

  // ---------------------------------------------------------------- Constraint

  /** `Constraint`: six attributes; no schema, reference schema or check clause. */
  datatype Constraint = Constraint(
    kind: Schema.Kind,
    name: string,
    constraintType: string,
    table: Option<string>,
    columns: seq<string>,
    referenceTable: Option<string>,
    referenceColumns: Option<seq<string>>)

  function ConstraintName(c: Constraint): string { c.name }

  /** `Constraint.__eq__`: same class and all six attributes. */
  predicate ConstraintEq(a: Constraint, b: Constraint) {
    && a.kind == b.kind
    && a.name == b.name
    && a.constraintType == b.constraintType
    && a.table == b.table
    && a.columns == b.columns
    && a.referenceTable == b.referenceTable
    && a.referenceColumns == b.referenceColumns
  }

  function ConstraintMatch(): (Constraint, Constraint) -> bool {
    (a: Constraint, b: Constraint) => ConstraintEq(a, b)
  }

  // ---------------------------------------------------------------- Table

  /** `Table`: the older constructor accepts a schema argument but stores nothing of it. */
  datatype Table = Table(
    name: string,
    columns: seq<Column>,
    constraints: seq<Constraint>,
    indexes: seq<Index>,
    rows: Schema.Value,
    dataLength: Schema.Value,
    indexLength: Schema.Value,
    autoIncrement: Schema.Value,
    tableCollation: Schema.Value)

  /** `Table(name, schema, rows)`: the schema argument is dropped. */
  function NewTable(name: string, schema: Option<string>, rows: Schema.Value): (t: Table)
    ensures t.name == name && t.rows == rows
    ensures t.columns == [] && t.constraints == [] && t.indexes == []
  {
    Table(name, [], [], [], rows, Schema.VInt(0), Schema.VInt(0), Schema.VNull, Schema.VNull)
  }

  /** `get_primary_key_columns()`: the key columns, in column order. */
  function PrimaryKeyColumns(cols: seq<Column>): (r: seq<Column>)
    ensures forall c :: c in r <==> c in cols && c.primaryKey
    ensures |r| <= |cols|
    decreases |cols|
  {
    if cols == [] then []
    else
      var init := PrimaryKeyColumns(cols[..|cols| - 1]);
      assert cols == cols[..|cols| - 1] + [cols[|cols| - 1]];
      if cols[|cols| - 1].primaryKey then init + [cols[|cols| - 1]] else init
  }

  /**
   * `Table.diff_columns(table)`: every column of `t1` lands in exactly one of
   * same / changed / only-left by exact name, and `onlyRight` holds the columns
   * of `t2` whose name no column of `t1` has.
   */
  method DiffColumns(t1: Table, t2: Table) returns (p: Partition.Partition<Column>)
    ensures p == Partition.Spec(t1.columns, t2.columns, ColumnName, ColumnMatch())
    ensures multiset(p.same) + multiset(p.changed) + multiset(p.onlyLeft) == multiset(t1.columns)
    ensures forall c :: c in p.onlyLeft <==> c in t1.columns && Partition.Lookup(t2.columns, ColumnName, c.name).None?
    ensures forall c :: c in p.same <==> c in t1.columns && Partition.Lookup(t2.columns, ColumnName, c.name) == Some(c)
    ensures forall c :: c in p.onlyRight <==> c in t2.columns && forall j :: 0 <= j < |t1.columns| ==> t1.columns[j].name != c.name
  {
    p := Partition.DiffByName(t1.columns, t2.columns, ColumnName, ColumnMatch());
    Partition.SelectCovers(t1.columns, t2.columns, ColumnName, ColumnMatch());
    forall c ensures (c in p.onlyLeft <==> c in t1.columns && Partition.Lookup(t2.columns, ColumnName, c.name).None?)
                  && (c in p.same <==> c in t1.columns && Partition.Lookup(t2.columns, ColumnName, c.name) == Some(c))
                  && (c in p.onlyRight <==> c in t2.columns && forall j :: 0 <= j < |t1.columns| ==> t1.columns[j].name != c.name)
    {
      Partition.SelectMember(t1.columns, t2.columns, ColumnName, ColumnMatch(), Partition.OnlyLeft, c);
      Partition.SelectMember(t1.columns, t2.columns, ColumnName, ColumnMatch(), Partition.Same, c);
      Partition.OnlyRightMember(t1.columns, t2.columns, ColumnName, ColumnMatch(), c);
    }
  }

  /** `Table.diff_indexes(table)`: the same partition over indexes. */
  method DiffIndexes(t1: Table, t2: Table) returns (p: Partition.Partition<Index>)
    ensures p == Partition.Spec(t1.indexes, t2.indexes, IndexName, IndexMatch())
    ensures multiset(p.same) + multiset(p.changed) + multiset(p.onlyLeft) == multiset(t1.indexes)
    ensures forall i :: i in p.onlyLeft <==> i in t1.indexes && Partition.Lookup(t2.indexes, IndexName, i.name).None?
    ensures forall i :: i in p.onlyRight <==> i in t2.indexes && forall j :: 0 <= j < |t1.indexes| ==> t1.indexes[j].name != i.name
  {
    p := Partition.DiffByName(t1.indexes, t2.indexes, IndexName, IndexMatch());
    Partition.SelectCovers(t1.indexes, t2.indexes, IndexName, IndexMatch());
    forall i ensures (i in p.onlyLeft <==> i in t1.indexes && Partition.Lookup(t2.indexes, IndexName, i.name).None?)
                  && (i in p.onlyRight <==> i in t2.indexes && forall j :: 0 <= j < |t1.indexes| ==> t1.indexes[j].name != i.name)
    {
      Partition.SelectMember(t1.indexes, t2.indexes, IndexName, IndexMatch(), Partition.OnlyLeft, i);
      Partition.OnlyRightMember(t1.indexes, t2.indexes, IndexName, IndexMatch(), i);
    }
  }

  /** `Table.diff_constraints(table)`: the same partition over constraints. */
  method DiffConstraints(t1: Table, t2: Table) returns (p: Partition.Partition<Constraint>)
    ensures p == Partition.Spec(t1.constraints, t2.constraints, ConstraintName, ConstraintMatch())
    ensures multiset(p.same) + multiset(p.changed) + multiset(p.onlyLeft) == multiset(t1.constraints)
    ensures forall c :: c in p.changed <==> (c in t1.constraints && Partition.Lookup(t2.constraints, ConstraintName, c.name).Some?
                                         && !ConstraintEq(c, Partition.Lookup(t2.constraints, ConstraintName, c.name).value))
    ensures forall c :: c in p.onlyRight <==> c in t2.constraints && forall j :: 0 <= j < |t1.constraints| ==> t1.constraints[j].name != c.name
  {
    p := Partition.DiffByName(t1.constraints, t2.constraints, ConstraintName, ConstraintMatch());
    Partition.SelectCovers(t1.constraints, t2.constraints, ConstraintName, ConstraintMatch());
    forall c ensures (c in p.changed <==> (c in t1.constraints && Partition.Lookup(t2.constraints, ConstraintName, c.name).Some?
                                         && !ConstraintEq(c, Partition.Lookup(t2.constraints, ConstraintName, c.name).value)))
                  && (c in p.onlyRight <==> c in t2.constraints && forall j :: 0 <= j < |t1.constraints| ==> t1.constraints[j].name != c.name)
    {
      Partition.SelectMember(t1.constraints, t2.constraints, ConstraintName, ConstraintMatch(), Partition.Changed, c);
      Partition.OnlyRightMember(t1.constraints, t2.constraints, ConstraintName, ConstraintMatch(), c);
    }
  }

  // ---------------------------------------------------------------- Agreement with the newer model

  /** A newer column without its schema. */
  function FromColumn(c: Schema.Column): (r: Column)
    ensures Lift(r) == c.(schema := None)
  {
    Column(c.kind, c.name, c.typeName, c.tableName, c.nullable, c.primaryKey, c.defaultValue, c.constraints, c.position)
  }

  function FromIndex(i: Schema.Index): Index {
    Index(i.kind, i.name, i.tableName, i.unique, i.columns)
  }

  /** A newer constraint without its schema, reference schema and check clause. */
  function FromConstraint(c: Schema.Constraint): Constraint {
    Constraint(c.kind, c.name, c.constraintType, c.table, c.columns, c.referenceTable, c.referenceColumns)
  }

  /** A newer table without its schema, its entities projected. */
  function FromTable(t: Schema.Table): (r: Table)
    ensures r.name == t.name && r.columns == Partition.MapSeq(t.columns, FromColumn)
  {
    Table(t.name, Partition.MapSeq(t.columns, FromColumn), Partition.MapSeq(t.constraints, FromConstraint),
          Partition.MapSeq(t.indexes, FromIndex), t.rows, t.dataLength, t.indexLength, t.autoIncrement, t.tableCollation)
  }

  /** Column equality is the same relation in both models. */
  lemma ColumnEqAgrees(a: Schema.Column, b: Schema.Column)
    ensures ColumnEq(FromColumn(a), FromColumn(b)) <==> Schema.ColumnEq(a, b)
  {
  }

  /** Index equality is the same relation in both models. */
  lemma IndexEqAgrees(a: Schema.Index, b: Schema.Index)
    ensures IndexEq(FromIndex(a), FromIndex(b)) <==> Schema.IndexEq(a, b)
  {
  }

  /**
   * Constraint equality of the newer model implies that of the older one, and
   * the two agree on constraints whose schema fields agree.
   */
  lemma ConstraintEqWeaker(a: Schema.Constraint, b: Schema.Constraint)
    ensures Schema.ConstraintEq(a, b) ==> ConstraintEq(FromConstraint(a), FromConstraint(b))
    ensures a.schema == b.schema && a.referenceSchema == b.referenceSchema ==>
              (ConstraintEq(FromConstraint(a), FromConstraint(b)) <==> Schema.ConstraintEq(a, b))
  {
  }

  /** The converse fails: two constraints in different schemas are equal only in the older model. */
  lemma ConstraintEqConverseFails()
    ensures var a := Schema.Constraint(Schema.MySql, "pk", Some("s1"), "PRIMARY KEY", Some("t"), ["id"], None, None, None, None);
            var b := a.(schema := Some("s2"));
            ConstraintEq(FromConstraint(a), FromConstraint(b)) && !Schema.ConstraintEq(a, b)
  {
  }

  /** The older `diff_columns` is the newer one without a canonicalizer, columns projected. */
  lemma DiffColumnsAgree(c1: seq<Schema.Column>, c2: seq<Schema.Column>)
    ensures var p := Partition.Spec(c1, c2, Schema.ColumnName, Schema.ColumnMatch(None));
            Partition.Spec(Partition.MapSeq(c1, FromColumn), Partition.MapSeq(c2, FromColumn), ColumnName, ColumnMatch())
              == Partition.Partition(Partition.MapSeq(p.same, FromColumn), Partition.MapSeq(p.changed, FromColumn),
                                     Partition.MapSeq(p.onlyLeft, FromColumn), Partition.MapSeq(p.onlyRight, FromColumn))
  {
    Partition.SpecMap(c1, c2, Schema.ColumnName, Schema.ColumnMatch(None), FromColumn, ColumnName, ColumnMatch());
  }

  /** The older `diff_indexes` is the newer one without a canonicalizer, indexes projected. */
  lemma DiffIndexesAgree(i1: seq<Schema.Index>, i2: seq<Schema.Index>)
    ensures var p := Partition.Spec(i1, i2, Schema.IndexName, Schema.IndexMatch(None));
            Partition.Spec(Partition.MapSeq(i1, FromIndex), Partition.MapSeq(i2, FromIndex), IndexName, IndexMatch())
              == Partition.Partition(Partition.MapSeq(p.same, FromIndex), Partition.MapSeq(p.changed, FromIndex),
                                     Partition.MapSeq(p.onlyLeft, FromIndex), Partition.MapSeq(p.onlyRight, FromIndex))
  {
    Partition.SpecMap(i1, i2, Schema.IndexName, Schema.IndexMatch(None), FromIndex, IndexName, IndexMatch());
  }

  /**
   * The older `diff_constraints` is the newer one without a canonicalizer when
   * no constraint carries a schema or a reference schema.
   */
  lemma DiffConstraintsAgree(k1: seq<Schema.Constraint>, k2: seq<Schema.Constraint>)
    requires forall c :: c in k1 + k2 ==> c.schema.None? && c.referenceSchema.None?
    ensures var p := Partition.Spec(k1, k2, Schema.ConstraintName, Schema.ConstraintMatch(None));
            Partition.Spec(Partition.MapSeq(k1, FromConstraint), Partition.MapSeq(k2, FromConstraint), ConstraintName, ConstraintMatch())
              == Partition.Partition(Partition.MapSeq(p.same, FromConstraint), Partition.MapSeq(p.changed, FromConstraint),
                                     Partition.MapSeq(p.onlyLeft, FromConstraint), Partition.MapSeq(p.onlyRight, FromConstraint))
  {
    forall x, y | (x in k1 && y in k2) || (x in k2 && y in k1)
      ensures ConstraintMatch()(FromConstraint(x), FromConstraint(y)) == Schema.ConstraintMatch(None)(x, y)
    {
      assert x in k1 + k2 && y in k1 + k2;
    }
    Partition.SpecMap(k1, k2, Schema.ConstraintName, Schema.ConstraintMatch(None), FromConstraint, ConstraintName, ConstraintMatch());
  }

  /** The key columns of projected columns are the projected key columns. */
  lemma {:induction false} PrimaryKeyColumnsAgree(cols: seq<Schema.Column>)
    ensures PrimaryKeyColumns(Partition.MapSeq(cols, FromColumn)) == Partition.MapSeq(Schema.PrimaryKeyColumns(cols), FromColumn)
    decreases |cols|
  {
    if cols != [] {
      var init := cols[..|cols| - 1];
      PrimaryKeyColumnsAgree(init);
      assert Partition.MapSeq(cols, FromColumn)[..|cols| - 1] == Partition.MapSeq(init, FromColumn);
      Partition.MapSeqAppend(Schema.PrimaryKeyColumns(init), [cols[|cols| - 1]], FromColumn);
    }
  }
}
