/**
 * The older row diff (datacompare/tablediff.py): one table name looked up in
 * both databases, key column lists compared without canonicalization, and the
 * same row key and hash join as the newer one.
 */
module LegacyTableDiff {
  import opened Wrappers
  import LegacySchema
  import Schema
  import TableDiff
  import Partition

  function Names(pk: seq<LegacySchema.Column>): (r: seq<string>)
    ensures |r| == |pk| && forall i :: 0 <= i < |pk| ==> r[i] == pk[i].name
  {
    Partition.MapSeq(pk, LegacySchema.ColumnName)
  }

  /**
   * `prep_diff(tablename)` up to the fetch, given what the two databases'
   * `get_table` returned for the one name: both tables must exist and their key
   * column lists must be equal. The result is db1's key column list.
   */
  function PrepDiff(name: string, t1: Option<LegacySchema.Table>, t2: Option<LegacySchema.Table>)
    : (r: Result<seq<LegacySchema.Column>>)
    ensures t1.None? ==> r == Err(ValueError("db1: table not found " + name))
    ensures t1.Some? && t2.None? ==> r == Err(ValueError("db2: table not found " + name))
    ensures t1.Some? && t2.Some? ==>
              var pk1, pk2 := LegacySchema.PrimaryKeyColumns(t1.value.columns), LegacySchema.PrimaryKeyColumns(t2.value.columns);
              && (r.Ok? <==> pk1 == pk2)
              && (r.Ok? ==> r.value == pk1)
              && (r.Err? ==> r.error == ValueError("primary key column lists not equal"))
  {
    if t1.None? then Err(ValueError("db1: table not found " + name))
    else if t2.None? then Err(ValueError("db2: table not found " + name))
    else
      var pk1, pk2 := LegacySchema.PrimaryKeyColumns(t1.value.columns), LegacySchema.PrimaryKeyColumns(t2.value.columns);
      if pk1 == pk2 then Ok(pk1) else Err(ValueError("primary key column lists not equal"))
  }

  /**
   * `TableDiff.diff_rows(tablename)`: the checks of `prep_diff`, then the loops
   * of the newer `diff_rows`, which are the same code, on db1's key columns.
   */
  method DiffTableRows(name: string, t1: Option<LegacySchema.Table>, t2: Option<LegacySchema.Table>,
                       rows1: seq<TableDiff.Row>, rows2: seq<TableDiff.Row>) returns (r: Result<TableDiff.RowDiff>)
    ensures PrepDiff(name, t1, t2).Err? ==> r == Err(PrepDiff(name, t1, t2).error)
    ensures PrepDiff(name, t1, t2).Ok? ==> r == TableDiff.RowDiffOf(rows1, rows2, Names(PrepDiff(name, t1, t2).value))
  {
    var prep := PrepDiff(name, t1, t2);
    if prep.Err? {
      return Err(prep.error);
    }
    var pk := Partition.MapSeq(prep.value, LegacySchema.Lift);
    assert TableDiff.Names(pk) == Names(prep.value);
    r := TableDiff.DiffRows(rows1, rows2, pk);
  }

  function FromTableOpt(t: Option<Schema.Table>): Option<LegacySchema.Table> {
    if t.Some? then Some(LegacySchema.FromTable(t.value)) else None
  }

  /** Projected column lists are equal exactly when the lists are equal column by column. */
  lemma ProjectedEqual(a: seq<Schema.Column>, b: seq<Schema.Column>)
    ensures Partition.MapSeq(a, LegacySchema.FromColumn) == Partition.MapSeq(b, LegacySchema.FromColumn)
        <==> TableDiff.ColumnsEq(a, b)
  {
    var fa, fb := Partition.MapSeq(a, LegacySchema.FromColumn), Partition.MapSeq(b, LegacySchema.FromColumn);
    if TableDiff.ColumnsEq(a, b) {
      forall i | 0 <= i < |a| ensures fa[i] == fb[i] {
        LegacySchema.ColumnEqAgrees(a[i], b[i]);
        LegacySchema.ColumnEqIsIdentity(fa[i], fb[i]);
      }
    }
    if fa == fb {
      forall i | 0 <= i < |a| ensures Schema.ColumnEq(a[i], b[i]) {
        assert fa[i] == fb[i];
        LegacySchema.ColumnEqAgrees(a[i], b[i]);
      }
    }
  }

  /**
   * The older `prep_diff` is the newer one for one table name and no
   * canonicalizer: the same errors, and the projected key columns.
   */
  lemma PrepDiffAgrees(name: string, t1: Option<Schema.Table>, t2: Option<Schema.Table>)
    ensures var older := PrepDiff(name, FromTableOpt(t1), FromTableOpt(t2));
            var newer := TableDiff.PrepDiff(name, name, t1, t2, None);
            && (older.Ok? <==> newer.Ok?)
            && (older.Err? ==> older.error == newer.error)
            && (older.Ok? ==> older.value == Partition.MapSeq(newer.value, LegacySchema.FromColumn))
  {
    if t1.Some? && t2.Some? {
      var c1, c2 := t1.value.columns, t2.value.columns;
      LegacySchema.PrimaryKeyColumnsAgree(c1);
      LegacySchema.PrimaryKeyColumnsAgree(c2);
      ProjectedEqual(Schema.PrimaryKeyColumns(c1), Schema.PrimaryKeyColumns(c2));
    }
  }
}
