/**
 * The data queries both adapters assemble (src/dbdiff/schema/mysql.py and
 * src/dbdiff/schema/postgres.py build them with the same code): a row query
 * with optional filter and order, and a row-count query with an optional filter.
 */
module Queries {
  import opened Wrappers

  const RowsPrefix := "SELECT * FROM "
  const CountPrefix := "SELECT COUNT(*) FROM "

  /** ` WHERE w` when a filter is given, else nothing. */
  function WhereClause(where: Option<string>): string {
    if where.Some? then " WHERE " + where.value else ""
  }

  /** ` ORDER BY o` when an order is given, else nothing. */
  function OrderClause(orderby: Option<string>): string {
    if orderby.Some? then " ORDER BY " + orderby.value else ""
  }

  /** `fetch_table_rows(tablename, where, orderby)`: the query it executes. */
  function RowsQuery(tablename: string, where: Option<string>, orderby: Option<string>): (q: string)
    ensures |q| >= |RowsPrefix| + |tablename| && q[..|RowsPrefix| + |tablename|] == RowsPrefix + tablename
    ensures where.None? && orderby.None? ==> q == RowsPrefix + tablename
  {
    var q := RowsPrefix + tablename + WhereClause(where) + OrderClause(orderby);
    assert q == (RowsPrefix + tablename) + (WhereClause(where) + OrderClause(orderby));
    q
  }

  /** `fetch_table_rowcount(tablename, where)`: the query it executes. */
  function CountQuery(tablename: string, where: Option<string>): (q: string)
    ensures |q| >= |CountPrefix| + |tablename| && q[..|CountPrefix| + |tablename|] == CountPrefix + tablename
    ensures where.None? ==> q == CountPrefix + tablename
  {
    var q := CountPrefix + tablename + WhereClause(where);
    assert q == (CountPrefix + tablename) + WhereClause(where);
    q
  }

  /** An order only ever adds ` ORDER BY o` at the very end of the unordered query. */
  lemma OrderComesLast(tablename: string, where: Option<string>, o: string)
    ensures RowsQuery(tablename, where, Some(o)) == RowsQuery(tablename, where, None) + " ORDER BY " + o
  {
  }

  /** Without an order, the row query and the count query differ only in what they select. */
  lemma CountMatchesRows(tablename: string, where: Option<string>)
    ensures RowsQuery(tablename, where, None)[|RowsPrefix|..] == CountQuery(tablename, where)[|CountPrefix|..]
  {
    var tail := tablename + WhereClause(where);
    assert RowsQuery(tablename, where, None) == RowsPrefix + tail;
    assert CountQuery(tablename, where) == CountPrefix + tail;
  }

  /** A filter shows up in the query exactly as given, right after the table name. */
  lemma WhereFollowsTable(tablename: string, w: string, orderby: Option<string>)
    ensures var q := RowsQuery(tablename, Some(w), orderby);
            var start := |RowsPrefix| + |tablename|;
            |q| >= start + 7 + |w| && q[start..start + 7 + |w|] == " WHERE " + w
  {
    var q := RowsQuery(tablename, Some(w), orderby);
    assert q == (RowsPrefix + tablename) + (" WHERE " + w) + OrderClause(orderby);
  }
}
