/**
 * The row diff of one table pair (src/datacompare/tablediff.py): the
 * primary-key row key, the checks made before the rows are fetched, and the
 * hash join that sorts the rows of the first table into same / changed /
 * only-in-1 and leaves the unmatched rows of the second table as only-in-2.
 * The fetched rows are inputs of the model.
 */
module TableDiff {
  import opened Wrappers
  import opened Schema
  import opened OrderedMaps
  import Partition

  /** A fetched row: column name to value. */
  type Row = map<string, Value>

  /** The dictionary key of a row: the key value itself for a one-column key, else the tuple of key values. */
  datatype RowKey = Scalar(value: Value) | Tuple(values: seq<Value>)

  /** The names of the key columns, which is all of them the row key uses. */
  function Names(pk: seq<Column>): (r: seq<string>)
    ensures |r| == |pk| && forall i :: 0 <= i < |pk| ==> r[i] == pk[i].name
  {
    Partition.MapSeq(pk, ColumnName)
  }

  predicate HasColumns(row: Row, names: seq<string>) {
    forall i :: 0 <= i < |names| ==> names[i] in row
  }

  /** `[row[c] for c in names]`, raising `KeyError` at the first name the row lacks. */
  function KeyValues(row: Row, names: seq<string>): (r: Result<seq<Value>>)
    ensures r.Ok? <==> HasColumns(row, names)
    ensures r.Ok? ==> |r.value| == |names| && forall i :: 0 <= i < |names| ==> r.value[i] == row[names[i]]
  {
    if names == [] then Ok([])
    else if names[0] !in row then Err(KeyError(names[0]))
    else
      var rest := KeyValues(row, names[1..]);
      if rest.Err? then Err(rest.error) else Ok([row[names[0]]] + rest.value)
  }

  /** The `KeyError` names the first key column, in key order, that the row lacks. */
  lemma {:induction false} KeyValuesFirstMissing(row: Row, names: seq<string>, i: nat)
    requires i < |names| && names[i] !in row && forall j :: 0 <= j < i ==> names[j] in row
    ensures KeyValues(row, names) == Err(KeyError(names[i]))
  {
    if i > 0 {
      KeyValuesFirstMissing(row, names[1..], i - 1);
    }
  }

  /** `get_row_key(row, pklist)` over the key column names. */
  function RowKeyOf(row: Row, names: seq<string>): (r: Result<RowKey>)
    ensures r.Ok? <==> HasColumns(row, names)
  {
    if |names| == 1 then
      if names[0] in row then Ok(Scalar(row[names[0]])) else Err(KeyError(names[0]))
    else
      match KeyValues(row, names)
      case Ok(vs) => Ok(Tuple(vs))
      case Err(e) => Err(e)
  }

  /**
   * The key of a row with all key columns: the one key value, or the tuple of
   * key values in key order; otherwise the `KeyError` of the first missing column.
   */
  lemma RowKeyValue(row: Row, names: seq<string>)
    ensures |names| == 1 && names[0] in row ==> RowKeyOf(row, names) == Ok(Scalar(row[names[0]]))
    ensures |names| != 1 && HasColumns(row, names) ==>
              RowKeyOf(row, names).value.Tuple? && |RowKeyOf(row, names).value.values| == |names|
              && forall i :: 0 <= i < |names| ==> RowKeyOf(row, names).value.values[i] == row[names[i]]
    ensures forall i :: 0 <= i < |names| && names[i] !in row && (forall j :: 0 <= j < i ==> names[j] in row) ==>
              RowKeyOf(row, names) == Err(KeyError(names[i]))
  {
    forall i | 0 <= i < |names| && names[i] !in row && (forall j :: 0 <= j < i ==> names[j] in row)
      ensures RowKeyOf(row, names) == Err(KeyError(names[i]))
    {
      KeyValuesFirstMissing(row, names, i);
    }
  }

  /** Two rows with all key columns get the same key exactly when they agree on every key column. */
  lemma SameKeyIffSameKeyColumns(r1: Row, r2: Row, names: seq<string>)
    requires HasColumns(r1, names) && HasColumns(r2, names)
    ensures RowKeyOf(r1, names) == RowKeyOf(r2, names) <==> forall i :: 0 <= i < |names| ==> r1[names[i]] == r2[names[i]]
  {
    if |names| != 1 && forall i :: 0 <= i < |names| ==> r1[names[i]] == r2[names[i]] {
      assert KeyValues(r1, names).value == KeyValues(r2, names).value;
    }
  }

  /** A table without key columns gives every row the empty tuple, so all rows share one key. */
  lemma EmptyKey(row: Row)
    ensures RowKeyOf(row, []) == Ok(Tuple([]))
  {
  }

  /**
   * `TableDiff.get_row_key(row, pklist)`: the single key column's value, or the
   * tuple of the key columns' values in key order; a missing column raises `KeyError`.
   */
  method GetRowKey(row: Row, pk: seq<Column>) returns (r: Result<RowKey>)
    ensures r == RowKeyOf(row, Names(pk))
  {
    var names := Names(pk);
    if |pk| == 1 {
      var colname := pk[0].name;
      if colname !in row {
        return Err(KeyError(colname));
      }
      return Ok(Scalar(row[colname]));
    }
    var keylist := [];
    var i := 0;
    while i < |pk|
      invariant 0 <= i <= |pk|
      invariant |keylist| == i && forall j :: 0 <= j < i ==> names[j] in row && keylist[j] == row[names[j]]
    {
      var colname := pk[i].name;
      if colname !in row {
        KeyValuesFirstMissing(row, names, i);
        return Err(KeyError(colname));
      }
      keylist := keylist + [row[colname]];
      i := i + 1;
    }
    assert KeyValues(row, names).value == keylist;
    r := Ok(Tuple(keylist));
  }

  // ---------------------------------------------------------------- prep_diff

  /** Python list equality of two column lists: same length and pairwise `Column.__eq__`. */
  predicate ColumnsEq(a: seq<Column>, b: seq<Column>) {
    |a| == |b| && forall i :: 0 <= i < |a| ==> ColumnEq(a[i], b[i])
  }

  function CopyColumns(cols: seq<Column>, canon: Option<Canonicalizer>): (r: seq<Column>)
    ensures |r| == |cols| && forall i :: 0 <= i < |cols| ==> r[i] == CopyColumn(cols[i], canon)
  {
    seq(|cols|, i requires 0 <= i < |cols| => CopyColumn(cols[i], canon))
  }

  /**
   * `prep_diff(tablename1, tablename2)` up to the fetch, given what the two
   * databases' `get_table` returned: both tables must exist, and their key
   * column lists must be equal, or equal once canonicalized when a hook is
   * given. The result is db1's key column list.
   */
  function PrepDiff(name1: string, name2: string, t1: Option<Table>, t2: Option<Table>, canon: Option<Canonicalizer>)
    : (r: Result<seq<Column>>)
    ensures t1.None? ==> r == Err(ValueError("db1: table not found " + name1))
    ensures t1.Some? && t2.None? ==> r == Err(ValueError("db2: table not found " + name2))
    ensures t1.Some? && t2.Some? ==>
              var pk1, pk2 := PrimaryKeyColumns(t1.value.columns), PrimaryKeyColumns(t2.value.columns);
              && (r.Ok? <==> ColumnsEq(pk1, pk2) || (canon.Some? && ColumnsEq(CopyColumns(pk1, canon), CopyColumns(pk2, canon))))
              && (r.Ok? ==> r.value == pk1)
              && (r.Err? && canon.None? ==> r.error == ValueError("primary key column lists not equal"))
              && (r.Err? && canon.Some? ==> r.error == ValueError("primary key column lists not equal (canonicalized)"))
  {
    if t1.None? then Err(ValueError("db1: table not found " + name1))
    else if t2.None? then Err(ValueError("db2: table not found " + name2))
    else
      var pk1, pk2 := PrimaryKeyColumns(t1.value.columns), PrimaryKeyColumns(t2.value.columns);
      if ColumnsEq(pk1, pk2) then Ok(pk1)
      else if canon.None? then Err(ValueError("primary key column lists not equal"))
      else if ColumnsEq(CopyColumns(pk1, canon), CopyColumns(pk2, canon)) then Ok(pk1)
      else Err(ValueError("primary key column lists not equal (canonicalized)"))
  }

  /** Canonicalizing can only let more key lists through: what passes without the hook passes with it. */
  lemma CanonOnlyRelaxes(name1: string, name2: string, t1: Option<Table>, t2: Option<Table>, canon: Canonicalizer)
    requires PrepDiff(name1, name2, t1, t2, None).Ok?
    ensures PrepDiff(name1, name2, t1, t2, Some(canon)) == PrepDiff(name1, name2, t1, t2, None)
  {
  }

  // ---------------------------------------------------------------- diff_rows

  /** `tab2dict` built from `rows`: each row stored under its key, a later row replacing an earlier one. */
  function BuildIndex(rows: seq<Row>, names: seq<string>): (r: Result<OrdMap<RowKey, Row>>)
    ensures r.Ok? ==> r.value.Valid()
  {
    if rows == [] then Ok(Empty())
    else
      match BuildIndex(rows[..|rows| - 1], names)
      case Err(e) => Err(e)
      case Ok(d) =>
        match RowKeyOf(rows[|rows| - 1], names)
        case Err(e) => Err(e)
        case Ok(k) => Ok(d.Put(k, rows[|rows| - 1]))
  }

  /** The lists the rows1 loop appends to, and what is left of `tab2dict`. */
  datatype JoinState = JoinState(sames: seq<Row>, diffs: seq<Row>, only1: seq<Row>, remaining: OrdMap<RowKey, Row>)

  /** One row of rows1: unmatched to `only1`; matched to `sames` or `diffs`, and its key deleted. */
  function JoinStep(s: JoinState, row: Row, k: RowKey): (r: JoinState)
    requires s.remaining.Valid()
    ensures r.remaining.Valid()
  {
    if k !in s.remaining.m then s.(only1 := s.only1 + [row])
    else if row == s.remaining.m[k] then s.(sames := s.sames + [row], remaining := s.remaining.Remove(k))
    else s.(diffs := s.diffs + [row], remaining := s.remaining.Remove(k))
  }

  /** The rows1 loop of `diff_rows` against the index `d`. */
  function JoinRows(rows: seq<Row>, names: seq<string>, d: OrdMap<RowKey, Row>): (r: Result<JoinState>)
    requires d.Valid()
    ensures r.Ok? ==> r.value.remaining.Valid()
  {
    if rows == [] then Ok(JoinState([], [], [], d))
    else
      match JoinRows(rows[..|rows| - 1], names, d)
      case Err(e) => Err(e)
      case Ok(s) =>
        match RowKeyOf(rows[|rows| - 1], names)
        case Err(e) => Err(e)
        case Ok(k) => Ok(JoinStep(s, rows[|rows| - 1], k))
  }

  /** The four lists `diff_rows` returns. */
  datatype RowDiff = RowDiff(sames: seq<Row>, diffs: seq<Row>, only1: seq<Row>, only2: seq<Row>)

  /** What `diff_rows` computes from the fetched rows and the key column names. */
  function RowDiffOf(rows1: seq<Row>, rows2: seq<Row>, names: seq<string>): Result<RowDiff> {
    match BuildIndex(rows2, names)
    case Err(e) => Err(e)
    case Ok(d) =>
      match JoinRows(rows1, names, d)
      case Err(e) => Err(e)
      case Ok(s) => Ok(RowDiff(s.sames, s.diffs, s.only1, s.remaining.Values()))
  }

  /**
   * The three loops of `TableDiff.diff_rows` on the fetched rows: index the
   * rows of db2 by key, look each row of db1 up and delete the key it matched,
   * and list what is left of the index.
   */
  method DiffRows(rows1: seq<Row>, rows2: seq<Row>, pk: seq<Column>) returns (r: Result<RowDiff>)
    ensures r == RowDiffOf(rows1, rows2, Names(pk))
    ensures r.Ok? ==> BuildIndex(rows2, Names(pk)).Ok?
    ensures r.Ok? ==> var d := BuildIndex(rows2, Names(pk)).value;
                      && r.value.sames == Placed(rows1, Names(pk), d, InSames)
                      && r.value.diffs == Placed(rows1, Names(pk), d, InDiffs)
                      && r.value.only1 == Placed(rows1, Names(pk), d, InOnly1)
  {
    var tab2dict := IndexRows(rows2, pk);
    if tab2dict.Err? {
      return Err(tab2dict.error);
    }
    var s := MatchRows(rows1, pk, tab2dict.value);
    if s.Err? {
      return Err(s.error);
    }
    var only2 := RemainingRows(s.value.remaining);
    r := Ok(RowDiff(s.value.sames, s.value.diffs, s.value.only1, only2));
    RowDiffPlaces(rows1, rows2, Names(pk));
  }

  /** The first loop of `diff_rows`: `tab2dict[pk] = row` for each row of db2. */
  method IndexRows(rows: seq<Row>, pk: seq<Column>) returns (r: Result<OrdMap<RowKey, Row>>)
    ensures r == BuildIndex(rows, Names(pk))
  {
    var names := Names(pk);
    var tab2dict := Empty();
    var i := 0;
    while i < |rows|
      invariant 0 <= i <= |rows|
      invariant BuildIndex(rows[..i], names) == Ok(tab2dict)
    {
      assert rows[..i + 1][..i] == rows[..i];
      var pkey := GetRowKey(rows[i], pk);
      if pkey.Err? {
        assert BuildIndex(rows[..i + 1], names).Err?;
        BuildIndexErrSticks(rows, names, i + 1);
        return Err(pkey.error);
      }
      tab2dict := tab2dict.Put(pkey.value, rows[i]);
      i := i + 1;
    }
    assert rows[..i] == rows;
    r := Ok(tab2dict);
  }

  /** The second loop of `diff_rows`: each row of db1 against what is left of `tab2dict`. */
  method MatchRows(rows: seq<Row>, pk: seq<Column>, index: OrdMap<RowKey, Row>) returns (r: Result<JoinState>)
    requires index.Valid()
    ensures r == JoinRows(rows, Names(pk), index)
    ensures r.Ok? ==> && r.value.sames == Placed(rows, Names(pk), index, InSames)
                      && r.value.diffs == Placed(rows, Names(pk), index, InDiffs)
                      && r.value.only1 == Placed(rows, Names(pk), index, InOnly1)
  {
    var names := Names(pk);
    var s := JoinState([], [], [], index);
    var i := 0;
    while i < |rows|
      invariant 0 <= i <= |rows|
      invariant JoinRows(rows[..i], names, index) == Ok(s)
    {
      assert rows[..i + 1][..i] == rows[..i];
      var pkey := GetRowKey(rows[i], pk);
      if pkey.Err? {
        assert JoinRows(rows[..i + 1], names, index).Err?;
        JoinRowsErrSticks(rows, names, index, i + 1);
        return Err(pkey.error);
      }
      s := JoinStep(s, rows[i], pkey.value);
      i := i + 1;
    }
    assert rows[..i] == rows;
    r := Ok(s);
    JoinPlaces(rows, names, index);
  }

  /** The third loop of `diff_rows`: the rows left in `tab2dict`, in key order. */
  method RemainingRows(d: OrdMap<RowKey, Row>) returns (only2: seq<Row>)
    requires d.Valid()
    ensures only2 == d.Values()
  {
    only2 := [];
    var i := 0;
    while i < |d.keys|
      invariant 0 <= i <= |d.keys|
      invariant |only2| == i && forall j :: 0 <= j < i ==> only2[j] == d.m[d.keys[j]]
    {
      only2 := only2 + [d.m[d.keys[i]]];
      i := i + 1;
    }
  }

  /** Once a prefix of rows2 raises, the whole loop raises with it. */
  lemma {:induction false} BuildIndexErrSticks(rows: seq<Row>, names: seq<string>, n: nat)
    requires n <= |rows| && BuildIndex(rows[..n], names).Err?
    ensures BuildIndex(rows, names) == BuildIndex(rows[..n], names)
    decreases |rows| - n
  {
    if n < |rows| {
      assert rows[..n + 1][..n] == rows[..n];
      BuildIndexErrSticks(rows, names, n + 1);
    } else {
      assert rows[..n] == rows;
    }
  }

  lemma {:induction false} JoinRowsErrSticks(rows: seq<Row>, names: seq<string>, d: OrdMap<RowKey, Row>, n: nat)
    requires d.Valid() && n <= |rows| && JoinRows(rows[..n], names, d).Err?
    ensures JoinRows(rows, names, d) == JoinRows(rows[..n], names, d)
    decreases |rows| - n
  {
    if n < |rows| {
      assert rows[..n + 1][..n] == rows[..n];
      JoinRowsErrSticks(rows, names, d, n + 1);
    } else {
      assert rows[..n] == rows;
    }
  }

  // ---------------------------------------------------------------- properties of the join

  /** The index build raises exactly when some row of rows2 lacks a key column. */
  lemma {:induction false} BuildIndexOk(rows: seq<Row>, names: seq<string>)
    ensures BuildIndex(rows, names).Ok? <==> forall i :: 0 <= i < |rows| ==> HasColumns(rows[i], names)
  {
    if rows != [] {
      var init, row := rows[..|rows| - 1], rows[|rows| - 1];
      BuildIndexOk(init, names);
      assert BuildIndex(rows, names).Ok? <==> BuildIndex(init, names).Ok? && RowKeyOf(row, names).Ok?;
      AllRowsSnoc(rows, init, names);
    }
  }

  /** The rows1 loop raises exactly when some row of rows1 lacks a key column. */
  lemma {:induction false} JoinRowsOk(rows: seq<Row>, names: seq<string>, d: OrdMap<RowKey, Row>)
    requires d.Valid()
    ensures JoinRows(rows, names, d).Ok? <==> forall i :: 0 <= i < |rows| ==> HasColumns(rows[i], names)
  {
    if rows != [] {
      var init, row := rows[..|rows| - 1], rows[|rows| - 1];
      JoinRowsOk(init, names, d);
      assert JoinRows(rows, names, d).Ok? <==> JoinRows(init, names, d).Ok? && RowKeyOf(row, names).Ok?;
      AllRowsSnoc(rows, init, names);
    }
  }

  /** All rows have the key columns exactly when all but the last do and the last does. */
  lemma AllRowsSnoc(rows: seq<Row>, init: seq<Row>, names: seq<string>)
    requires rows != [] && init == rows[..|rows| - 1]
    ensures (forall i :: 0 <= i < |rows| ==> HasColumns(rows[i], names))
        <==> (forall i :: 0 <= i < |init| ==> HasColumns(init[i], names)) && HasColumns(rows[|rows| - 1], names)
  {
    assert forall i :: 0 <= i < |init| ==> init[i] == rows[i];
  }

  /**
   * Every row of rows1 lands in exactly one of `sames`, `diffs` and `only1`, and
   * each match deletes exactly one key of the index.
   */
  lemma {:induction false} JoinCovers(rows: seq<Row>, names: seq<string>, d: OrdMap<RowKey, Row>)
    requires d.Valid() && JoinRows(rows, names, d).Ok?
    ensures var s := JoinRows(rows, names, d).value;
            && multiset(s.sames) + multiset(s.diffs) + multiset(s.only1) == multiset(rows)
            && |s.sames| + |s.diffs| + |s.remaining.keys| == |d.keys|
  {
    if rows != [] {
      var init, row := rows[..|rows| - 1], rows[|rows| - 1];
      JoinCovers(init, names, d);
      var s0 := JoinRows(init, names, d).value;
      var k := RowKeyOf(row, names).value;
      assert JoinRows(rows, names, d).value == JoinStep(s0, row, k);
      JoinStepFacts(s0, row, k);
      assert rows == init + [row];
    }
  }

  /**
   * One step of the rows1 loop: a row whose key is not left in the index goes
   * to `only1`; a row whose key is left goes to `sames` when it equals the row
   * stored under the key and to `diffs` otherwise. Either way the row lands in
   * exactly one list, and at most its own key leaves the index.
   */
  lemma JoinStepFacts(s: JoinState, row: Row, k: RowKey)
    requires s.remaining.Valid()
    ensures var r := JoinStep(s, row, k);
            k !in s.remaining.m ==> r.only1 == s.only1 + [row] && r.sames == s.sames && r.diffs == s.diffs
    ensures var r := JoinStep(s, row, k);
            k in s.remaining.m && row == s.remaining.m[k] ==>
              r.sames == s.sames + [row] && r.diffs == s.diffs && r.only1 == s.only1
    ensures var r := JoinStep(s, row, k);
            k in s.remaining.m && row != s.remaining.m[k] ==>
              r.diffs == s.diffs + [row] && r.sames == s.sames && r.only1 == s.only1
    ensures var r := JoinStep(s, row, k);
            && multiset(r.sames) + multiset(r.diffs) + multiset(r.only1)
               == multiset(s.sames) + multiset(s.diffs) + multiset(s.only1) + multiset{row}
            && |r.sames| + |r.diffs| + |r.remaining.keys| == |s.sames| + |s.diffs| + |s.remaining.keys|
            && r.remaining.m == s.remaining.m - {k}
  {
  }

  /** The list of the second loop of `diff_rows` that a row of db1 goes to. */
  datatype Place = InSames | InDiffs | InOnly1

  /**
   * Where a row of db1 goes, stated against the index of db2 as built and the
   * rows of db1 before it: a row whose key is in the index and was held by no
   * earlier row goes to `sames` when it equals the stored row and to `diffs`
   * otherwise; every other row goes to `only1`.
   */
  function PlaceOf(earlier: seq<Row>, row: Row, names: seq<string>, d: OrdMap<RowKey, Row>): Place {
    match RowKeyOf(row, names)
    case Err(_) => InOnly1
    case Ok(k) =>
      if k in d.m && NoRowHasKey(earlier, names, k) then
        if row == d.m[k] then InSames else InDiffs
      else InOnly1
  }

  /** The rows of `rows` that `PlaceOf` sends to `p`, in input order. */
  function Placed(rows: seq<Row>, names: seq<string>, d: OrdMap<RowKey, Row>, p: Place): seq<Row> {
    if rows == [] then []
    else
      var init := rows[..|rows| - 1];
      Placed(init, names, d, p) + (if PlaceOf(init, rows[|rows| - 1], names, d) == p then [rows[|rows| - 1]] else [])
  }

  /**
   * The whole second loop: `sames`, `diffs` and `only1` are the rows of db1
   * that `PlaceOf` sends to each, in input order.
   */
  lemma {:induction false} JoinPlaces(rows: seq<Row>, names: seq<string>, d: OrdMap<RowKey, Row>)
    requires d.Valid() && JoinRows(rows, names, d).Ok?
    ensures var s := JoinRows(rows, names, d).value;
            && s.sames == Placed(rows, names, d, InSames)
            && s.diffs == Placed(rows, names, d, InDiffs)
            && s.only1 == Placed(rows, names, d, InOnly1)
  {
    if rows != [] {
      var init, row := rows[..|rows| - 1], rows[|rows| - 1];
      JoinRowsRemainingStep(rows, names, d);
      JoinPlaces(init, names, d);
      var s0 := JoinRows(init, names, d).value;
      var k := RowKeyOf(row, names).value;
      JoinRemaining(init, names, d, k);
      JoinStepPlaces(s0, init, row, names, d, k);
    }
  }

  /** One step of `JoinPlaces`: the row is appended to the list that `PlaceOf` names, and only to it. */
  lemma JoinStepPlaces(s: JoinState, earlier: seq<Row>, row: Row, names: seq<string>, d: OrdMap<RowKey, Row>, k: RowKey)
    requires s.remaining.Valid() && RowKeyOf(row, names) == Ok(k)
    requires k in s.remaining.m <==> k in d.m && NoRowHasKey(earlier, names, k)
    requires k in s.remaining.m ==> s.remaining.m[k] == d.m[k]
    ensures var r, p := JoinStep(s, row, k), PlaceOf(earlier, row, names, d);
            && r.sames == s.sames + (if p == InSames then [row] else [])
            && r.diffs == s.diffs + (if p == InDiffs then [row] else [])
            && r.only1 == s.only1 + (if p == InOnly1 then [row] else [])
  {
    JoinStepFacts(s, row, k);
  }

  /** A row is in the rows placed at `p` exactly when some position holds it and `PlaceOf` sends that position to `p`. */
  lemma {:induction false} PlacedMember(rows: seq<Row>, names: seq<string>, d: OrdMap<RowKey, Row>, p: Place, x: Row)
    ensures x in Placed(rows, names, d, p) <==>
              exists i :: 0 <= i < |rows| && rows[i] == x && PlaceOf(rows[..i], rows[i], names, d) == p
  {
    if rows != [] {
      var init, row := rows[..|rows| - 1], rows[|rows| - 1];
      PlacedMember(init, names, d, p, x);
      if x in Placed(rows, names, d, p) {
        if x in Placed(init, names, d, p) {
          var i :| 0 <= i < |init| && init[i] == x && PlaceOf(init[..i], init[i], names, d) == p;
          assert rows[..i] == init[..i];
        } else {
          assert rows[..|rows| - 1] == init;
        }
      }
      if exists i :: 0 <= i < |rows| && rows[i] == x && PlaceOf(rows[..i], rows[i], names, d) == p {
        var i :| 0 <= i < |rows| && rows[i] == x && PlaceOf(rows[..i], rows[i], names, d) == p;
        if i < |init| {
          assert init[..i] == rows[..i] && init[i] == rows[i];
        }
      }
    }
  }

  /**
   * A key is left in the index exactly when it was there to begin with and no
   * row of rows1 has it; what is left under it is what was stored.
   */
  lemma {:induction false} JoinRemaining(rows: seq<Row>, names: seq<string>, d: OrdMap<RowKey, Row>, k: RowKey)
    requires d.Valid() && JoinRows(rows, names, d).Ok?
    ensures var s := JoinRows(rows, names, d).value;
            && (k in s.remaining.m <==> k in d.m && NoRowHasKey(rows, names, k))
            && (k in s.remaining.m ==> s.remaining.m[k] == d.m[k])
  {
    if rows != [] {
      JoinRemaining(rows[..|rows| - 1], names, d, k);
      JoinRemainingNext(rows, names, d, k);
    }
  }

  /** No row of `rows` has key `k`. */
  predicate NoRowHasKey(rows: seq<Row>, names: seq<string>, k: RowKey) {
    forall i :: 0 <= i < |rows| ==> RowKeyOf(rows[i], names) != Ok(k)
  }

  lemma NoRowHasKeySnoc(rows: seq<Row>, names: seq<string>, k: RowKey)
    requires rows != []
    ensures NoRowHasKey(rows, names, k)
        <==> NoRowHasKey(rows[..|rows| - 1], names, k) && RowKeyOf(rows[|rows| - 1], names) != Ok(k)
  {
    assert forall i :: 0 <= i < |rows| - 1 ==> rows[..|rows| - 1][i] == rows[i];
  }

  /** The step of `JoinRemaining`: from all rows of rows1 but the last to all of them. */
  lemma JoinRemainingNext(rows: seq<Row>, names: seq<string>, d: OrdMap<RowKey, Row>, k: RowKey)
    requires d.Valid() && rows != [] && JoinRows(rows, names, d).Ok?
    requires JoinRows(rows[..|rows| - 1], names, d).Ok?
    requires var s := JoinRows(rows[..|rows| - 1], names, d).value;
             && (k in s.remaining.m <==> k in d.m && NoRowHasKey(rows[..|rows| - 1], names, k))
             && (k in s.remaining.m ==> s.remaining.m[k] == d.m[k])
    ensures var s := JoinRows(rows, names, d).value;
            && (k in s.remaining.m <==> k in d.m && NoRowHasKey(rows, names, k))
            && (k in s.remaining.m ==> s.remaining.m[k] == d.m[k])
  {
    JoinRowsRemainingStep(rows, names, d);
    NoRowHasKeySnoc(rows, names, k);
  }

  /** One more row of rows1 takes its key out of what is left of the index. */
  lemma JoinRowsRemainingStep(rows: seq<Row>, names: seq<string>, d: OrdMap<RowKey, Row>)
    requires d.Valid() && rows != [] && JoinRows(rows, names, d).Ok?
    ensures JoinRows(rows[..|rows| - 1], names, d).Ok? && RowKeyOf(rows[|rows| - 1], names).Ok?
    ensures JoinRows(rows, names, d).value.remaining.m
         == JoinRows(rows[..|rows| - 1], names, d).value.remaining.m - {RowKeyOf(rows[|rows| - 1], names).value}
  {
    var s0 := JoinRows(rows[..|rows| - 1], names, d).value;
    JoinStepFacts(s0, rows[|rows| - 1], RowKeyOf(rows[|rows| - 1], names).value);
  }

  /**
   * A row of rows1 whose key an earlier row of rows1 already had goes to
   * `only1`: the earlier row consumed the key.
   */
  lemma DuplicateGoesToOnly1(rows: seq<Row>, names: seq<string>, d: OrdMap<RowKey, Row>, i: nat, j: nat)
    requires d.Valid() && i < j < |rows|
    requires RowKeyOf(rows[i], names).Ok? && RowKeyOf(rows[i], names) == RowKeyOf(rows[j], names)
    requires JoinRows(rows[..j + 1], names, d).Ok?
    ensures JoinRows(rows[..j], names, d).Ok?
    ensures JoinRows(rows[..j + 1], names, d).value.only1 == JoinRows(rows[..j], names, d).value.only1 + [rows[j]]
  {
    assert rows[..j + 1][..j] == rows[..j];
    var k := RowKeyOf(rows[j], names).value;
    JoinRemaining(rows[..j], names, d, k);
    assert rows[..j][i] == rows[i];
  }

  /** The index of a non-empty list is that of its prefix with the last row stored. */
  lemma BuildIndexStep(rows: seq<Row>, names: seq<string>)
    requires rows != [] && BuildIndex(rows, names).Ok?
    ensures BuildIndex(rows[..|rows| - 1], names).Ok? && RowKeyOf(rows[|rows| - 1], names).Ok?
    ensures BuildIndex(rows, names).value
         == BuildIndex(rows[..|rows| - 1], names).value.Put(RowKeyOf(rows[|rows| - 1], names).value, rows[|rows| - 1])
  {
  }

  /** The entries after one more row: the previous ones, with that row stored under its key. */
  lemma BuildIndexStepMap(rows: seq<Row>, names: seq<string>)
    requires rows != [] && BuildIndex(rows, names).Ok?
    ensures BuildIndex(rows[..|rows| - 1], names).Ok? && RowKeyOf(rows[|rows| - 1], names).Ok?
    ensures BuildIndex(rows, names).value.m
         == BuildIndex(rows[..|rows| - 1], names).value.m[RowKeyOf(rows[|rows| - 1], names).value := rows[|rows| - 1]]
  {
    BuildIndexStep(rows, names);
  }

  /** Only keys of rows2 are in the index, and all of them are. */
  lemma {:induction false} BuildIndexHas(rows: seq<Row>, names: seq<string>, k: RowKey)
    requires BuildIndex(rows, names).Ok?
    ensures k in BuildIndex(rows, names).value.m <==> exists i :: 0 <= i < |rows| && RowKeyOf(rows[i], names) == Ok(k)
  {
    if k in BuildIndex(rows, names).value.m {
      var i := BuildIndexKeyFrom(rows, names, k);
    }
    if exists i :: 0 <= i < |rows| && RowKeyOf(rows[i], names) == Ok(k) {
      var i :| 0 <= i < |rows| && RowKeyOf(rows[i], names) == Ok(k);
      BuildIndexKeeps(rows, names, i);
    }
  }

  /** Every key of the index is the key of some row. */
  lemma {:induction false} BuildIndexKeyFrom(rows: seq<Row>, names: seq<string>, k: RowKey) returns (i: nat)
    requires BuildIndex(rows, names).Ok? && k in BuildIndex(rows, names).value.m
    ensures i < |rows| && RowKeyOf(rows[i], names) == Ok(k)
  {
    var init := rows[..|rows| - 1];
    BuildIndexStep(rows, names);
    if RowKeyOf(rows[|rows| - 1], names) == Ok(k) {
      i := |rows| - 1;
    } else {
      i := BuildIndexKeyFrom(init, names, k);
      assert rows[i] == init[i];
    }
  }

  /** The key of every row is in the index. */
  lemma {:induction false} BuildIndexKeeps(rows: seq<Row>, names: seq<string>, i: nat)
    requires BuildIndex(rows, names).Ok? && i < |rows|
    ensures RowKeyOf(rows[i], names).Ok? && RowKeyOf(rows[i], names).value in BuildIndex(rows, names).value.m
  {
    var init := rows[..|rows| - 1];
    BuildIndexStepMap(rows, names);
    var before := BuildIndex(init, names).value;
    if i < |init| {
      assert rows[i] == init[i];
      BuildIndexKeeps(init, names, i);
      assert RowKeyOf(rows[i], names).value in before.m;
    }
  }

  /** Each key of the index holds the last row of rows2 with that key; `i` is that row's position. */
  lemma {:induction false} BuildIndexLast(rows: seq<Row>, names: seq<string>, k: RowKey) returns (i: nat)
    requires BuildIndex(rows, names).Ok? && k in BuildIndex(rows, names).value.m
    ensures i < |rows| && rows[i] == BuildIndex(rows, names).value.m[k] && RowKeyOf(rows[i], names) == Ok(k)
    ensures forall j :: i < j < |rows| ==> RowKeyOf(rows[j], names) != Ok(k)
  {
    assert rows != [];
    var init := rows[..|rows| - 1];
    BuildIndexStep(rows, names);
    var k' := RowKeyOf(rows[|rows| - 1], names).value;
    if k' == k {
      i := |rows| - 1;
    } else {
      i := BuildIndexLast(init, names, k);
      assert rows[i] == init[i];
      NoLaterKeyExtends(rows, init, names, k, i);
    }
  }

  /** No row after position `i` has key `k`, given that this holds for the prefix and for the last row. */
  lemma NoLaterKeyExtends(rows: seq<Row>, init: seq<Row>, names: seq<string>, k: RowKey, i: nat)
    requires i < |rows| - 1 && init == rows[..|rows| - 1]
    requires forall j :: i < j < |init| ==> RowKeyOf(init[j], names) != Ok(k)
    requires RowKeyOf(rows[|rows| - 1], names) != Ok(k)
    ensures forall j :: i < j < |rows| ==> RowKeyOf(rows[j], names) != Ok(k)
  {
    forall j | i < j < |rows| ensures RowKeyOf(rows[j], names) != Ok(k) {
      if j < |init| {
        assert rows[j] == init[j];
      }
    }
  }

  /** With distinct keys in rows2 the index holds one entry per row. */
  lemma {:induction false} BuildIndexDistinct(rows: seq<Row>, names: seq<string>)
    requires BuildIndex(rows, names).Ok?
    requires forall i, j :: 0 <= i < j < |rows| ==> RowKeyOf(rows[i], names) != RowKeyOf(rows[j], names)
    ensures |BuildIndex(rows, names).value.keys| == |rows|
  {
    if rows != [] {
      var init, row := rows[..|rows| - 1], rows[|rows| - 1];
      BuildIndexDistinct(init, names);
      var d0 := BuildIndex(init, names).value;
      var k := RowKeyOf(row, names).value;
      assert BuildIndex(rows, names).value == d0.Put(k, row);
      BuildIndexHas(init, names, k);
      assert forall i :: 0 <= i < |init| ==> init[i] == rows[i];
    }
  }

  /**
   * `diff_rows`: the rows of db1 split into `sames`, `diffs` and `only1`; with
   * distinct keys in db2, the rows of db2 split into matched ones and `only2`.
   */
  lemma RowDiffCounts(rows1: seq<Row>, rows2: seq<Row>, names: seq<string>)
    requires RowDiffOf(rows1, rows2, names).Ok?
    ensures var r := RowDiffOf(rows1, rows2, names).value;
            && multiset(r.sames) + multiset(r.diffs) + multiset(r.only1) == multiset(rows1)
            && |r.sames| + |r.diffs| + |r.only1| == |rows1|
            && ((forall i, j :: 0 <= i < j < |rows2| ==> RowKeyOf(rows2[i], names) != RowKeyOf(rows2[j], names)) ==>
                  |r.sames| + |r.diffs| + |r.only2| == |rows2|)
  {
    var d := BuildIndex(rows2, names).value;
    JoinCovers(rows1, names, d);
    var r := RowDiffOf(rows1, rows2, names).value;
    assert |multiset(r.sames) + multiset(r.diffs) + multiset(r.only1)| == |multiset(rows1)|;
    if forall i, j :: 0 <= i < j < |rows2| ==> RowKeyOf(rows2[i], names) != RowKeyOf(rows2[j], names) {
      BuildIndexDistinct(rows2, names);
    }
  }

  /**
   * `diff_rows`: `sames`, `diffs` and `only1` are the rows of db1 that
   * `PlaceOf` sends to each against the index built from the rows of db2.
   */
  lemma RowDiffPlaces(rows1: seq<Row>, rows2: seq<Row>, names: seq<string>)
    requires RowDiffOf(rows1, rows2, names).Ok?
    ensures BuildIndex(rows2, names).Ok?
    ensures var r, d := RowDiffOf(rows1, rows2, names).value, BuildIndex(rows2, names).value;
            && r.sames == Placed(rows1, names, d, InSames)
            && r.diffs == Placed(rows1, names, d, InDiffs)
            && r.only1 == Placed(rows1, names, d, InOnly1)
  {
    JoinPlaces(rows1, names, BuildIndex(rows2, names).value);
  }

  /** `diff_rows` raises exactly when some fetched row lacks a key column. */
  lemma RowDiffOk(rows1: seq<Row>, rows2: seq<Row>, names: seq<string>)
    ensures RowDiffOf(rows1, rows2, names).Ok? <==>
              (forall i :: 0 <= i < |rows1| ==> HasColumns(rows1[i], names))
              && (forall i :: 0 <= i < |rows2| ==> HasColumns(rows2[i], names))
  {
    BuildIndexOk(rows2, names);
    if BuildIndex(rows2, names).Ok? {
      JoinRowsOk(rows1, names, BuildIndex(rows2, names).value);
    }
  }

  /** The last row of `rows` with the key of `rows[i]` is `rows[i]`. */
  ghost predicate LastWithKey(rows: seq<Row>, names: seq<string>, i: nat)
    requires i < |rows|
  {
    forall j :: i < j < |rows| ==> RowKeyOf(rows[j], names) != RowKeyOf(rows[i], names)
  }

  /**
   * `only2` holds exactly the rows of db2 that are the last of their key and
   * whose key no row of db1 has.
   */
  lemma Only2Member(rows1: seq<Row>, rows2: seq<Row>, names: seq<string>, row: Row)
    requires RowDiffOf(rows1, rows2, names).Ok?
    ensures row in RowDiffOf(rows1, rows2, names).value.only2 <==>
              exists i :: 0 <= i < |rows2| && rows2[i] == row && LastWithKey(rows2, names, i)
                          && forall j :: 0 <= j < |rows1| ==> RowKeyOf(rows1[j], names) != RowKeyOf(rows2[i], names)
  {
    var d := BuildIndex(rows2, names).value;
    var s := JoinRows(rows1, names, d).value;
    var only2 := s.remaining.Values();
    BuildIndexOk(rows2, names);
    if row in only2 {
      var n :| 0 <= n < |only2| && only2[n] == row;
      var k := s.remaining.keys[n];
      JoinRemaining(rows1, names, d, k);
      var i := BuildIndexLast(rows2, names, k);
      assert LastWithKey(rows2, names, i);
    }
    if exists i :: 0 <= i < |rows2| && rows2[i] == row && LastWithKey(rows2, names, i)
                   && forall j :: 0 <= j < |rows1| ==> RowKeyOf(rows1[j], names) != RowKeyOf(rows2[i], names) {
      var i :| 0 <= i < |rows2| && rows2[i] == row && LastWithKey(rows2, names, i)
               && forall j :: 0 <= j < |rows1| ==> RowKeyOf(rows1[j], names) != RowKeyOf(rows2[i], names);
      assert HasColumns(rows2[i], names);
      var k := RowKeyOf(rows2[i], names).value;
      BuildIndexHas(rows2, names, k);
      var i' := BuildIndexLast(rows2, names, k);
      JoinRemaining(rows1, names, d, k);
      assert i' == i;
      var n :| 0 <= n < |s.remaining.keys| && s.remaining.keys[n] == k;
      assert only2[n] == row;
    }
  }

  /**
   * `TableDiff.diff_rows(tablename1, tablename2)`: the checks of `prep_diff`,
   * then the row diff of the fetched rows on db1's key columns.
   */
  method DiffTableRows(name1: string, name2: string, t1: Option<Table>, t2: Option<Table>, canon: Option<Canonicalizer>,
                       rows1: seq<Row>, rows2: seq<Row>) returns (r: Result<RowDiff>)
    ensures PrepDiff(name1, name2, t1, t2, canon).Err? ==> r == Err(PrepDiff(name1, name2, t1, t2, canon).error)
    ensures PrepDiff(name1, name2, t1, t2, canon).Ok? ==> r == RowDiffOf(rows1, rows2, Names(PrepDiff(name1, name2, t1, t2, canon).value))
  {
    var prep := PrepDiff(name1, name2, t1, t2, canon);
    if prep.Err? {
      return Err(prep.error);
    }
    r := DiffRows(rows1, rows2, prep.value);
  }
}
