/**
 * Schema comparison (`SchemaCompare`): which tables and procedures the two
 * databases have in common, with table names matched on their canonical form,
 * and `TopoSort`, which orders tables so that the tables a foreign key refers
 * to come first.
 */
module Compare {
  import opened Wrappers
  import opened Schema
  import Partition
  import Text

  // ---------------------------------------------------------------- diff_table_list

  /** A `(canonical name, original name)` pair, or a pair of original names in `both`. */
  type NamePair = (string, string)

  function CanonKey(p: NamePair): string { p.0 }

  /** Each listed table name paired with its canonical form: `(canonicalize(t), t)`, or `(t, t)` without a hook. */
  function CanonPairs(names: seq<string>, canon: Option<Canonicalizer>): (r: seq<NamePair>)
    ensures |r| == |names|
  {
    if names == [] then [] else CanonPairs(names[..|names| - 1], canon) + [(Canon(canon, names[|names| - 1]), names[|names| - 1])]
  }

  lemma {:induction false} CanonPairsAt(names: seq<string>, canon: Option<Canonicalizer>, i: nat)
    requires i < |names|
    ensures CanonPairs(names, canon)[i] == (Canon(canon, names[i]), names[i])
  {
    if i < |names| - 1 {
      CanonPairsAt(names[..|names| - 1], canon, i);
    }
  }

  /** For each pair of `p1` whose canonical name occurs in `p2`: its original name and that of the first match. */
  function Matched(p1: seq<NamePair>, p2: seq<NamePair>): seq<NamePair> {
    if p1 == [] then []
    else
      var init := Matched(p1[..|p1| - 1], p2);
      var p := p1[|p1| - 1];
      match Partition.Lookup(p2, CanonKey, p.0)
      case Some(q) => init + [(p.1, q.1)]
      case None => init
  }

  /** The pairs of `p1` whose canonical name occurs nowhere in `p2`, in order. */
  function Unmatched(p1: seq<NamePair>, p2: seq<NamePair>): seq<NamePair> {
    if p1 == [] then []
    else
      var init := Unmatched(p1[..|p1| - 1], p2);
      var p := p1[|p1| - 1];
      if Partition.Lookup(p2, CanonKey, p.0).None? then init + [p] else init
  }

  datatype TableListDiff = TableListDiff(both: seq<NamePair>, only1: seq<NamePair>, only2: seq<NamePair>)

  /** What `diff_table_list` returns for the two name lists. */
  function TableListDiffOf(l1: seq<string>, l2: seq<string>, canon: Option<Canonicalizer>): TableListDiff {
    var p1 := CanonPairs(l1, canon);
    var p2 := CanonPairs(l2, canon);
    TableListDiff(Matched(p1, p2), Unmatched(p1, p2), Unmatched(p2, p1))
  }

  /**
   * `SchemaCompare.diff_table_list()` over the two databases' `get_table_list()`:
   * each db1 table pairs with the first db2 table of the same canonical name, or
   * goes to `only1`; `only2` holds the db2 tables whose canonical name no db1 table has.
   */
  method DiffTableList(l1: seq<string>, l2: seq<string>, canon: Option<Canonicalizer>) returns (r: TableListDiff)
    ensures r == TableListDiffOf(l1, l2, canon)
  {
    var t1 := CanonPairs(l1, canon);
    var t2 := CanonPairs(l2, canon);
    var both, only1 := MatchFirst(t1, t2);
    var only2 := KeepUnmatched(t2, t1);
    r := TableListDiff(both, only1, only2);
  }

  /** The db1 loop of `diff_table_list`: first match by canonical name, then `break`. */
  method MatchFirst(t1: seq<NamePair>, t2: seq<NamePair>) returns (both: seq<NamePair>, only1: seq<NamePair>)
    ensures both == Matched(t1, t2) && only1 == Unmatched(t1, t2)
  {
    both, only1 := [], [];
    var i := 0;
    while i < |t1|
      invariant 0 <= i <= |t1|
      invariant both == Matched(t1[..i], t2) && only1 == Unmatched(t1[..i], t2)
    {
      assert t1[..i + 1][..i] == t1[..i];
      var canontable, origtable := t1[i].0, t1[i].1;
      var m := Partition.FindFirst(t2, CanonKey, canontable);
      if m.Some? {
        both := both + [(origtable, m.value.1)];
      } else {
        only1 := only1 + [(canontable, origtable)];
      }
      i := i + 1;
    }
    assert t1[..i] == t1;
  }

  /** The db2 loop of `diff_table_list`: keep the pairs whose canonical name db1 lacks. */
  method KeepUnmatched(t2: seq<NamePair>, t1: seq<NamePair>) returns (only2: seq<NamePair>)
    ensures only2 == Unmatched(t2, t1)
  {
    only2 := [];
    var i := 0;
    while i < |t2|
      invariant 0 <= i <= |t2|
      invariant only2 == Unmatched(t2[..i], t1)
    {
      assert t2[..i + 1][..i] == t2[..i];
      var m := Partition.FindFirst(t1, CanonKey, t2[i].0);
      if m.None? {
        only2 := only2 + [t2[i]];
      }
      i := i + 1;
    }
    assert t2[..i] == t2;
  }

  /** Every db1 table lands in exactly one of `both` and `only1`. */
  lemma {:induction false} MatchedUnmatchedCount(p1: seq<NamePair>, p2: seq<NamePair>)
    ensures |Matched(p1, p2)| + |Unmatched(p1, p2)| == |p1|
  {
    if p1 != [] {
      MatchedUnmatchedCount(p1[..|p1| - 1], p2);
    }
  }

  /** `only1` holds exactly the pairs whose canonical name the other list lacks. */
  lemma {:induction false} UnmatchedMember(p1: seq<NamePair>, p2: seq<NamePair>, p: NamePair)
    ensures p in Unmatched(p1, p2) <==> p in p1 && forall k :: 0 <= k < |p2| ==> p2[k].0 != p.0
  {
    if p1 != [] {
      var init := p1[..|p1| - 1];
      UnmatchedMember(init, p2, p);
      assert p1 == init + [p1[|p1| - 1]];
      Partition.LookupNone(p2, CanonKey, p.0);
    }
  }

  /** `both` pairs each matched db1 name with the original name of the first db2 table of that canonical name. */
  lemma {:induction false} MatchedMember(p1: seq<NamePair>, p2: seq<NamePair>, b: NamePair)
    ensures b in Matched(p1, p2) <==>
              exists i :: 0 <= i < |p1| && Partition.Lookup(p2, CanonKey, p1[i].0).Some?
                          && b == (p1[i].1, Partition.Lookup(p2, CanonKey, p1[i].0).value.1)
  {
    if p1 != [] {
      var init := p1[..|p1| - 1];
      MatchedMember(init, p2, b);
      assert forall i :: 0 <= i < |init| ==> init[i] == p1[i];
    }
  }

  /** The pairs of a list of names, all mapped to themselves. */
  function SelfPairs(names: seq<string>): (r: seq<NamePair>)
    ensures |r| == |names|
  {
    if names == [] then [] else SelfPairs(names[..|names| - 1]) + [(names[|names| - 1], names[|names| - 1])]
  }

  /** Without a canonicalizer the canonical name is the name itself. */
  lemma {:induction false} NoCanonSelfPairs(names: seq<string>)
    ensures CanonPairs(names, None) == SelfPairs(names)
  {
    if names != [] {
      NoCanonSelfPairs(names[..|names| - 1]);
    }
  }

  /**
   * Two databases with the same tables: every table is in `both`, paired with
   * itself; nothing is on one side only. The names must be distinct, which
   * every call meets: `get_table_list` lists the keys of a dict.
   */
  lemma IdenticalTableLists(l: seq<string>)
    requires forall i, j :: 0 <= i < j < |l| ==> l[i] != l[j]
    ensures TableListDiffOf(l, l, None) == TableListDiff(SelfPairs(l), [], [])
  {
    NoCanonSelfPairs(l);
    SelfPairsShape(l);
    SelfMatchedAll(SelfPairs(l));
  }

  /** Self pairs of duplicate-free names: each pairs a name with itself, and no name comes twice. */
  lemma SelfPairsShape(l: seq<string>)
    requires forall i, j :: 0 <= i < j < |l| ==> l[i] != l[j]
    ensures var p := SelfPairs(l);
            && (forall i :: 0 <= i < |p| ==> p[i].0 == p[i].1)
            && (forall i, j :: 0 <= i < j < |p| ==> p[i].0 != p[j].0)
  {
    SelfPairsAt(l);
  }

  /** A duplicate-free self-paired list matches itself entirely. */
  lemma SelfMatchedAll(p: seq<NamePair>)
    requires forall i :: 0 <= i < |p| ==> p[i].0 == p[i].1
    requires forall i, j :: 0 <= i < j < |p| ==> p[i].0 != p[j].0
    ensures Matched(p, p) == p && Unmatched(p, p) == []
  {
    SelfMatched(p, p, |p|);
    assert p[..|p|] == p;
  }

  lemma {:induction false} SelfPairsAt(names: seq<string>)
    ensures forall i :: 0 <= i < |names| ==> SelfPairs(names)[i] == (names[i], names[i])
  {
    if names != [] {
      SelfPairsAt(names[..|names| - 1]);
    }
  }

  /** Every prefix of a duplicate-free self-paired list matches itself in the whole list. */
  lemma {:induction false} SelfMatched(p: seq<NamePair>, whole: seq<NamePair>, n: nat)
    requires n <= |p| && p == whole
    requires forall i :: 0 <= i < |p| ==> p[i].0 == p[i].1
    requires forall i, j :: 0 <= i < j < |p| ==> p[i].0 != p[j].0
    ensures Matched(p[..n], whole) == p[..n]
    ensures Unmatched(p[..n], whole) == []
  {
    if n > 0 {
      SelfMatched(p, whole, n - 1);
      assert p[..n][..n - 1] == p[..n - 1];
      Partition.FirstIndexIs(whole, CanonKey, p[n - 1].0, n - 1);
      assert p[..n] == p[..n - 1] + [p[n - 1]];
    }
  }

  /** The two-table example: `table1` and `table2` against `table1` and `table3`. */
  lemma OnlyOnOneSideExample()
    ensures TableListDiffOf(["table1", "table2"], ["table1", "table3"], None)
         == TableListDiff([("table1", "table1")], [("table2", "table2")], [("table3", "table3")])
  {
    ExamplePairs();
    ExampleSides();
  }

  lemma ExamplePairs()
    ensures CanonPairs(["table1", "table2"], None) == [("table1", "table1"), ("table2", "table2")]
    ensures CanonPairs(["table1", "table3"], None) == [("table1", "table1"), ("table3", "table3")]
  {
    assert ["table1", "table2"][..1] == ["table1"];
    assert ["table1", "table3"][..1] == ["table1"];
  }

  lemma ExampleSides()
    ensures var p1, p2 := [("table1", "table1"), ("table2", "table2")], [("table1", "table1"), ("table3", "table3")];
            Matched(p1, p2) == [("table1", "table1")] && Unmatched(p1, p2) == [("table2", "table2")]
            && Unmatched(p2, p1) == [("table3", "table3")]
  {
    var p1, p2 := [("table1", "table1"), ("table2", "table2")], [("table1", "table1"), ("table3", "table3")];
    assert Partition.Lookup(p2, CanonKey, "table1") == Some(("table1", "table1"));
    assert Partition.Lookup(p2, CanonKey, "table2").None? by {
      assert "table1" != "table2" && "table3" != "table2";
    }
    assert Partition.Lookup(p1, CanonKey, "table1") == Some(("table1", "table1"));
    assert Partition.Lookup(p1, CanonKey, "table3").None? by {
      assert "table1" != "table3" && "table2" != "table3";
    }
    assert p1[..1] == [("table1", "table1")] && p2[..1] == [("table1", "table1")];
  }

  /** With an upper-casing hook, `Orders` and `ORDERS` are the same table; `both` keeps both spellings. */
  lemma CaseInsensitiveExample()
    ensures TableListDiffOf(["Orders"], ["ORDERS"], Some(Text.Upper))
         == TableListDiff([("Orders", "ORDERS")], [], [])
  {
    assert Text.Upper("Orders") == "ORDERS";
    assert Text.Upper("ORDERS") == "ORDERS";
    assert Canon(Some(Text.Upper), "Orders") == "ORDERS";
    assert Canon(Some(Text.Upper), "ORDERS") == "ORDERS";
    var p1 := CanonPairs(["Orders"], Some(Text.Upper));
    var p2 := CanonPairs(["ORDERS"], Some(Text.Upper));
    assert p1 == [("ORDERS", "Orders")];
    assert p2 == [("ORDERS", "ORDERS")];
    assert Partition.Lookup(p2, CanonKey, "ORDERS") == Some(("ORDERS", "ORDERS"));
    assert Partition.Lookup(p1, CanonKey, "ORDERS") == Some(("ORDERS", "Orders"));
    assert p1[..0] == [] && p2[..0] == [];
    assert Matched(p1, p2) == [("Orders", "ORDERS")];
    assert Unmatched(p1, p2) == [];
    assert Unmatched(p2, p1) == [];
  }

  // ---------------------------------------------------------------- diff_procedure_list

  datatype NameListDiff = NameListDiff(both: seq<string>, only1: seq<string>, only2: seq<string>)

  /** The names of `l` that are (`wanted`) or are not (`!wanted`) in `other`, in the order of `l`. */
  function Present(l: seq<string>, other: seq<string>, wanted: bool): seq<string> {
    if l == [] then []
    else
      var init := Present(l[..|l| - 1], other, wanted);
      if (l[|l| - 1] in other) == wanted then init + [l[|l| - 1]] else init
  }

  function NameListDiffOf(l1: seq<string>, l2: seq<string>): NameListDiff {
    NameListDiff(Present(l1, l2, true), Present(l1, l2, false), Present(l2, l1, false))
  }

  /**
   * `diff_procedure_list()`: exact-name membership; `both` and `only1` follow
   * the db1 list, `only2` the db2 list.
   */
  method DiffNames(l1: seq<string>, l2: seq<string>) returns (r: NameListDiff)
    ensures r == NameListDiffOf(l1, l2)
  {
    var both, only1, only2 := [], [], [];
    var i := 0;
    while i < |l1|
      invariant 0 <= i <= |l1|
      invariant both == Present(l1[..i], l2, true) && only1 == Present(l1[..i], l2, false)
    {
      assert l1[..i + 1][..i] == l1[..i];
      if l1[i] in l2 {
        both := both + [l1[i]];
      } else {
        only1 := only1 + [l1[i]];
      }
      i := i + 1;
    }
    assert l1[..i] == l1;
    i := 0;
    while i < |l2|
      invariant 0 <= i <= |l2|
      invariant only2 == Present(l2[..i], l1, false)
    {
      assert l2[..i + 1][..i] == l2[..i];
      if l2[i] !in l1 {
        only2 := only2 + [l2[i]];
      }
      i := i + 1;
    }
    assert l2[..i] == l2;
    r := NameListDiff(both, only1, only2);
  }

  /** A name is kept exactly when it is in the list and its presence in the other list is as wanted. */
  lemma {:induction false} PresentMember(l: seq<string>, other: seq<string>, wanted: bool, x: string)
    ensures x in Present(l, other, wanted) <==> x in l && (x in other) == wanted
  {
    if l != [] {
      PresentMember(l[..|l| - 1], other, wanted, x);
      assert l == l[..|l| - 1] + [l[|l| - 1]];
    }
  }

  /** `both` and `only1` split the db1 list: together they hold every db1 name as often as it occurs there. */
  lemma {:induction false} PresentSplits(l: seq<string>, other: seq<string>)
    ensures multiset(Present(l, other, true)) + multiset(Present(l, other, false)) == multiset(l)
  {
    if l != [] {
      PresentSplits(l[..|l| - 1], other);
      assert l == l[..|l| - 1] + [l[|l| - 1]];
    }
  }

  /** `diff_procedure_list`: everything the procedure list comparison promises, in one statement. */
  method DiffProcedureList(l1: seq<string>, l2: seq<string>) returns (r: NameListDiff)
    ensures r == NameListDiffOf(l1, l2)
    ensures multiset(r.both) + multiset(r.only1) == multiset(l1)
    ensures forall x :: x in r.only2 <==> x in l2 && x !in l1
    ensures forall x :: x in r.both <==> x in l1 && x in l2
  {
    r := DiffNames(l1, l2);
    PresentSplits(l1, l2);
    forall x ensures (x in r.only2 <==> x in l2 && x !in l1) && (x in r.both <==> x in l1 && x in l2) {
      PresentMember(l2, l1, false, x);
      PresentMember(l1, l2, true, x);
    }
  }

  // ---------------------------------------------------------------- TopoSort

  /** The table has a constraint for which `is_foreign_key()` holds. */
  predicate HasForeignKey(t: Table) {
    exists j :: 0 <= j < |t.constraints| && IsForeignKey(t.constraints[j])
  }

  /**
   * Every foreign key of `t` refers to an already visited table or to `t`
   * itself. A foreign key without a referenced table never counts as visited.
   */
  predicate Ready(t: Table, visited: set<string>) {
    forall j :: 0 <= j < |t.constraints| && IsForeignKey(t.constraints[j]) ==>
      t.constraints[j].referenceTable.Some?
      && (t.constraints[j].referenceTable.value in visited || t.constraints[j].referenceTable.value == t.name)
  }

  /** The names of the tables in `s`: the keys of `visited`. */
  function NameSet(s: seq<Table>): set<string> {
    set i | 0 <= i < |s| :: s[i].name
  }

  /** Each table's foreign keys refer to itself or to a table earlier in the list. */
  ghost predicate DependenciesFirst(order: seq<Table>) {
    forall k :: 0 <= k < |order| ==> Ready(order[k], NameSet(order[..k]))
  }

  /** The tables without a foreign key, in input order: the first step's output. */
  function WithoutForeignKeys(tables: seq<Table>): seq<Table> {
    if tables == [] then []
    else
      var init := WithoutForeignKeys(tables[..|tables| - 1]);
      if HasForeignKey(tables[|tables| - 1]) then init else init + [tables[|tables| - 1]]
  }

  /** The tables with a foreign key, in input order: the first step's `nodelist`. */
  function WithForeignKeys(tables: seq<Table>): seq<Table> {
    if tables == [] then []
    else
      var init := WithForeignKeys(tables[..|tables| - 1]);
      if HasForeignKey(tables[|tables| - 1]) then init + [tables[|tables| - 1]] else init
  }

  /**
   * The result of `TopoSort.sort`. `Stuck` stands for a pass over the remaining
   * tables that appends none of them: the source then repeats that same pass
   * forever, so it never returns.
   */
  datatype SortOutcome = Sorted(order: seq<Table>) | Stuck(order: seq<Table>, pending: seq<Table>)

  /** The variables of step 2 of `TopoSort.sort`: `sorted`, the keys of `visited`, and `nodelist`. */
  datatype SortState = SortState(sorted: seq<Table>, visited: set<string>, nodelist: seq<Table>)

  /**
   * `for table in nodelist` from position `idx` on. A list iterator reads the
   * entry at its position and then moves one position on, so after
   * `nodelist.remove(table)` the entry that moves into the freed position is
   * passed over until the next pass. A pass that removes nothing leaves the
   * state as it was.
   */
  function PassFrom(s: SortState, idx: nat): (r: SortState)
    requires idx <= |s.nodelist| + 1
    ensures |r.nodelist| <= |s.nodelist|
    ensures |r.nodelist| == |s.nodelist| ==> r == s
    decreases |s.nodelist| + 1 - idx
  {
    if idx >= |s.nodelist| then s
    else
      var t := s.nodelist[idx];
      if Ready(t, s.visited) then
        PassFrom(SortState(s.sorted + [t], s.visited + {t.name}, s.nodelist[..idx] + s.nodelist[idx + 1..]), idx + 1)
      else
        PassFrom(s, idx + 1)
  }

  /**
   * `while len(nodelist) > 0`: passes until `nodelist` is empty, or until a
   * pass removes nothing, where the source would repeat that pass forever.
   */
  function Passes(s: SortState): SortOutcome
    decreases |s.nodelist|
  {
    if s.nodelist == [] then Sorted(s.sorted)
    else
      var n := PassFrom(s, 0);
      if |n.nodelist| == |s.nodelist| then Stuck(s.sorted, s.nodelist) else Passes(n)
  }

  /** What `TopoSort.sort(tables)` computes: step 1, then the passes of step 2. */
  function SortOf(tables: seq<Table>): SortOutcome {
    var seed := WithoutForeignKeys(tables);
    Passes(SortState(seed, NameSet(seed), WithForeignKeys(tables)))
  }

  /** The scan of a table's constraints for a foreign key, with `break`. */
  method ScanForeignKey(t: Table) returns (hasfk: bool)
    ensures hasfk == HasForeignKey(t)
  {
    hasfk := false;
    var j := 0;
    while j < |t.constraints|
      invariant 0 <= j <= |t.constraints|
      invariant forall k :: 0 <= k < j ==> !IsForeignKey(t.constraints[k])
    {
      if IsForeignKey(t.constraints[j]) {
        return true;
      }
      j := j + 1;
    }
  }

  /** The check of a table's foreign keys against `visited`, with `break` at the first unmet one. */
  method AllDepsVisited(t: Table, visited: set<string>) returns (ok: bool)
    ensures ok == Ready(t, visited)
  {
    ok := true;
    var j := 0;
    while j < |t.constraints|
      invariant 0 <= j <= |t.constraints|
      invariant forall k :: 0 <= k < j && IsForeignKey(t.constraints[k]) ==>
                  t.constraints[k].referenceTable.Some?
                  && (t.constraints[k].referenceTable.value in visited || t.constraints[k].referenceTable.value == t.name)
    {
      var c := t.constraints[j];
      if IsForeignKey(c) {
        var reftable := c.referenceTable;
        if reftable.None? || (reftable.value !in visited && reftable.value != t.name) {
          return false;
        }
      }
      j := j + 1;
    }
  }

  /** Step 1 of `TopoSort.sort`: the tables without a foreign key are output, the others wait in `nodelist`. */
  method SeedOrder(tables: seq<Table>) returns (sorted: seq<Table>, visited: set<string>, nodelist: seq<Table>)
    ensures sorted == WithoutForeignKeys(tables) && nodelist == WithForeignKeys(tables)
    ensures visited == NameSet(sorted)
    ensures DependenciesFirst(sorted)
    ensures multiset(sorted) + multiset(nodelist) == multiset(tables)
  {
    sorted, visited, nodelist := [], {}, [];
    var i := 0;
    while i < |tables|
      invariant 0 <= i <= |tables|
      invariant sorted == WithoutForeignKeys(tables[..i]) && nodelist == WithForeignKeys(tables[..i])
      invariant visited == NameSet(sorted)
      invariant forall k :: 0 <= k < |sorted| ==> !HasForeignKey(sorted[k])
    {
      assert tables[..i + 1][..i] == tables[..i];
      var t := tables[i];
      var hasfk := ScanForeignKey(t);
      if !hasfk {
        NameSetAppend(sorted, t);
        sorted := sorted + [t];
        visited := visited + {t.name};
      } else {
        nodelist := nodelist + [t];
      }
      i := i + 1;
    }
    assert tables[..i] == tables;
    SplitByForeignKey(tables);
    forall k | 0 <= k < |sorted| ensures Ready(sorted[k], NameSet(sorted[..k])) {
      assert !HasForeignKey(sorted[k]);
    }
  }

  /**
   * One pass of step 2: `for table in nodelist`, appending every table whose
   * foreign keys are met and removing it from `nodelist` on the spot, so that
   * the iterator then passes over the table that moved into its place.
   */
  method SortPass(sorted0: seq<Table>, visited0: set<string>, nodelist0: seq<Table>)
    returns (sorted: seq<Table>, visited: set<string>, nodelist: seq<Table>)
    requires visited0 == NameSet(sorted0) && DependenciesFirst(sorted0)
    ensures visited == NameSet(sorted) && DependenciesFirst(sorted)
    ensures multiset(sorted) + multiset(nodelist) == multiset(sorted0) + multiset(nodelist0)
    ensures |sorted0| <= |sorted| && sorted[..|sorted0|] == sorted0
    ensures |nodelist| <= |nodelist0|
    ensures |nodelist| == |nodelist0| ==> nodelist == nodelist0 && sorted == sorted0
    ensures |nodelist| == |nodelist0| ==> forall t :: t in nodelist ==> !Ready(t, visited)
    ensures SortState(sorted, visited, nodelist) == PassFrom(SortState(sorted0, visited0, nodelist0), 0)
  {
    sorted, visited, nodelist := sorted0, visited0, nodelist0;
    var idx := 0;
    while idx < |nodelist|
      invariant 0 <= idx <= |nodelist| + 1
      invariant PassFrom(SortState(sorted, visited, nodelist), idx) == PassFrom(SortState(sorted0, visited0, nodelist0), 0)
      decreases |nodelist| + 1 - idx
    {
      var t := nodelist[idx];
      var at := idx;
      idx := idx + 1;
      var ok := AllDepsVisited(t, visited);
      if ok {
        sorted := sorted + [t];
        visited := visited + {t.name};
        nodelist := nodelist[..at] + nodelist[at + 1..];
      }
    }
    PassFromFacts(SortState(sorted0, visited0, nodelist0), 0);
    forall t | t in nodelist0 && |nodelist| == |nodelist0| ensures !Ready(t, visited) {
      var j :| 0 <= j < |nodelist0| && nodelist0[j] == t;
    }
  }

  /**
   * What a pass from position `idx` keeps: `visited` names the output, the
   * output has dependencies first and keeps the earlier output as a prefix, no
   * table is lost, and a pass that removes nothing saw no ready table.
   */
  lemma {:induction false} PassFromFacts(s: SortState, idx: nat)
    requires idx <= |s.nodelist| + 1
    requires s.visited == NameSet(s.sorted) && DependenciesFirst(s.sorted)
    ensures var r := PassFrom(s, idx);
            && r.visited == NameSet(r.sorted) && DependenciesFirst(r.sorted)
            && multiset(r.sorted) + multiset(r.nodelist) == multiset(s.sorted) + multiset(s.nodelist)
            && |s.sorted| <= |r.sorted| && r.sorted[..|s.sorted|] == s.sorted
            && (|r.nodelist| == |s.nodelist| ==> forall j :: idx <= j < |s.nodelist| ==> !Ready(s.nodelist[j], s.visited))
    decreases |s.nodelist| + 1 - idx
  {
    if idx < |s.nodelist| {
      var t := s.nodelist[idx];
      if Ready(t, s.visited) {
        var n := SortState(s.sorted + [t], s.visited + {t.name}, s.nodelist[..idx] + s.nodelist[idx + 1..]);
        AppendReady(s.sorted, t);
        NameSetAppend(s.sorted, t);
        RemoveAt(s.nodelist, idx);
        PassFromFacts(n, idx + 1);
        var r := PassFrom(n, idx + 1);
        assert r.sorted[..|s.sorted|] == r.sorted[..|n.sorted|][..|s.sorted|];
      } else {
        PassFromFacts(s, idx + 1);
      }
    }
  }

  /** Removing the entry at `i` takes exactly that entry out of the multiset. */
  lemma RemoveAt<T>(s: seq<T>, i: nat)
    requires i < |s|
    ensures |s[..i] + s[i + 1..]| == |s| - 1
    ensures multiset(s) == multiset(s[..i] + s[i + 1..]) + multiset{s[i]}
  {
    assert s == s[..i] + [s[i]] + s[i + 1..];
  }

  /**
   * `TopoSort.sort(tables)`. The tables without a foreign key come first, in
   * input order; then passes over the remaining tables append each table whose
   * foreign keys all refer to an appended table or to itself, until none remain.
   */
  method TopoSort(tables: seq<Table>) returns (r: SortOutcome)
    ensures DependenciesFirst(r.order)
    ensures |WithoutForeignKeys(tables)| <= |r.order| && r.order[..|WithoutForeignKeys(tables)|] == WithoutForeignKeys(tables)
    ensures r.Sorted? ==> multiset(r.order) == multiset(tables)
    ensures r.Stuck? ==> multiset(r.order) + multiset(r.pending) == multiset(tables)
    ensures r.Stuck? ==> r.pending != [] && forall t :: t in r.pending ==> !Ready(t, NameSet(r.order))
    ensures r == SortOf(tables)
  {
    var sorted, visited, nodelist := SeedOrder(tables);
    ghost var seed := sorted;
    assert sorted[..|seed|] == seed;
    while |nodelist| > 0
      invariant visited == NameSet(sorted) && DependenciesFirst(sorted)
      invariant multiset(sorted) + multiset(nodelist) == multiset(tables)
      invariant |seed| <= |sorted| && sorted[..|seed|] == seed
      invariant Passes(SortState(sorted, visited, nodelist)) == SortOf(tables)
      decreases |nodelist|
    {
      var before := sorted;
      var pending := nodelist;
      sorted, visited, nodelist := SortPass(sorted, visited, nodelist);
      assert sorted[..|seed|] == sorted[..|before|][..|seed|];
      if |nodelist| == |pending| {
        return Stuck(sorted, nodelist);
      }
    }
    r := Sorted(sorted);
  }

  /**
   * The entry after a removed one waits for the next pass: with `x` output and
   * `a` and `b` both ready, the first pass over `[a, b]` appends only `a`, and
   * `b` is appended by the second pass.
   */
  lemma PassSkipsNextEntry(x: Table, a: Table, b: Table)
    requires !HasForeignKey(x) && HasForeignKey(a) && HasForeignKey(b)
    requires Ready(a, {x.name}) && Ready(b, {x.name})
    ensures PassFrom(SortState([x], {x.name}, [a, b]), 0) == SortState([x, a], {x.name, a.name}, [b])
    ensures SortOf([x, a, b]) == Sorted([x, a, b])
  {
    var s0 := SortState([x], {x.name}, [a, b]);
    var s1 := SortState([x, a], {x.name, a.name}, [b]);
    var s2 := SortState([x, a, b], {x.name, a.name, b.name}, []);
    assert [a, b][..0] + [a, b][1..] == [b];
    assert PassFrom(s0, 0) == PassFrom(s1, 1);
    assert PassFrom(s0, 0) == s1;
    assert Ready(b, {x.name, a.name});
    assert [b][..0] + [b][1..] == [];
    assert PassFrom(s1, 0) == PassFrom(s2, 1);
    assert Passes(s1) == Sorted([x, a, b]);
    SeedOfThree(x, a, b);
    assert NameSet([x]) == {x.name} by {
      assert [x][0] == x;
    }
  }

  /** Step 1 on `[x, a, b]` outputs `x` and leaves `a` and `b` waiting. */
  lemma SeedOfThree(x: Table, a: Table, b: Table)
    requires !HasForeignKey(x) && HasForeignKey(a) && HasForeignKey(b)
    ensures WithoutForeignKeys([x, a, b]) == [x] && WithForeignKeys([x, a, b]) == [a, b]
  {
    assert [x, a, b][..2] == [x, a] && [x, a][..1] == [x] && [x][..0] == [];
    assert WithoutForeignKeys([x]) == [x] && WithForeignKeys([x]) == [];
    assert WithoutForeignKeys([x, a]) == [x] && WithForeignKeys([x, a]) == [a];
  }

  lemma NameSetAppend(s: seq<Table>, t: Table)
    ensures NameSet(s + [t]) == NameSet(s) + {t.name}
  {
    var u := s + [t];
    assert forall i :: 0 <= i < |s| ==> u[i] == s[i];
    assert u[|s|] == t;
  }

  /** Appending a table whose foreign keys are already met keeps dependencies first. */
  lemma AppendReady(order: seq<Table>, t: Table)
    requires DependenciesFirst(order) && Ready(t, NameSet(order))
    ensures DependenciesFirst(order + [t])
  {
    var u := order + [t];
    forall k | 0 <= k < |u| ensures Ready(u[k], NameSet(u[..k])) {
      if k < |order| {
        assert u[..k] == order[..k];
      } else {
        assert u[..k] == order;
      }
    }
  }

  /** The first step splits the input into the two lists without losing or adding a table. */
  lemma {:induction false} SplitByForeignKey(tables: seq<Table>)
    ensures multiset(WithoutForeignKeys(tables)) + multiset(WithForeignKeys(tables)) == multiset(tables)
  {
    if tables != [] {
      SplitByForeignKey(tables[..|tables| - 1]);
      assert tables == tables[..|tables| - 1] + [tables[|tables| - 1]];
    }
  }

  /** Without any foreign key, the first step keeps every table, in input order. */
  lemma {:induction false} NoForeignKeysKeepsAll(tables: seq<Table>)
    requires forall i :: 0 <= i < |tables| ==> !HasForeignKey(tables[i])
    ensures WithoutForeignKeys(tables) == tables
  {
    if tables != [] {
      NoForeignKeysKeepsAll(tables[..|tables| - 1]);
    }
  }

  /** An order that begins with the foreign-key-free tables and is a permutation is the input itself when no table has a foreign key. */
  lemma SortWithoutForeignKeys(tables: seq<Table>, order: seq<Table>)
    requires forall i :: 0 <= i < |tables| ==> !HasForeignKey(tables[i])
    requires |WithoutForeignKeys(tables)| <= |order| && order[..|WithoutForeignKeys(tables)|] == WithoutForeignKeys(tables)
    requires multiset(order) == multiset(tables)
    ensures order == tables
  {
    NoForeignKeysKeepsAll(tables);
    assert |order| == |multiset(order)| == |tables|;
    assert order[..|tables|] == order;
  }

  /**
   * A foreign key to a table that is neither in the input nor the table itself
   * can never be met: no permutation of the input puts dependencies first, so
   * `TopoSort` ends `Stuck` (the source loops forever).
   */
  lemma MissingReferenceNeverSorts(tables: seq<Table>, order: seq<Table>, t: Table, j: nat)
    requires t in tables && j < |t.constraints| && IsForeignKey(t.constraints[j])
    requires t.constraints[j].referenceTable != Some(t.name)
    requires forall u :: u in tables ==> Some(u.name) != t.constraints[j].referenceTable
    requires multiset(order) == multiset(tables)
    ensures !DependenciesFirst(order)
  {
    assert t in multiset(order);
    var k :| 0 <= k < |order| && order[k] == t;
    forall m | 0 <= m < k ensures Some(order[m].name) != t.constraints[j].referenceTable {
      assert order[m] in multiset(tables);
    }
    assert !Ready(order[k], NameSet(order[..k]));
  }

  /**
   * Two distinct tables whose foreign keys refer to each other can never both
   * be met when table names are unique: `TopoSort` ends `Stuck`.
   */
  lemma CycleNeverSorts(tables: seq<Table>, order: seq<Table>, a: Table, ja: nat, b: Table, jb: nat)
    requires a in tables && b in tables && a.name != b.name
    requires forall u :: u in tables && (u.name == a.name || u.name == b.name) ==> u == a || u == b
    requires ja < |a.constraints| && IsForeignKey(a.constraints[ja]) && a.constraints[ja].referenceTable == Some(b.name)
    requires jb < |b.constraints| && IsForeignKey(b.constraints[jb]) && b.constraints[jb].referenceTable == Some(a.name)
    requires multiset(order) == multiset(tables)
    ensures !DependenciesFirst(order)
  {
    assert a in multiset(order);
    var k := Partition.FirstIndex(order, TableName, a.name);
    assert k < |order| by {
      var k0 :| 0 <= k0 < |order| && order[k0] == a;
    }
    assert order[k] in multiset(tables);
    if b.name in NameSet(order[..k]) {
      var m :| 0 <= m < k && order[..k][m].name == b.name;
      assert order[m] in multiset(tables);
      assert a.name !in NameSet(order[..m]);
      assert !Ready(order[m], NameSet(order[..m]));
    } else {
      assert !Ready(order[k], NameSet(order[..k]));
    }
  }

  function TableName(t: Table): string { t.name }

  /**
   * A child table with a foreign key to its parent, listed before the parent:
   * whatever `TopoSort` returns as `Sorted` is the parent followed by the child.
   */
  lemma ParentBeforeChild(child: Table, parent: Table, order: seq<Table>)
    requires HasForeignKey(child) && !HasForeignKey(parent)
    requires |WithoutForeignKeys([child, parent])| <= |order|
    requires order[..|WithoutForeignKeys([child, parent])|] == WithoutForeignKeys([child, parent])
    requires multiset(order) == multiset([child, parent])
    ensures order == [parent, child]
  {
    assert [child, parent][..1] == [child];
    assert [child][..0] == [];
    assert WithoutForeignKeys([child]) == [];
    assert WithoutForeignKeys([child, parent]) == [parent];
    assert |order| == 2 by {
      assert |multiset(order)| == |multiset([child, parent])|;
    }
    assert order[0] == parent;
    assert multiset(order) == multiset([order[0], order[1]]) by {
      assert order == [order[0], order[1]];
    }
    assert order[1] == child;
  }
}
