/**
 * The older schema comparison (schema/compare.py): table names are matched
 * exactly, by list membership, with no canonicalization hook. Its
 * `diff_procedure_list` is the same code as the newer one and is
 * `Compare.DiffProcedureList`.
 */
module LegacyCompare {
  import opened Wrappers
  import Compare
  import Partition

  /**
   * `SchemaCompare.diff_table_list()`: every db1 name goes to `both` or `only1`
   * in db1 order, and `only2` is the db2 names absent from db1, in db2 order.
   */
  method DiffTableList(l1: seq<string>, l2: seq<string>) returns (r: Compare.NameListDiff)
    ensures r == Compare.NameListDiffOf(l1, l2)
    ensures multiset(r.both) + multiset(r.only1) == multiset(l1)
    ensures forall x :: x in r.both <==> x in l1 && x in l2
    ensures forall x :: x in r.only1 <==> x in l1 && x !in l2
    ensures forall x :: x in r.only2 <==> x in l2 && x !in l1
  {
    r := Compare.DiffNames(l1, l2);
    Compare.PresentSplits(l1, l2);
    forall x ensures (x in r.both <==> x in l1 && x in l2) && (x in r.only1 <==> x in l1 && x !in l2)
                  && (x in r.only2 <==> x in l2 && x !in l1)
    {
      Compare.PresentMember(l1, l2, true, x);
      Compare.PresentMember(l1, l2, false, x);
      Compare.PresentMember(l2, l1, false, x);
    }
  }

  /** Swapping the two databases swaps `only1` and `only2` and keeps the names both have. */
  lemma {:induction false} SwapSwapsOnly(l1: seq<string>, l2: seq<string>)
    ensures Compare.NameListDiffOf(l2, l1).only1 == Compare.NameListDiffOf(l1, l2).only2
    ensures Compare.NameListDiffOf(l2, l1).only2 == Compare.NameListDiffOf(l1, l2).only1
    ensures forall x :: x in Compare.NameListDiffOf(l2, l1).both <==> x in Compare.NameListDiffOf(l1, l2).both
  {
    forall x ensures x in Compare.NameListDiffOf(l2, l1).both <==> x in Compare.NameListDiffOf(l1, l2).both {
      Compare.PresentMember(l1, l2, true, x);
      Compare.PresentMember(l2, l1, true, x);
    }
  }

  /** A name looked up among self-paired names finds its own pair exactly when it is listed. */
  lemma SelfPairsLookup(l: seq<string>, x: string)
    ensures Partition.Lookup(Compare.SelfPairs(l), Compare.CanonKey, x) == if x in l then Some((x, x)) else None
  {
    var p := Compare.SelfPairs(l);
    Compare.SelfPairsAt(l);
    Partition.LookupNone(p, Compare.CanonKey, x);
    if x in l {
      var j :| 0 <= j < |l| && l[j] == x;
      assert Compare.CanonKey(p[j]) == x;
    }
  }

  lemma SelfPairsAppend(s: seq<string>, x: string)
    ensures Compare.SelfPairs(s + [x]) == Compare.SelfPairs(s) + [(x, x)]
  {
    assert (s + [x])[..|s|] == s;
  }

  /** Matching self-paired lists by canonical name is matching the names by membership. */
  lemma {:induction false} MatchedSelf(l1: seq<string>, l2: seq<string>)
    ensures Compare.Matched(Compare.SelfPairs(l1), Compare.SelfPairs(l2)) == Compare.SelfPairs(Compare.Present(l1, l2, true))
    ensures Compare.Unmatched(Compare.SelfPairs(l1), Compare.SelfPairs(l2)) == Compare.SelfPairs(Compare.Present(l1, l2, false))
  {
    if l1 != [] {
      var init, x := l1[..|l1| - 1], l1[|l1| - 1];
      MatchedSelf(init, l2);
      var p1 := Compare.SelfPairs(l1);
      assert p1 == Compare.SelfPairs(init) + [(x, x)];
      assert p1[..|p1| - 1] == Compare.SelfPairs(init);
      SelfPairsLookup(l2, x);
      SelfPairsAppend(Compare.Present(init, l2, true), x);
      SelfPairsAppend(Compare.Present(init, l2, false), x);
    }
  }

  /**
   * The newer `diff_table_list` without a canonicalizer returns the older
   * result with every name paired with itself.
   */
  lemma TableListAgrees(l1: seq<string>, l2: seq<string>)
    ensures var d := Compare.TableListDiffOf(l1, l2, None);
            var n := Compare.NameListDiffOf(l1, l2);
            d.both == Compare.SelfPairs(n.both) && d.only1 == Compare.SelfPairs(n.only1) && d.only2 == Compare.SelfPairs(n.only2)
  {
    Compare.NoCanonSelfPairs(l1);
    Compare.NoCanonSelfPairs(l2);
    MatchedSelf(l1, l2);
    MatchedSelf(l2, l1);
  }
}
