/** Python's `dict`, which remembers the order in which its keys were first inserted. */
module OrderedMaps {
  import opened Wrappers

  /** `keys` lists every key of `m` once, in first-insertion order. */
  datatype OrdMap<K(==, !new), V> = OrdMap(keys: seq<K>, m: map<K, V>) {

    ghost predicate Valid() {
      && (forall i, j :: 0 <= i < j < |keys| ==> keys[i] != keys[j])
      && (forall k :: k in m <==> k in keys)
    }

    /** `d.get(k)` */
    function Get(k: K): (r: Option<V>)
      ensures r.Some? <==> k in m
      ensures r.Some? ==> r.value == m[k]
    {
      if k in m then Some(m[k]) else None
    }

    /** `d[k] = v`: a new key goes to the end, an existing key keeps its place. */
    function Put(k: K, v: V): (r: OrdMap<K, V>)
      requires Valid()
      ensures r.Valid()
      ensures r.m == m[k := v]
      ensures k in m ==> r.keys == keys
      ensures k !in m ==> r.keys == keys + [k]
    {
      if k in m then OrdMap(keys, m[k := v]) else OrdMap(keys + [k], m[k := v])
    }

    /** `d[k] = v` for a key that is present: the key order stays as it is. */
    function Set(k: K, v: V): (r: OrdMap<K, V>)
      requires k in m
      ensures r.keys == keys && r.m == m[k := v]
      ensures Valid() ==> r.Valid()
    {
      OrdMap(keys, m[k := v])
    }

    /** `del d[k]` for a key that is present. */
    function Remove(k: K): (r: OrdMap<K, V>)
      requires Valid() && k in m
      ensures r.Valid()
      ensures r.m == m - {k}
      ensures forall x :: x in r.keys <==> x in keys && x != k
      ensures |r.keys| == |keys| - 1
      ensures r.keys == Without(keys, k)
      ensures forall i :: 0 <= i < |keys| && keys[i] == k ==> r.keys == keys[..i] + keys[i + 1..]
    {
      RemoveKeyLength(keys, k);
      WithoutDistinct(keys, k);
      forall i | 0 <= i < |keys| && keys[i] == k
        ensures Without(keys, k) == keys[..i] + keys[i + 1..]
      {
        WithoutAt(keys, i);
      }
      OrdMap(Without(keys, k), m - {k})
    }

    /** `list(d.values())`, in key order. */
    function Values(): (r: seq<V>)
      requires Valid()
      ensures |r| == |keys|
      ensures forall i :: 0 <= i < |keys| ==> r[i] == m[keys[i]]
    {
      ValuesOf(keys, m)
    }
  }

  function Empty<K(==, !new), V>(): (r: OrdMap<K, V>)
    ensures r.Valid() && r.keys == [] && r.m == map[]
  {
    OrdMap([], map[])
  }

  /** `ks` with every occurrence of `k` taken out, the rest in order. */
  function Without<K(==, !new)>(ks: seq<K>, k: K): (r: seq<K>)
    ensures forall x :: x in r <==> x in ks && x != k
  {
    if ks == [] then []
    else if ks[0] == k then Without(ks[1..], k)
    else [ks[0]] + Without(ks[1..], k)
  }

  /** Taking `k` out of two lists one after the other takes it out of each. */
  lemma {:induction false} WithoutConcat<K(!new)>(a: seq<K>, b: seq<K>, k: K)
    ensures Without(a + b, k) == Without(a, k) + Without(b, k)
  {
    if a != [] {
      assert (a + b)[0] == a[0] && (a + b)[1..] == a[1..] + b;
      WithoutConcat(a[1..], b, k);
    } else {
      assert a + b == b;
    }
  }

  /** With distinct keys, taking out the key at `i` closes the gap and keeps every other key in its order. */
  lemma {:induction false} WithoutAt<K(!new)>(ks: seq<K>, i: nat)
    requires forall x, y :: 0 <= x < y < |ks| ==> ks[x] != ks[y]
    requires i < |ks|
    ensures Without(ks, ks[i]) == ks[..i] + ks[i + 1..]
    decreases i
  {
    var k := ks[i];
    var tail := ks[1..];
    if i == 0 {
      assert k !in tail by {
        forall y | 0 <= y < |tail| ensures tail[y] != k {
          assert tail[y] == ks[y + 1];
        }
      }
      WithoutAbsent(tail, k);
      assert ks[..0] + ks[1..] == tail;
    } else {
      assert ks[0] != k;
      assert tail[i - 1] == k;
      forall x, y | 0 <= x < y < |tail| ensures tail[x] != tail[y] {
        assert tail[x] == ks[x + 1] && tail[y] == ks[y + 1];
      }
      WithoutAt(tail, i - 1);
      assert ks[..i] == [ks[0]] + tail[..i - 1];
      assert ks[i + 1..] == tail[i..];
    }
  }

  lemma {:induction false} RemoveKeyLength<K(!new)>(ks: seq<K>, k: K)
    requires forall i, j :: 0 <= i < j < |ks| ==> ks[i] != ks[j]
    requires k in ks
    ensures |Without(ks, k)| == |ks| - 1
  {
    if ks[0] == k {
      assert k !in ks[1..];
      WithoutAbsent(ks[1..], k);
    } else {
      RemoveKeyLength(ks[1..], k);
    }
  }

  lemma {:induction false} WithoutDistinct<K(!new)>(ks: seq<K>, k: K)
    requires forall i, j :: 0 <= i < j < |ks| ==> ks[i] != ks[j]
    ensures forall i, j :: 0 <= i < j < |Without(ks, k)| ==> Without(ks, k)[i] != Without(ks, k)[j]
  {
    if ks != [] {
      WithoutDistinct(ks[1..], k);
      assert ks[0] !in ks[1..];
    }
  }

  lemma {:induction false} WithoutAbsent<K(!new)>(ks: seq<K>, k: K)
    requires k !in ks
    ensures Without(ks, k) == ks
  {
    if ks != [] {
      WithoutAbsent(ks[1..], k);
    }
  }

  function ValuesOf<K(==, !new), V>(ks: seq<K>, m: map<K, V>): (r: seq<V>)
    requires forall k :: k in ks ==> k in m
    ensures |r| == |ks|
    ensures forall i :: 0 <= i < |ks| ==> r[i] == m[ks[i]]
  {
    if ks == [] then [] else [m[ks[0]]] + ValuesOf(ks[1..], m)
  }
}
