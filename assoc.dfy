/**
 * PHP arrays as ordered association lists: a key appears once, assigning to
 * an existing key keeps its position, assigning to a new key appends it.
 */
module Assoc {
  import opened Wrappers

  function Keys<K(!new), V(!new)>(a: seq<(K, V)>): (ks: seq<K>)
    ensures |ks| == |a|
    ensures forall i :: 0 <= i < |a| ==> ks[i] == a[i].0
  {
    if a == [] then [] else [a[0].0] + Keys(a[1..])
  }

  /** No key occurs twice: what every PHP array satisfies. */
  predicate UniqueKeys<K(==,!new), V(!new)>(a: seq<(K, V)>)
  {
    forall i, j :: 0 <= i < j < |a| ==> a[i].0 != a[j].0
  }

  /** `$a[$k] ?? null`. */
  function Get<K(==,!new), V(!new)>(a: seq<(K, V)>, k: K): (r: Option<V>)
    ensures r.None? <==> k !in Keys(a)
  {
    if a == [] then None
    else if a[0].0 == k then Some(a[0].1)
    else Get(a[1..], k)
  }

  /** What `Get` finds is an entry of the array. */
  lemma {:induction false} GetIn<K(!new), V(!new)>(a: seq<(K, V)>, k: K)
    ensures Get(a, k).Some? ==> (k, Get(a, k).value) in a
  {
    if a != [] && a[0].0 != k {
      GetIn(a[1..], k);
    }
  }

  /** With unique keys, `Get` finds the value of the one entry with that key. */
  lemma {:induction false} GetUnique<K(!new), V(!new)>(a: seq<(K, V)>, i: nat)
    requires UniqueKeys(a) && i < |a|
    ensures Get(a, a[i].0) == Some(a[i].1)
  {
    if i > 0 {
      assert UniqueKeys(a[1..]);
      GetUnique(a[1..], i - 1);
    }
  }

  /** Position of the first entry with key `k`. */
  function IndexOf<K(==,!new), V(!new)>(a: seq<(K, V)>, k: K): (i: nat)
    requires k in Keys(a)
    ensures i < |a| && a[i].0 == k
    ensures forall j :: 0 <= j < i ==> a[j].0 != k
  {
    if a[0].0 == k then 0
    else
      assert Keys(a) == [a[0].0] + Keys(a[1..]);
      1 + IndexOf(a[1..], k)
  }

  /** `$a[$k] = $v`. */
  function Put<K(==,!new), V(!new)>(a: seq<(K, V)>, k: K, v: V): (r: seq<(K, V)>)
    ensures Keys(r) == if k in Keys(a) then Keys(a) else Keys(a) + [k]
    ensures Get(r, k) == Some(v)
    ensures forall k' :: k' != k ==> Get(r, k') == Get(a, k')
    ensures UniqueKeys(a) ==> UniqueKeys(r)
  {
    if k in Keys(a) then
      var i := IndexOf(a, k);
      var r := a[i := (k, v)];
      assert Keys(r) == Keys(a);
      GetUpdate(a, i, k, v);
      r
    else
      var r := a + [(k, v)];
      assert Keys(r) == Keys(a) + [k];
      GetAppend(a, k, v);
      r
  }

  lemma {:induction false} GetUpdate<K(!new), V(!new)>(a: seq<(K, V)>, i: nat, k: K, v: V)
    requires i < |a| && a[i].0 == k
    requires forall j :: 0 <= j < i ==> a[j].0 != k
    ensures Get(a[i := (k, v)], k) == Some(v)
    ensures forall k' :: k' != k ==> Get(a[i := (k, v)], k') == Get(a, k')
  {
    var r := a[i := (k, v)];
    if i > 0 {
      GetUpdate(a[1..], i - 1, k, v);
      assert r[1..] == a[1..][i - 1 := (k, v)];
    } else {
      assert r[1..] == a[1..];
    }
  }

  lemma {:induction false} GetAppend<K(!new), V(!new)>(a: seq<(K, V)>, k: K, v: V)
    requires k !in Keys(a)
    ensures Get(a + [(k, v)], k) == Some(v)
    ensures forall k' :: k' != k ==> Get(a + [(k, v)], k') == Get(a, k')
  {
    if a != [] {
      assert Keys(a) == [a[0].0] + Keys(a[1..]);
      GetAppend(a[1..], k, v);
      assert (a + [(k, v)])[1..] == a[1..] + [(k, v)];
    }
  }

  /** `unset($a[$k])` and `array_diff_key($a, [$k => ...])`: the entries whose key is not `k`, in order. */
  function Remove<K(==,!new), V(!new)>(a: seq<(K, V)>, k: K): (r: seq<(K, V)>)
    ensures forall e :: e in r <==> e in a && e.0 != k
    ensures k !in Keys(r)
    ensures forall k' :: k' != k ==> Get(r, k') == Get(a, k')
  {
    if a == [] then []
    else if a[0].0 == k then Remove(a[1..], k)
    else
      var rest := Remove(a[1..], k);
      assert ([a[0]] + rest)[1..] == rest;
      [a[0]] + rest
  }

  /** `reset($a)`: the first value, or PHP's `false` (here `None`) for an empty array. */
  function First<K(!new), V(!new)>(a: seq<(K, V)>): (r: Option<V>)
    ensures r.Some? <==> a != []
    ensures a != [] ==> r.value == a[0].1
  {
    if a == [] then None else Some(a[0].1)
  }

  /** `array_intersect_key($r, array_flip($ks))`: the entries of `r` whose key is in `ks`, in order. */
  function Only<K(==,!new), V(!new)>(r: seq<(K, V)>, ks: set<K>): (w: seq<(K, V)>)
    ensures forall k :: k in ks ==> Get(w, k) == Get(r, k)
    ensures forall k :: k !in ks ==> Get(w, k) == None
    ensures forall e :: e in w ==> e in r
  {
    if r == [] then []
    else if r[0].0 !in ks then Only(r[1..], ks)
    else
      var rest := Only(r[1..], ks);
      assert ([r[0]] + rest)[1..] == rest;
      [r[0]] + rest
  }

  /** The entries of `r` whose key is not in `ks`, in order. */
  function Without<K(==,!new), V(!new)>(r: seq<(K, V)>, ks: set<K>): (w: seq<(K, V)>)
    ensures forall k :: k !in ks ==> Get(w, k) == Get(r, k)
    ensures forall k :: k in ks ==> Get(w, k) == None
  {
    if r == [] then []
    else if r[0].0 in ks then Without(r[1..], ks)
    else
      var rest := Without(r[1..], ks);
      assert ([r[0]] + rest)[1..] == rest;
      [r[0]] + rest
  }

  lemma {:induction false} GetConcat<K(!new), V(!new)>(a: seq<(K, V)>, b: seq<(K, V)>, k: K)
    ensures Get(a + b, k) == if k in Keys(a) then Get(a, k) else Get(b, k)
  {
    if a == [] {
      assert a + b == b;
    } else {
      var ab := a + b;
      assert ab[0] == a[0];
      assert ab[1..] == a[1..] + b;
      assert k in Keys(a) <==> a[0].0 == k || k in Keys(a[1..]) by {
        assert Keys(a) == [a[0].0] + Keys(a[1..]);
      }
      if a[0].0 != k {
        GetConcat(a[1..], b, k);
      }
    }
  }

  /** Two arrays without a key in common, each with unique keys, concatenate to one with unique keys. */
  lemma UniqueConcat<K(!new), V(!new)>(a: seq<(K, V)>, b: seq<(K, V)>)
    requires forall i, j :: 0 <= i < j < |Keys(a)| ==> Keys(a)[i] != Keys(a)[j]
    requires forall i, j :: 0 <= i < j < |Keys(b)| ==> Keys(b)[i] != Keys(b)[j]
    requires forall k :: k in Keys(a) ==> k !in Keys(b)
    ensures UniqueKeys(a + b)
  {
    var ab := a + b;
    forall i, j | 0 <= i < j < |ab| ensures ab[i].0 != ab[j].0 {
      if j < |a| {
        assert Keys(a)[i] != Keys(a)[j];
      } else if i >= |a| {
        assert Keys(b)[i - |a|] != Keys(b)[j - |a|];
      } else {
        assert Keys(a)[i] in Keys(a) && Keys(b)[j - |a|] in Keys(b);
      }
    }
  }

  /** With unique keys, the last entry is found by its key and hides nothing of the others. */
  lemma GetLast<K(!new), V(!new)>(a: seq<(K, V)>, k: K)
    requires UniqueKeys(a) && a != []
    ensures UniqueKeys(a[..|a| - 1])
    ensures a[|a| - 1].0 !in Keys(a[..|a| - 1])
    ensures Get(a, k) == if k == a[|a| - 1].0 then Some(a[|a| - 1].1) else Get(a[..|a| - 1], k)
  {
    UniqueInit(a);
    LastNotInInit(a);
    GetSnoc(a, k);
  }

  lemma UniqueInit<K(!new), V(!new)>(a: seq<(K, V)>)
    requires UniqueKeys(a) && a != []
    ensures UniqueKeys(a[..|a| - 1])
  {
    var init := a[..|a| - 1];
    forall i, j | 0 <= i < j < |init| ensures init[i].0 != init[j].0 {
      assert init[i] == a[i] && init[j] == a[j];
    }
  }

  lemma LastNotInInit<K(!new), V(!new)>(a: seq<(K, V)>)
    requires UniqueKeys(a) && a != []
    ensures a[|a| - 1].0 !in Keys(a[..|a| - 1])
  {
    var init := a[..|a| - 1];
    forall j | 0 <= j < |init| ensures Keys(init)[j] != a[|a| - 1].0 {
      assert init[j] == a[j];
    }
  }

  lemma GetSnoc<K(!new), V(!new)>(a: seq<(K, V)>, k: K)
    requires a != []
    ensures Get(a, k) == if k in Keys(a[..|a| - 1]) then Get(a[..|a| - 1], k)
                         else if k == a[|a| - 1].0 then Some(a[|a| - 1].1) else None
  {
    var init := a[..|a| - 1];
    var last := a[|a| - 1];
    assert a == init + [last];
    GetConcat(init, [last], k);
    assert [last][1..] == [];
  }

  /** PHP's array `+`: every entry of `l`, then the entries of `r` whose key `l` lacks. */
  function Union<K(==,!new), V(!new)>(l: seq<(K, V)>, r: seq<(K, V)>): (u: seq<(K, V)>)
    ensures forall k :: Get(u, k) == if k in Keys(l) then Get(l, k) else Get(r, k)
  {
    var u := l + Without(r, set k | k in Keys(l));
    assert forall k :: Get(u, k) == if k in Keys(l) then Get(l, k) else Get(r, k) by {
      forall k ensures Get(u, k) == if k in Keys(l) then Get(l, k) else Get(r, k) {
        GetConcat(l, Without(r, set k | k in Keys(l)), k);
      }
    }
    u
  }
}
