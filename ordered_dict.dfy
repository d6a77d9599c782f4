/**
 * A Python `dict`: key/value pairs in insertion order. Assigning to a present key keeps its
 * position; `del` removes the key; iteration follows insertion order.
 */
module OrderedDict {
  import opened Wrappers
  import Seqs

  function Keys<K(==,!new), V>(d: seq<(K, V)>): (r: seq<K>)
    ensures |r| == |d| && forall i :: 0 <= i < |d| ==> r[i] == d[i].0
  {
    if d == [] then [] else [d[0].0] + Keys(d[1..])
  }

  predicate UniqueKeys<K(==,!new), V>(d: seq<(K, V)>) {
    Seqs.Distinct(Keys(d))
  }

  /** `d.get(k)`. */
  function Get<K(==,!new), V>(d: seq<(K, V)>, k: K): (r: Option<V>)
    ensures r.Some? <==> k in Keys(d)
  {
    if d == [] then None
    else if d[0].0 == k then Some(d[0].1)
    else assert Keys(d) == [d[0].0] + Keys(d[1..]); Get(d[1..], k)
  }

  /** With unique keys, `Get` finds the value stored beside the key. */
  lemma {:induction false} GetAt<K(!new), V>(d: seq<(K, V)>, i: nat)
    requires UniqueKeys(d) && i < |d|
    ensures Get(d, d[i].0) == Some(d[i].1)
    decreases i
  {
    if i > 0 {
      assert Keys(d)[0] != Keys(d)[i];
      assert UniqueKeys(d[1..]) by {
        forall a, b | 0 <= a < b < |d| - 1 ensures Keys(d[1..])[a] != Keys(d[1..])[b] {
          assert Keys(d)[a + 1] != Keys(d)[b + 1];
        }
      }
      GetAt(d[1..], i - 1);
    }
  }

  /** Dropping the first entry keeps the keys unique. */
  lemma TailUnique<K(!new), V>(d: seq<(K, V)>)
    requires UniqueKeys(d) && d != []
    ensures UniqueKeys(d[1..])
  {
    var keys := Keys(d);
    forall a, b | 0 <= a < b < |d| - 1 ensures Keys(d[1..])[a] != Keys(d[1..])[b] {
      assert keys[a + 1] != keys[b + 1];
    }
  }

  /** An entry whose key is new, put in front of unique entries, keeps them unique. */
  lemma ConsUnique<K(!new), V>(h: (K, V), d: seq<(K, V)>)
    requires UniqueKeys(d) && h.0 !in Keys(d)
    ensures UniqueKeys([h] + d)
  {
    var r := [h] + d;
    forall a, b | 0 <= a < b < |r| ensures Keys(r)[a] != Keys(r)[b] {
      assert Keys(r)[b] == Keys(d)[b - 1];
      if a > 0 {
        assert Keys(r)[a] == Keys(d)[a - 1];
      }
    }
  }

  /** `d[k] = v`. */
  function Put<K(==,!new), V>(d: seq<(K, V)>, k: K, v: V): (r: seq<(K, V)>)
    ensures Keys(r) == if k in Keys(d) then Keys(d) else Keys(d) + [k]
  {
    if d == [] then [(k, v)]
    else if d[0].0 == k then [(k, v)] + d[1..]
    else
      assert Keys(d) == [d[0].0] + Keys(d[1..]);
      var r := [d[0]] + Put(d[1..], k, v);
      assert Keys(r) == [d[0].0] + Keys(Put(d[1..], k, v));
      r
  }

  lemma {:induction false} PutGet<K(!new), V>(d: seq<(K, V)>, k: K, v: V, k': K)
    ensures Get(Put(d, k, v), k') == if k' == k then Some(v) else Get(d, k')
    decreases |d|
  {
    if d != [] && d[0].0 != k {
      PutGet(d[1..], k, v, k');
    }
  }

  lemma PutUnique<K(!new), V>(d: seq<(K, V)>, k: K, v: V)
    requires UniqueKeys(d)
    ensures UniqueKeys(Put(d, k, v))
  {
    if k !in Keys(d) {
      var ks := Keys(d);
      AppendFreshDistinct(ks, k);
    }
  }

  /** Appending a key not yet present keeps the keys distinct. */
  lemma AppendFreshDistinct<K>(ks: seq<K>, k: K)
    requires Seqs.Distinct(ks) && k !in ks
    ensures Seqs.Distinct(ks + [k])
  {
    var r := ks + [k];
    forall a, b | 0 <= a < b < |r| ensures r[a] != r[b] {
      assert r[a] == ks[a];
      if b < |ks| {
        assert r[b] == ks[b];
      }
    }
  }

  /** `del d[k]` (all entries with key `k`; with unique keys there is at most one). */
  function Remove<K(==,!new), V>(d: seq<(K, V)>, k: K): (r: seq<(K, V)>)
    ensures |r| <= |d|
    ensures Keys(r) == Seqs.Filter(Keys(d), x => x != k)
  {
    if d == [] then []
    else
      assert Keys(d) == [d[0].0] + Keys(d[1..]);
      if d[0].0 == k then Remove(d[1..], k)
      else
        var r := [d[0]] + Remove(d[1..], k);
        assert Keys(r) == [d[0].0] + Keys(Remove(d[1..], k));
        r
  }

  lemma {:induction false} RemoveGet<K(!new), V>(d: seq<(K, V)>, k: K, k': K)
    ensures Get(Remove(d, k), k') == if k' == k then None else Get(d, k')
    decreases |d|
  {
    if d != [] {
      RemoveGet(d[1..], k, k');
    }
  }

  lemma {:induction false} RemoveUnique<K(!new), V>(d: seq<(K, V)>, k: K)
    requires UniqueKeys(d)
    ensures UniqueKeys(Remove(d, k))
    decreases |d|
  {
    if d != [] {
      assert Keys(d) == [d[0].0] + Keys(d[1..]);
      RemoveUnique(d[1..], k);
      var r := Remove(d, k);
      if d[0].0 != k {
        assert Keys(r) == [d[0].0] + Keys(Remove(d[1..], k));
        assert d[0].0 !in Keys(Remove(d[1..], k));
      }
    }
  }

  /** Removing a present key shortens the dict by exactly one entry. */
  lemma {:induction false} RemoveLength<K(!new), V>(d: seq<(K, V)>, k: K)
    requires UniqueKeys(d)
    ensures |Remove(d, k)| == if k in Keys(d) then |d| - 1 else |d|
    decreases |d|
  {
    if d != [] {
      assert Keys(d) == [d[0].0] + Keys(d[1..]);
      if d[0].0 == k {
        assert Remove(d[1..], k) == d[1..] by {
          RemoveAbsent(d[1..], k);
        }
      } else {
        RemoveLength(d[1..], k);
      }
    }
  }

  lemma {:induction false} RemoveAbsent<K(!new), V>(d: seq<(K, V)>, k: K)
    requires k !in Keys(d)
    ensures Remove(d, k) == d
    decreases |d|
  {
    if d != [] {
      assert Keys(d) == [d[0].0] + Keys(d[1..]);
      RemoveAbsent(d[1..], k);
    }
  }

  /** The pairs after `d[k] = v` are the old pairs and `(k, v)`. */
  lemma {:induction false} PutMembers<K(!new), V>(d: seq<(K, V)>, k: K, v: V)
    ensures forall x :: x in Put(d, k, v) ==> x in d || x == (k, v)
    decreases |d|
  {
    if d != [] && d[0].0 != k {
      PutMembers(d[1..], k, v);
    }
  }

  /** `del d[k]` keeps only old pairs. */
  lemma {:induction false} RemoveMembers<K(!new), V>(d: seq<(K, V)>, k: K)
    ensures forall x :: x in Remove(d, k) ==> x in d
    decreases |d|
  {
    if d != [] {
      RemoveMembers(d[1..], k);
      if d[0].0 != k {
        assert Remove(d, k) == [d[0]] + Remove(d[1..], k);
      } else {
        assert Remove(d, k) == Remove(d[1..], k);
      }
    }
  }

  /** A value found by `Get` is stored beside its key. */
  lemma {:induction false} GetMember<K(!new), V>(d: seq<(K, V)>, k: K)
    requires Get(d, k).Some?
    ensures (k, Get(d, k).value) in d
    decreases |d|
  {
    if d[0].0 != k {
      GetMember(d[1..], k);
    }
  }

  /** `dict(d)`: a snapshot of the contents as a map. */
  function ToMap<K(==,!new), V>(d: seq<(K, V)>): (m: map<K, V>)
    ensures forall k :: k in m <==> k in Keys(d)
    ensures forall k :: k in m ==> Get(d, k) == Some(m[k])
  {
    map k | k in Keys(d) :: Get(d, k).value
  }
}
