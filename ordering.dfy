/**
 * `ORDER BY key [ASC|DESC]` and pandas' stable `nlargest`: a sort on an integer key whose
 * ties are broken by a second integer key (a row id, or the row's original position).
 */
module Ordering {
  import Seqs

  /** `a` comes strictly before `b`: by `key` (descending when `desc`), then by `tie` ascending. */
  predicate Precedes<T>(key: T -> int, tie: T -> int, desc: bool, a: T, b: T) {
    if key(a) != key(b) then (if desc then key(a) > key(b) else key(a) < key(b)) else tie(a) < tie(b)
  }

  predicate Sorted<T>(key: T -> int, tie: T -> int, desc: bool, s: seq<T>) {
    forall i, j :: 0 <= i < j < |s| ==> !Precedes(key, tie, desc, s[j], s[i])
  }

  /** "Not strictly after" is transitive: the order is a total preorder. */
  lemma NotPrecedesTransitive<T>(key: T -> int, tie: T -> int, desc: bool, a: T, b: T, c: T)
    requires !Precedes(key, tie, desc, a, b) && !Precedes(key, tie, desc, b, c)
    ensures !Precedes(key, tie, desc, a, c)
  {
  }

  function Insert<T>(key: T -> int, tie: T -> int, desc: bool, x: T, s: seq<T>): (r: seq<T>)
    ensures |r| == |s| + 1 && multiset(r) == multiset(s) + multiset{x}
  {
    if s == [] || !Precedes(key, tie, desc, s[0], x) then [x] + s
    else
      assert s == [s[0]] + s[1..];
      [s[0]] + Insert(key, tie, desc, x, s[1..])
  }

  lemma {:induction false} InsertSorted<T>(key: T -> int, tie: T -> int, desc: bool, x: T, s: seq<T>)
    requires Sorted(key, tie, desc, s)
    ensures Sorted(key, tie, desc, Insert(key, tie, desc, x, s))
    decreases |s|
  {
    if s == [] || !Precedes(key, tie, desc, s[0], x) {
      InsertFront(key, tie, desc, x, s);
    } else {
      var rest := Insert(key, tie, desc, x, s[1..]);
      assert Sorted(key, tie, desc, s[1..]);
      InsertSorted(key, tie, desc, x, s[1..]);
      InsertAfterHead(key, tie, desc, x, s);
      ConsSorted(key, tie, desc, s[0], rest);
    }
  }

  /** `x` placed before a sorted sequence whose head does not precede it. */
  lemma InsertFront<T>(key: T -> int, tie: T -> int, desc: bool, x: T, s: seq<T>)
    requires Sorted(key, tie, desc, s) && (s == [] || !Precedes(key, tie, desc, s[0], x))
    ensures Sorted(key, tie, desc, [x] + s)
  {
    var r := [x] + s;
    forall i, j | 0 <= i < j < |r| ensures !Precedes(key, tie, desc, r[j], r[i]) {
      if i == 0 && j > 1 {
        NotPrecedesTransitive(key, tie, desc, s[j - 1], s[0], x);
      } else if i > 0 {
        assert r[i] == s[i - 1] && r[j] == s[j - 1];
      }
    }
  }

  /** When `x` goes after the head, nothing in the rest of the insertion precedes the head. */
  lemma InsertAfterHead<T>(key: T -> int, tie: T -> int, desc: bool, x: T, s: seq<T>)
    requires Sorted(key, tie, desc, s) && s != [] && Precedes(key, tie, desc, s[0], x)
    ensures forall j :: 0 <= j < |Insert(key, tie, desc, x, s[1..])| ==>
      !Precedes(key, tie, desc, Insert(key, tie, desc, x, s[1..])[j], s[0])
  {
    var rest := Insert(key, tie, desc, x, s[1..]);
    forall j | 0 <= j < |rest| ensures !Precedes(key, tie, desc, rest[j], s[0]) {
      assert rest[j] in multiset(rest);
      if rest[j] != x {
        assert rest[j] in multiset(s[1..]);
        var k :| 0 <= k < |s[1..]| && s[1..][k] == rest[j];
        assert s[k + 1] == rest[j];
      }
    }
  }

  /** A head that nothing in a sorted tail precedes, followed by that tail, is sorted. */
  lemma ConsSorted<T>(key: T -> int, tie: T -> int, desc: bool, h: T, rest: seq<T>)
    requires Sorted(key, tie, desc, rest)
    requires forall j :: 0 <= j < |rest| ==> !Precedes(key, tie, desc, rest[j], h)
    ensures Sorted(key, tie, desc, [h] + rest)
  {
    var r := [h] + rest;
    forall i, j | 0 <= i < j < |r| ensures !Precedes(key, tie, desc, r[j], r[i]) {
      if i == 0 {
        assert r[j] == rest[j - 1];
      } else {
        assert r[i] == rest[i - 1] && r[j] == rest[j - 1];
      }
    }
  }

  /** The sorted permutation of `s` (insertion sort). */
  function SortBy<T>(key: T -> int, tie: T -> int, desc: bool, s: seq<T>): (r: seq<T>)
    ensures |r| == |s| && multiset(r) == multiset(s)
  {
    if s == [] then []
    else
      assert s == [s[0]] + s[1..];
      Insert(key, tie, desc, s[0], SortBy(key, tie, desc, s[1..]))
  }

  lemma {:induction false} SortBySorted<T>(key: T -> int, tie: T -> int, desc: bool, s: seq<T>)
    ensures Sorted(key, tie, desc, SortBy(key, tie, desc, s))
    decreases |s|
  {
    if s != [] {
      SortBySorted(key, tie, desc, s[1..]);
      InsertSorted(key, tie, desc, s[0], SortBy(key, tie, desc, s[1..]));
    }
  }

  /**
   * `ORDER BY key LIMIT n` and `nlargest(n)`: the first `n` rows of the sort, or all of them for a
   * negative `n` (SQLite's `LIMIT -1`). The result is drawn from `s` without repeats beyond
   * `s`'s own, it is sorted, and no row of `s` left out comes strictly before a returned row.
   */
  function Top<T(==)>(key: T -> int, tie: T -> int, desc: bool, s: seq<T>, n: int): (r: seq<T>)
    ensures n >= 0 ==> |r| == Seqs.Min(n, |s|)
    ensures n < 0 ==> multiset(r) == multiset(s)
    ensures multiset(r) <= multiset(s)
    ensures Sorted(key, tie, desc, r)
    ensures forall x, k :: x in multiset(s) - multiset(r) && 0 <= k < |r| ==> !Precedes(key, tie, desc, x, r[k])
  {
    var sorted := SortBy(key, tie, desc, s);
    SortBySorted(key, tie, desc, s);
    var r := Seqs.Limit(sorted, n);
    PrefixBest(key, tie, desc, sorted, |r|);
    r
  }

  /** A prefix of a sorted sequence: nothing after the cut comes strictly before a row inside it. */
  lemma PrefixBest<T>(key: T -> int, tie: T -> int, desc: bool, sorted: seq<T>, m: nat)
    requires Sorted(key, tie, desc, sorted) && m <= |sorted|
    ensures multiset(sorted[..m]) <= multiset(sorted)
    ensures Sorted(key, tie, desc, sorted[..m])
    ensures forall x, k :: x in multiset(sorted) - multiset(sorted[..m]) && 0 <= k < m ==>
      !Precedes(key, tie, desc, x, sorted[k])
  {
    assert sorted == sorted[..m] + sorted[m..];
    assert multiset(sorted) == multiset(sorted[..m]) + multiset(sorted[m..]);
    forall x, k | x in multiset(sorted) - multiset(sorted[..m]) && 0 <= k < m
      ensures !Precedes(key, tie, desc, x, sorted[k])
    {
      assert x in multiset(sorted[m..]);
      var q :| m <= q < |sorted| && sorted[q] == x by {
        assert x in sorted[m..];
        var j :| 0 <= j < |sorted[m..]| && sorted[m..][j] == x;
        assert sorted[m + j] == x;
      }
    }
  }
}
