/**
 * SQLite's `LIKE` operator with its default settings: `%` matches any run of characters,
 * `_` exactly one, and ASCII letters compare case-insensitively (other characters exactly).
 */
module SqlLike {
  /** The case folding `LIKE` applies: ASCII capitals only. */
  function Fold(c: char): char {
    if 'A' <= c <= 'Z' then (c as int + 32) as char else c
  }

  /** `s LIKE p` (no ESCAPE clause). */
  predicate Like(s: string, p: string)
    decreases |s| + |p|
  {
    if p == [] then s == []
    else if p[0] == '%' then Like(s, p[1..]) || (s != [] && Like(s[1..], p))
    else s != [] && (p[0] == '_' || Fold(s[0]) == Fold(p[0])) && Like(s[1..], p[1..])
  }

  predicate NoWildcards(p: string) {
    forall i :: 0 <= i < |p| ==> p[i] != '%' && p[i] != '_'
  }

  /** `s` begins with `p`, ignoring ASCII case. */
  predicate CIStartsWith(s: string, p: string) {
    |p| <= |s| && forall i :: 0 <= i < |p| ==> Fold(s[i]) == Fold(p[i])
  }

  predicate CIOccursAt(s: string, p: string, i: int) {
    0 <= i <= |s| && CIStartsWith(s[i..], p)
  }

  /** `p` occurs somewhere in `s`, ignoring ASCII case. */
  predicate CIContains(s: string, p: string) {
    exists i :: 0 <= i <= |s| && CIOccursAt(s, p, i)
  }

  lemma {:induction false} LikeAnything(s: string)
    ensures Like(s, "%")
    decreases |s|
  {
    if s != [] {
      LikeAnything(s[1..]);
    }
  }

  /** `s LIKE 'p%'` with a wildcard-free `p` is a case-insensitive prefix test. */
  lemma {:induction false} LikePrefix(s: string, p: string)
    requires NoWildcards(p)
    ensures Like(s, p + "%") <==> CIStartsWith(s, p)
    decreases |p|
  {
    if p == [] {
      assert p + "%" == "%";
      LikeAnything(s);
    } else {
      var q := p + "%";
      assert q[0] == p[0] && q[1..] == p[1..] + "%";
      if s != [] {
        LikePrefix(s[1..], p[1..]);
        assert CIStartsWith(s, p) <==> Fold(s[0]) == Fold(p[0]) && CIStartsWith(s[1..], p[1..]) by {
          if Fold(s[0]) == Fold(p[0]) && CIStartsWith(s[1..], p[1..]) {
            forall i | 0 <= i < |p| ensures Fold(s[i]) == Fold(p[i]) {
              if i > 0 { assert s[1..][i - 1] == s[i] && p[1..][i - 1] == p[i]; }
            }
          }
          if CIStartsWith(s, p) {
            forall i | 0 <= i < |p| - 1 ensures Fold(s[1..][i]) == Fold(p[1..][i]) {
              assert s[1..][i] == s[i + 1] && p[1..][i] == p[i + 1];
            }
          }
        }
      }
    }
  }

  /** A leading `%` lets the rest of the pattern match any suffix. */
  lemma {:induction false} LikeLeadingPercent(s: string, q: string)
    ensures Like(s, ['%'] + q) <==> exists i :: 0 <= i <= |s| && Like(s[i..], q)
    decreases |s|
  {
    var p := ['%'] + q;
    assert p[1..] == q;
    if s == [] {
      assert Like(s, p) <==> Like(s, q);
      if Like(s, q) { assert s[0..] == s; }
      if exists i :: 0 <= i <= |s| && Like(s[i..], q) {
        var i :| 0 <= i <= |s| && Like(s[i..], q);
        assert s[i..] == s;
      }
    } else {
      LikeLeadingPercent(s[1..], q);
      if Like(s, p) {
        if Like(s, q) {
          assert s[0..] == s;
        } else {
          var i :| 0 <= i <= |s| - 1 && Like(s[1..][i..], q);
          assert s[1..][i..] == s[i + 1..];
        }
      }
      if exists i :: 0 <= i <= |s| && Like(s[i..], q) {
        var i :| 0 <= i <= |s| && Like(s[i..], q);
        if i == 0 {
          assert s[0..] == s;
        } else {
          assert s[1..][i - 1..] == s[i..];
        }
      }
    }
  }

  /** `s LIKE '%p%'` with a wildcard-free `p` is a case-insensitive substring test. */
  lemma LikeContains(s: string, p: string)
    requires NoWildcards(p)
    ensures Like(s, "%" + p + "%") <==> CIContains(s, p)
  {
    var q := p + "%";
    assert "%" + p + "%" == ['%'] + q;
    LikeLeadingPercent(s, q);
    if Like(s, "%" + p + "%") {
      var i :| 0 <= i <= |s| && Like(s[i..], q);
      LikePrefix(s[i..], p);
      assert CIOccursAt(s, p, i);
    }
    if CIContains(s, p) {
      var i :| 0 <= i <= |s| && CIOccursAt(s, p, i);
      LikePrefix(s[i..], p);
    }
  }

  /** An exact prefix is also a case-insensitive one. */
  lemma StartsWithIsCIStartsWith(s: string, p: string)
    requires |p| <= |s| && s[..|p|] == p
    ensures CIStartsWith(s, p)
  {
    forall i | 0 <= i < |p| ensures Fold(s[i]) == Fold(p[i]) {
      assert s[..|p|][i] == s[i];
    }
  }
}
