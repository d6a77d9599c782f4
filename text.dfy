/**
 * The Python string built-ins the pipeline relies on: `str.isspace`/`\s`, `str.strip`,
 * `re.sub(r'\s+', ' ', ...)`, `str.lower`, `str.startswith`, `in` on strings, and the
 * word characters behind the regular-expression boundary `\b`.
 * Character classes are exact for ASCII and Latin-1; see the README for what lies beyond.
 */
module Text {
  /** Python's whitespace (`str.isspace`, and `\s` in a `str` pattern). */
  predicate IsSpace(c: char) {
    c == ' ' || '\U{9}' <= c <= '\U{D}' || '\U{1C}' <= c <= '\U{1F}' || c == '\U{85}' || c == '\U{A0}'
    || c == '\U{1680}' || '\U{2000}' <= c <= '\U{200A}' || c == '\U{2028}' || c == '\U{2029}'
    || c == '\U{202F}' || c == '\U{205F}' || c == '\U{3000}'
  }

  /** Every character is whitespace (so `s.strip()` is empty). */
  predicate IsBlank(s: string) {
    forall i :: 0 <= i < |s| ==> IsSpace(s[i])
  }

  /** `str.lstrip()`: drops the leading whitespace and nothing else. */
  function LStrip(s: string): (r: string)
    ensures |r| <= |s| && r == s[|s| - |r|..]
    ensures r == [] || !IsSpace(r[0])
    ensures forall i :: 0 <= i < |s| - |r| ==> IsSpace(s[i])
  {
    if |s| > 0 && IsSpace(s[0]) then LStrip(s[1..]) else s
  }

  /** `str.rstrip()`: drops the trailing whitespace and nothing else. */
  function RStrip(s: string): (r: string)
    ensures |r| <= |s| && r == s[..|r|]
    ensures r == [] || !IsSpace(r[|r| - 1])
    ensures forall i :: |r| <= i < |s| ==> IsSpace(s[i])
  {
    if |s| > 0 && IsSpace(s[|s| - 1]) then RStrip(s[..|s| - 1]) else s
  }

  /** `str.strip()`. */
  function Strip(s: string): string {
    RStrip(LStrip(s))
  }

  /** Neither end of `s` is whitespace. */
  predicate Trimmed(s: string) {
    s == [] || (!IsSpace(s[0]) && !IsSpace(s[|s| - 1]))
  }

  /** How many leading characters `str.strip()` removes. */
  function StripStart(s: string): nat {
    |s| - |LStrip(s)|
  }

  /** The stripped string is the middle of `s`: what was removed on either side is whitespace. */
  lemma StripIsCore(s: string)
    ensures Trimmed(Strip(s))
    ensures StripStart(s) + |Strip(s)| <= |s|
    ensures Strip(s) == s[StripStart(s)..StripStart(s) + |Strip(s)|]
    ensures forall k :: 0 <= k < StripStart(s) ==> IsSpace(s[k])
    ensures forall k :: StripStart(s) + |Strip(s)| <= k < |s| ==> IsSpace(s[k])
  {
    StripSlice(s);
    StripEnds(s);
    StripTrailing(s);
  }

  /** The stripped string sits at StripStart(s) in `s`. */
  lemma StripSlice(s: string)
    ensures StripStart(s) + |Strip(s)| <= |s|
    ensures Strip(s) == s[StripStart(s)..StripStart(s) + |Strip(s)|]
  {
    var l := LStrip(s);
    var r := RStrip(l);
    var i := |s| - |l|;
    assert l == s[i..];
    assert r == l[..|r|];
    assert s[i..][..|r|] == s[i..i + |r|];
  }

  /** Neither end of the stripped string is whitespace. */
  lemma StripEnds(s: string)
    ensures Trimmed(Strip(s))
  {
    var l := LStrip(s);
    var r := RStrip(l);
    if r != [] {
      assert r[0] == l[0];
    }
  }

  /** What follows the stripped string in `s` is whitespace. */
  lemma StripTrailing(s: string)
    ensures forall k :: StripStart(s) + |Strip(s)| <= k < |s| ==> IsSpace(s[k])
  {
    var l := LStrip(s);
    var r := RStrip(l);
    var i := |s| - |l|;
    forall k | i + |r| <= k < |s| ensures IsSpace(s[k]) {
      assert s[k] == l[k - i];
    }
  }

  lemma StripBlank(s: string)
    ensures Strip(s) == [] <==> IsBlank(s)
  {
    var l := LStrip(s);
    var i := |s| - |l|;
    if !IsBlank(s) {
      var k :| 0 <= k < |s| && !IsSpace(s[k]);
      assert k >= i;
      assert l[k - i] == s[k];
      var r := RStrip(l);
      assert |r| > k - i;
    } else {
      LStripBlank(s);
    }
  }

  /** A blank string strips to nothing from the left already. */
  lemma {:induction false} LStripBlank(s: string)
    requires IsBlank(s)
    ensures LStrip(s) == []
    decreases |s|
  {
    if s != [] {
      assert IsSpace(s[0]);
      LStripBlank(s[1..]);
    }
  }

  lemma StripTrimmed(s: string)
    requires Trimmed(s)
    ensures Strip(s) == s
  {
  }

  lemma StripIdempotent(s: string)
    ensures Strip(Strip(s)) == Strip(s)
  {
    StripIsCore(s);
    StripTrimmed(Strip(s));
  }

  /** `re.sub(r'\s+', ' ', s)`: every whitespace run becomes one plain space. */
  function CollapseSpaces(s: string): (r: string)
    ensures |r| <= |s|
    decreases |s|
  {
    if s == [] then []
    else if IsSpace(s[0]) then [' '] + CollapseSpaces(LStrip(s[1..]))
    else [s[0]] + CollapseSpaces(s[1..])
  }

  /** The only whitespace is a plain space and no two spaces are adjacent. */
  predicate SingleSpaced(s: string) {
    (forall i :: 0 <= i < |s| && IsSpace(s[i]) ==> s[i] == ' ')
    && (forall i :: 0 <= i < |s| - 1 ==> !(IsSpace(s[i]) && IsSpace(s[i + 1])))
  }

  lemma CollapseSpacesFirst(s: string)
    requires s != []
    ensures CollapseSpaces(s) != [] && (IsSpace(CollapseSpaces(s)[0]) <==> IsSpace(s[0]))
  {
  }

  lemma ConsSingleSpaced(x: char, c: string)
    requires SingleSpaced(c)
    requires IsSpace(x) ==> x == ' ' && (c == [] || !IsSpace(c[0]))
    ensures SingleSpaced([x] + c)
  {
    var r := [x] + c;
    forall i | 0 <= i < |r| - 1 ensures !(IsSpace(r[i]) && IsSpace(r[i + 1])) {
      if i > 0 { assert r[i] == c[i - 1] && r[i + 1] == c[i]; }
    }
  }

  /** Two single-spaced strings stay single-spaced when joined, unless a space meets a space. */
  lemma ConcatSingleSpaced(a: string, b: string)
    requires SingleSpaced(a) && SingleSpaced(b)
    requires a != [] && b != [] ==> !(IsSpace(a[|a| - 1]) && IsSpace(b[0]))
    ensures SingleSpaced(a + b)
  {
    var r := a + b;
    forall i | 0 <= i < |r| - 1 ensures !(IsSpace(r[i]) && IsSpace(r[i + 1])) {
      if i + 1 < |a| {
        assert r[i] == a[i] && r[i + 1] == a[i + 1];
      } else if i >= |a| {
        assert r[i] == b[i - |a|] && r[i + 1] == b[i + 1 - |a|];
      }
    }
  }

  lemma {:induction false} CollapseSpacesSingleSpaced(s: string)
    ensures SingleSpaced(CollapseSpaces(s))
    decreases |s|
  {
    if s != [] {
      if IsSpace(s[0]) {
        var t := LStrip(s[1..]);
        CollapseSpacesSingleSpaced(t);
        if t != [] { CollapseSpacesFirst(t); }
        ConsSingleSpaced(' ', CollapseSpaces(t));
      } else {
        CollapseSpacesSingleSpaced(s[1..]);
        ConsSingleSpaced(s[0], CollapseSpaces(s[1..]));
      }
    }
  }

  lemma {:induction false} CollapseSpacesLast(s: string)
    requires s != [] && !IsSpace(s[|s| - 1])
    ensures CollapseSpaces(s) != [] && !IsSpace(CollapseSpaces(s)[|CollapseSpaces(s)| - 1])
    decreases |s|
  {
    if IsSpace(s[0]) {
      var t := LStrip(s[1..]);
      assert s[1..][|s| - 2] == s[|s| - 1];
      assert t != [] && t[|t| - 1] == s[|s| - 1];
      CollapseSpacesLast(t);
    } else if |s| > 1 {
      assert s[1..][|s| - 2] == s[|s| - 1];
      CollapseSpacesLast(s[1..]);
    }
  }

  /** Collapsing keeps a string that neither starts nor ends with whitespace that way. */
  lemma CollapseSpacesTrimmed(s: string)
    requires Trimmed(s)
    ensures Trimmed(CollapseSpaces(s))
  {
    if s != [] {
      CollapseSpacesFirst(s);
      CollapseSpacesLast(s);
    }
  }

  lemma {:induction false} CollapseSpacesFixed(s: string)
    requires SingleSpaced(s)
    ensures CollapseSpaces(s) == s
    decreases |s|
  {
    if s != [] {
      assert SingleSpaced(s[1..]);
      if IsSpace(s[0]) {
        assert |s| > 1 ==> !IsSpace(s[1..][0]);
        assert LStrip(s[1..]) == s[1..];
      }
      CollapseSpacesFixed(s[1..]);
    }
  }

  /** `str.startswith`. */
  predicate StartsWith(s: string, prefix: string) {
    |prefix| <= |s| && s[..|prefix|] == prefix
  }

  /** Trimming a string that starts with a prefix whose ends are not whitespace keeps the prefix. */
  lemma PrefixSurvivesStrip(v: string, p: string)
    requires StartsWith(v, p) && p != [] && !IsSpace(p[0]) && !IsSpace(p[|p| - 1])
    ensures StartsWith(Strip(v), p)
  {
    var w := Strip(v);
    StripIsCore(v);
    assert !IsSpace(v[0]);
    assert StripStart(v) == 0;
    assert !IsSpace(v[|p| - 1]);
    assert |w| >= |p|;
    assert w[..|p|] == v[..|p|];
  }

  /** Python's `sub in s`. */
  predicate Contains(s: string, sub: string) {
    exists i :: 0 <= i <= |s| - |sub| && OccursAt(s, sub, i)
  }

  predicate OccursAt(s: string, sub: string, i: int) {
    0 <= i <= |s| - |sub| && s[i..i + |sub|] == sub
  }

  predicate IsUpper(c: char) {
    'A' <= c <= 'Z' || ('\U{C0}' <= c <= '\U{DE}' && c != '\U{D7}')
  }

  /** `str.lower` on one character (ASCII and Latin-1 capitals). */
  function LowerChar(c: char): (r: char)
    ensures !IsUpper(r)
    ensures IsUpper(c) ==> r as int == c as int + 32
    ensures !IsUpper(c) ==> r == c
  {
    if IsUpper(c) then (c as int + 32) as char else c
  }

  /** `str.lower`. */
  function Lower(s: string): (r: string)
    ensures |r| == |s| && forall i :: 0 <= i < |s| ==> r[i] == LowerChar(s[i])
  {
    seq(|s|, i requires 0 <= i < |s| => LowerChar(s[i]))
  }

  lemma LowerIdempotent(s: string)
    ensures Lower(Lower(s)) == Lower(s)
  {
  }

  /** A character matched by `\w` in a `str` pattern: letters, digits and underscore. */
  predicate IsWordChar(c: char) {
    'a' <= c <= 'z' || 'A' <= c <= 'Z' || '0' <= c <= '9' || c == '_'
    || c == '\U{AA}' || c == '\U{B2}' || c == '\U{B3}' || c == '\U{B5}' || c == '\U{B9}' || c == '\U{BA}'
    || '\U{BC}' <= c <= '\U{BE}' || ('\U{C0}' <= c <= '\U{FF}' && c != '\U{D7}' && c != '\U{F7}')
  }

  lemma LowerKeepsWordChars(c: char)
    ensures IsWordChar(LowerChar(c)) == IsWordChar(c)
  {
  }
}
