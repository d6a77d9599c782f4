/**
 * The part of Python's `urllib.parse.urlparse` (`urlsplit`) that the validators read: the
 * scheme, lower-cased, and the network location after `//`.
 */
module Url {
  import opened Wrappers
  import Text

  datatype SplitUrl = SplitUrl(scheme: string, netloc: string)

  /** `urlsplit` raises `ValueError` for a network location with an unmatched bracket. */
  datatype UrlError = InvalidIPv6

  /** `str.find(c)`: the first index of `c`, or -1. */
  function Find(s: string, c: char): (r: int)
    ensures -1 <= r < |s|
    ensures r == -1 <==> c !in s
    ensures r >= 0 ==> s[r] == c && c !in s[..r]
  {
    if s == [] then -1
    else if s[0] == c then 0
    else
      var k := Find(s[1..], c);
      assert s[1..] == s[1..];
      if k == -1 then -1 else (assert s[..k + 1] == [s[0]] + s[1..][..k]; k + 1)
  }

  predicate IsDelimiter(c: char) { c == '/' || c == '?' || c == '#' }

  /** The end of the network location: the first `/`, `?` or `#` at or after `from`, or the end. */
  function NetlocEnd(s: string, from: nat): (r: nat)
    requires from <= |s|
    ensures from <= r <= |s|
    ensures r < |s| ==> IsDelimiter(s[r])
    ensures forall k :: from <= k < r ==> !IsDelimiter(s[k])
    decreases |s| - from
  {
    if from == |s| || IsDelimiter(s[from]) then from else NetlocEnd(s, from + 1)
  }

  predicate IsAsciiLetter(c: char) { 'a' <= c <= 'z' || 'A' <= c <= 'Z' }

  predicate IsSchemeChar(c: char) {
    IsAsciiLetter(c) || '0' <= c <= '9' || c == '+' || c == '-' || c == '.'
  }

  /** What `urlsplit` does to its input first: strip leading C0 controls and spaces, drop tabs and newlines. */
  function Prepare(url: string): string {
    DropTabs(LStripControls(url))
  }

  /** Removes every tab, carriage return and line feed. */
  function DropTabs(s: string): string {
    if s == [] then [] else (if KeptByPrepare(s[0]) then [s[0]] else []) + DropTabs(s[1..])
  }

  predicate KeptByPrepare(c: char) { c != '\t' && c != '\r' && c != '\n' }

  function LStripControls(s: string): (r: string)
    ensures r == [] || r[0] > ' '
  {
    if s != [] && s[0] <= ' ' then LStripControls(s[1..]) else s
  }

  /** The length of the scheme prefix `u` starts with (before its first colon), or -1 when it has none. */
  function SchemeLength(u: string): (r: int)
    ensures r == -1 || (0 < r < |u| && u[r] == ':')
  {
    var i := Find(u, ':');
    if i > 0 && IsAsciiLetter(u[0]) && forall k :: 0 <= k < i ==> IsSchemeChar(u[k]) then i else -1
  }

  /** The network location of what follows the scheme: the text after `//` up to the next delimiter. */
  function Netloc(rest: string): Result<string, UrlError> {
    if |rest| >= 2 && rest[..2] == "//" then
      var netloc := rest[2..NetlocEnd(rest, 2)];
      if ('[' in netloc) != (']' in netloc) then Err(InvalidIPv6) else Ok(netloc)
    else Ok("")
  }

  /** `urlparse(url)`, reduced to the scheme and the network location. */
  function UrlSplit(url: string): Result<SplitUrl, UrlError> {
    var u := Prepare(url);
    var i := SchemeLength(u);
    var scheme := if i > 0 then Text.Lower(u[..i]) else "";
    var rest := if i > 0 then u[i + 1..] else u;
    match Netloc(rest)
    case Ok(netloc) => Ok(SplitUrl(scheme, netloc))
    case Err(e) => Err(e)
  }

  /** A host that survives `urlsplit` unchanged: no delimiters, brackets, tabs or newlines. */
  predicate PlainHost(host: string) {
    forall k :: 0 <= k < |host| ==>
      !IsDelimiter(host[k]) && host[k] != '[' && host[k] != ']' && host[k] != '\t' && host[k] != '\r' && host[k] != '\n'
  }

  predicate PlainScheme(scheme: string) {
    |scheme| > 0 && IsAsciiLetter(scheme[0]) && forall k :: 0 <= k < |scheme| ==> IsSchemeChar(scheme[k])
  }

  /** `scheme://host/path` is split back into its lower-cased scheme and its host. */
  lemma SplitRoundTrip(scheme: string, host: string, path: string)
    requires PlainScheme(scheme) && PlainHost(host)
    requires path == [] || IsDelimiter(path[0])
    ensures UrlSplit(scheme + "://" + host + path) == Ok(SplitUrl(Text.Lower(scheme), host))
  {
    var tail := DropTabs(path);
    var rest := "//" + host + tail;
    var u := scheme + ([':'] + rest);
    PrepareUrl(scheme, host, path);
    SchemeLengthAt(scheme, rest);
    SchemeAndRest(scheme, rest);
    FilterHead(path);
    NetlocOfHost(host, tail);
    SplitWithScheme(scheme + "://" + host + path, u, |scheme|);
  }

  /** How `urlsplit` reads a prepared URL with a scheme of length `i`. */
  lemma SplitWithScheme(url: string, u: string, i: nat)
    requires Prepare(url) == u && SchemeLength(u) == i && i > 0
    ensures Netloc(u[i + 1..]).Ok? ==> UrlSplit(url) == Ok(SplitUrl(Text.Lower(u[..i]), Netloc(u[i + 1..]).value))
  {
  }

  lemma SchemeAndRest(scheme: string, rest: string)
    ensures (scheme + ([':'] + rest))[..|scheme|] == scheme
    ensures (scheme + ([':'] + rest))[|scheme| + 1..] == rest
  {
  }

  lemma SchemeLengthAt(scheme: string, rest: string)
    requires PlainScheme(scheme)
    ensures SchemeLength(scheme + ([':'] + rest)) == |scheme|
  {
    var u := scheme + ([':'] + rest);
    assert u[..|scheme|] == scheme;
    FindAt(u, ':', |scheme|);
    assert forall k :: 0 <= k < |scheme| ==> u[k] == scheme[k];
  }

  lemma NetlocOfHost(host: string, tail: string)
    requires PlainHost(host)
    requires tail == [] || IsDelimiter(tail[0])
    ensures Netloc("//" + host + tail) == Ok(host)
  {
    var rest := "//" + host + tail;
    assert rest[..2] == "//";
    NetlocEndAt(rest, 2, 2 + |host|);
    assert rest[2..2 + |host|] == host;
  }

  lemma PrepareUrl(scheme: string, host: string, path: string)
    requires PlainScheme(scheme) && PlainHost(host)
    ensures Prepare(scheme + "://" + host + path) == scheme + ([':'] + ("//" + host + DropTabs(path)))
  {
    var head := scheme + "://" + host;
    var u := scheme + "://" + host + path;
    assert u == head + path && u[0] == scheme[0];
    StripHead(u);
    DropTabsConcat(head, path);
    HeadUnchanged(scheme, host);
    HeadRegrouped(scheme, host, DropTabs(path));
  }

  lemma HeadUnchanged(scheme: string, host: string)
    requires PlainScheme(scheme) && PlainHost(host)
    ensures DropTabs(scheme + "://" + host) == scheme + "://" + host
  {
    HeadKept(scheme, host);
    DropTabsNoop(scheme + "://" + host);
  }

  lemma HeadRegrouped(scheme: string, host: string, tail: string)
    ensures scheme + "://" + host + tail == scheme + ([':'] + ("//" + host + tail))
  {
  }

  /** Nothing is stripped from a string that starts with a letter. */
  lemma StripHead(s: string)
    requires s != [] && IsAsciiLetter(s[0])
    ensures LStripControls(s) == s
  {
  }

  lemma HeadKept(scheme: string, host: string)
    requires PlainScheme(scheme) && PlainHost(host)
    ensures forall k :: 0 <= k < |scheme + "://" + host| ==> KeptByPrepare((scheme + "://" + host)[k])
  {
    var head := scheme + "://" + host;
    forall k | 0 <= k < |head| ensures KeptByPrepare(head[k]) {
      if k < |scheme| {
        assert head[k] == scheme[k];
      } else if k >= |scheme| + 3 {
        assert head[k] == host[k - |scheme| - 3];
      }
    }
  }

  lemma FindAt(s: string, c: char, i: nat)
    requires i < |s| && s[i] == c && c !in s[..i]
    ensures Find(s, c) == i
  {
  }

  lemma NetlocEndAt(s: string, from: nat, e: nat)
    requires from <= e <= |s|
    requires forall k :: from <= k < e ==> !IsDelimiter(s[k])
    requires e == |s| || IsDelimiter(s[e])
    ensures NetlocEnd(s, from) == e
    decreases e - from
  {
    if from < e { NetlocEndAt(s, from + 1, e); }
  }

  lemma {:induction false} DropTabsConcat(a: string, b: string)
    ensures DropTabs(a + b) == DropTabs(a) + DropTabs(b)
    decreases |a|
  {
    if a != [] {
      assert (a + b)[1..] == a[1..] + b;
      DropTabsConcat(a[1..], b);
    } else {
      assert a + b == b;
    }
  }

  lemma {:induction false} DropTabsNoop(a: string)
    requires forall k :: 0 <= k < |a| ==> KeptByPrepare(a[k])
    ensures DropTabs(a) == a
    decreases |a|
  {
    if a != [] { DropTabsNoop(a[1..]); }
  }

  /** Preparing keeps a leading delimiter in front. */
  lemma FilterHead(s: string)
    requires s == [] || IsDelimiter(s[0])
    ensures DropTabs(s) == [] || IsDelimiter(DropTabs(s)[0])
  {
  }

  /** Without a colon there is no scheme. */
  lemma NoColonNoScheme(url: string)
    requires ':' !in url
    ensures UrlSplit(url).Ok? ==> UrlSplit(url).value.scheme == ""
  {
    LStripControlsSuffix(url);
    DropTabsSubset(LStripControls(url));
    assert ':' !in Prepare(url);
  }

  lemma {:induction false} LStripControlsSuffix(s: string)
    ensures forall c :: c in LStripControls(s) ==> c in s
    decreases |s|
  {
    if s != [] && s[0] <= ' ' { LStripControlsSuffix(s[1..]); }
  }

  lemma {:induction false} DropTabsSubset(s: string)
    ensures forall c :: c in DropTabs(s) ==> c in s
    decreases |s|
  {
    if s != [] { DropTabsSubset(s[1..]); }
  }
}
