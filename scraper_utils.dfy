/**
 * The pure helpers of pipeline/scraper_utils.py: the source of an article from its host,
 * the URL check of the scrapers, the fallback order of the image extractors and the first
 * candidate of a `srcset`.
 */
module ScraperUtils {
  import opened Wrappers
  import Text
  import Url
  import Validator
  import opened PyValues

  const Unknown := "Desconhecida"

  /** The domain-to-source table, in the dict's insertion order. */
  const DomainMapping: seq<(string, string)> := [
    ("exame.com", "Exame"),
    ("gkpb.com.br", "GKPB"),
    ("meioemensagem.com.br", "Meio e Mensagem"),
    ("mundodomarketing.com.br", "Mundo do Marketing")
  ]

  /**
   * The source of the first entry of `mapping` whose domain occurs in `host`, or the unknown
   * source when none does.
   */
  function FirstMatch(host: string, mapping: seq<(string, string)>): (r: string)
    ensures (r == Unknown && forall i :: 0 <= i < |mapping| ==> !Text.Contains(host, mapping[i].0))
      || FirstMatchIndex(host, mapping, r)
  {
    if mapping == [] then Unknown
    else if Text.Contains(host, mapping[0].0) then
      assert IsFirstMatchAt(host, mapping, mapping[0].1, 0);
      mapping[0].1
    else
      var r := FirstMatch(host, mapping[1..]);
      assert FirstMatchIndex(host, mapping[1..], r) ==> FirstMatchIndex(host, mapping, r) by {
        if FirstMatchIndex(host, mapping[1..], r) {
          var i :| IsFirstMatchAt(host, mapping[1..], r, i);
          assert IsFirstMatchAt(host, mapping, r, i + 1);
        }
      }
      assert (forall i :: 0 <= i < |mapping[1..]| ==> !Text.Contains(host, mapping[1..][i].0))
        ==> forall i :: 0 <= i < |mapping| ==> !Text.Contains(host, mapping[i].0) by {
        if forall i :: 0 <= i < |mapping[1..]| ==> !Text.Contains(host, mapping[1..][i].0) {
          forall i | 0 <= i < |mapping| ensures !Text.Contains(host, mapping[i].0) {
            if i > 0 { assert mapping[i] == mapping[1..][i - 1]; }
          }
        }
      }
      r
  }

  /** Entry `i` is the first entry whose domain occurs in `host`, and its source is `r`. */
  predicate IsFirstMatchAt(host: string, mapping: seq<(string, string)>, r: string, i: int) {
    0 <= i < |mapping| && Text.Contains(host, mapping[i].0) && mapping[i].1 == r
    && forall j :: 0 <= j < i ==> !Text.Contains(host, mapping[j].0)
  }

  ghost predicate FirstMatchIndex(host: string, mapping: seq<(string, string)>, r: string) {
    exists i :: IsFirstMatchAt(host, mapping, r, i)
  }

  /** detect_source_from_url: a URL that does not parse has the unknown source. */
  function DetectSourceFromUrl(url: string): string {
    match Url.UrlSplit(url)
    case Err(_) => Unknown
    case Ok(u) => FirstMatch(Text.Lower(u.netloc), DomainMapping)
  }

  /** The detected source is always one of the sources validate_fonte accepts. */
  lemma DetectedSourceAllowed(url: string)
    ensures DetectSourceFromUrl(url) in Validator.ShippedConfig.allowedSources
  {
    if Url.UrlSplit(url).Ok? {
      var r := FirstMatch(Text.Lower(Url.UrlSplit(url).value.netloc), DomainMapping);
      if r != Unknown {
        var i :| IsFirstMatchAt(Text.Lower(Url.UrlSplit(url).value.netloc), DomainMapping, r, i);
        assert r == DomainMapping[i].1;
      }
    }
  }

  /** An article of exame.com is attributed to Exame. */
  lemma DetectExame(path: string)
    requires path == [] || Url.IsDelimiter(path[0])
    ensures DetectSourceFromUrl("https" + "://" + "exame.com" + path) == "Exame"
  {
    ExameSplits(path);
    ExameLower();
    FirstEntryMatches("exame.com", DomainMapping);
  }

  lemma ExameSplits(path: string)
    requires path == [] || Url.IsDelimiter(path[0])
    ensures Url.UrlSplit("https" + "://" + "exame.com" + path) == Ok(Url.SplitUrl("https", "exame.com"))
  {
    PlainParts("https", "exame.com");
    Url.SplitRoundTrip("https", "exame.com", path);
  }

  lemma PlainParts(scheme: string, host: string)
    requires scheme == "https" && host == "exame.com"
    ensures Url.PlainScheme(scheme) && Url.PlainHost(host) && Text.Lower(scheme) == scheme
  {
    forall k | 0 <= k < |host|
      ensures !Url.IsDelimiter(host[k]) && host[k] != '[' && host[k] != ']' && host[k] != '\t' && host[k] != '\r' && host[k] != '\n'
    {
      assert 'a' <= host[k] <= 'z' || host[k] == '.';
    }
    forall k | 0 <= k < |scheme| ensures Url.IsSchemeChar(scheme[k]) {
      assert 'a' <= scheme[k] <= 'z';
    }
  }

  lemma ExameLower()
    ensures Text.Lower("exame.com") == "exame.com"
  {
  }

  /** A host containing the first domain of the table gets that domain's source. */
  lemma FirstEntryMatches(host: string, mapping: seq<(string, string)>)
    requires mapping != [] && host == mapping[0].0
    ensures FirstMatch(host, mapping) == mapping[0].1
  {
    assert Text.OccursAt(host, mapping[0].0, 0);
  }

  /** validate_url (pipeline/scraper_utils.py): a non-empty string that, trimmed, is an http/https URL with a host. */
  function ValidateUrl(v: Value): (r: bool)
    ensures r <==> v.PyStr? && v.s != "" && Validator.UrlAccepted(Text.Strip(v.s))
  {
    if !v.PyStr? || v.s == "" then false
    else
      match Url.UrlSplit(Text.Strip(v.s))
      case Err(_) => false
      case Ok(u) => u.scheme != "" && u.netloc != "" && (u.scheme == "http" || u.scheme == "https")
  }

  /**
   * The scrapers' URL check agrees with validate_link of the record validator on every link
   * within the length limit, except a blank string, which validate_url parses to no scheme.
   */
  lemma ValidateUrlAgreesWithLink(s: string, cfg: Validator.Config)
    requires |Text.Strip(s)| <= cfg.maxLinkLength
    ensures ValidateUrl(PyStr(s)) <==> Validator.ValidateLink(PyStr(s), cfg).Accept?
  {
    if Text.Strip(s) == "" {
      assert Url.SchemeLength(Url.Prepare("")) == -1;
    }
  }

  /**
   * What one image extractor produced: `None` when it raised (the loop moves on), otherwise
   * the string it returned, possibly empty.
   */
  type Outcome = Option<string>

  function Resolve(url: string, baseUrl: string, join: (string, string) -> string): string {
    if baseUrl != "" && !Text.StartsWith(url, "http://") && !Text.StartsWith(url, "https://") then join(baseUrl, url) else url
  }

  /**
   * extract_image_url: the first non-empty result, in the fixed extractor order
   * (data-bg, img src, data-src, background style, srcset, placeholder image), resolved
   * against `baseUrl` with `join` (urljoin) when it is relative; "" when every extractor fails.
   */
  function ExtractImageUrl(present: bool, outcomes: seq<Outcome>, baseUrl: string, join: (string, string) -> string): (r: string)
    ensures !present ==> r == ""
    ensures present ==>
      (r == "" && forall i :: 0 <= i < |outcomes| ==> !Found(outcomes[i]))
      || exists i :: FirstFoundAt(outcomes, i) && r == Resolve(outcomes[i].value, baseUrl, join)
  {
    if !present then ""
    else FirstFound(outcomes, baseUrl, join)
  }

  predicate Found(o: Outcome) { o.Some? && o.value != "" }

  predicate FirstFoundAt(outcomes: seq<Outcome>, i: int) {
    0 <= i < |outcomes| && Found(outcomes[i]) && forall j :: 0 <= j < i ==> !Found(outcomes[j])
  }

  function FirstFound(outcomes: seq<Outcome>, baseUrl: string, join: (string, string) -> string): (r: string)
    ensures (r == "" && forall i :: 0 <= i < |outcomes| ==> !Found(outcomes[i]))
      || exists i :: FirstFoundAt(outcomes, i) && r == Resolve(outcomes[i].value, baseUrl, join)
  {
    if outcomes == [] then ""
    else if Found(outcomes[0]) then
      assert FirstFoundAt(outcomes, 0);
      Resolve(outcomes[0].value, baseUrl, join)
    else
      var r := FirstFound(outcomes[1..], baseUrl, join);
      assert (r == "" && forall i :: 0 <= i < |outcomes| ==> !Found(outcomes[i]))
        || exists i :: FirstFoundAt(outcomes, i) && r == Resolve(outcomes[i].value, baseUrl, join) by {
        if r == "" && forall i :: 0 <= i < |outcomes[1..]| ==> !Found(outcomes[1..][i]) {
          forall i | 0 <= i < |outcomes| ensures !Found(outcomes[i]) {
            if i > 0 { assert outcomes[i] == outcomes[1..][i - 1]; }
          }
        } else {
          var i :| FirstFoundAt(outcomes[1..], i) && r == Resolve(outcomes[1..][i].value, baseUrl, join);
          assert FirstFoundAt(outcomes, i + 1);
        }
      }
      r
  }

  /** Every extractor before the first one that finds something is skipped, whatever it did. */
  lemma ExtractSkipsFailures(failed: seq<Outcome>, url: string, rest: seq<Outcome>, baseUrl: string, join: (string, string) -> string)
    requires forall i :: 0 <= i < |failed| ==> !Found(failed[i])
    requires url != ""
    ensures ExtractImageUrl(true, failed + [Some(url)] + rest, baseUrl, join) == Resolve(url, baseUrl, join)
  {
    var all := failed + [Some(url)] + rest;
    var r := ExtractImageUrl(true, all, baseUrl, join);
    assert Found(all[|failed|]);
    if r == "" && forall i :: 0 <= i < |all| ==> !Found(all[i]) {
      assert false;
    }
    assert forall k :: 0 <= k < |failed| ==> all[k] == failed[k];
    var i :| FirstFoundAt(all, i) && r == Resolve(all[i].value, baseUrl, join);
  }

  /** An absolute URL, or any URL when there is no base, is returned as found. */
  lemma ResolveAbsolute(url: string, baseUrl: string, join: (string, string) -> string)
    requires baseUrl == "" || Text.StartsWith(url, "http://") || Text.StartsWith(url, "https://")
    ensures Resolve(url, baseUrl, join) == url
  {
  }

  /** The text of `s` before the first `c` (the first item of `s.split(c)`). */
  function SplitFirst(s: string, c: char): (r: string)
    ensures c !in r
    ensures |r| <= |s| && r == s[..|r|]
    ensures |r| < |s| ==> s[|r|] == c
  {
    var i := Url.Find(s, c);
    if i == -1 then s else s[..i]
  }

  /** _extract_from_srcset on a non-empty srcset: the URL of the first candidate. */
  function SrcsetFirst(srcset: string): (r: string)
    ensures ' ' !in r
  {
    SplitFirst(Text.Strip(SplitFirst(srcset, ',')), ' ')
  }

  predicate PlainUrl(u: string) {
    forall k :: 0 <= k < |u| ==> !Text.IsSpace(u[k]) && u[k] != ','
  }

  /** `p` followed by `c` or by nothing is split off as the first item. */
  lemma SplitFirstPrefix(s: string, c: char, p: string)
    requires |p| <= |s| && s[..|p|] == p && c !in p
    requires |s| == |p| || s[|p|] == c
    ensures SplitFirst(s, c) == p
  {
    if |s| == |p| {
      assert s == p;
    } else {
      assert c in s;
      var i := Url.Find(s, c);
      assert forall k :: 0 <= k < |p| ==> s[k] == p[k] && s[k] != c;
      assert forall k :: 0 <= k < i ==> s[..i][k] == s[k];
    }
  }

  /**
   * The first candidate's URL is recovered from `url descriptor, more candidates` and from a
   * lone URL with or without descriptors.
   */
  lemma SrcsetFirstOfCandidate(url: string, rest: string)
    requires url != [] && PlainUrl(url)
    requires rest == [] || rest[0] == ' ' || rest[0] == ','
    ensures SrcsetFirst(url + rest) == url
  {
    var first := SplitFirst(url + rest, ',');
    FirstPiece(url, rest);
    StripPlainHead(url, first);
    SplitFirstPrefix(Text.Strip(first), ' ', url);
  }

  /** The first comma-separated piece still starts with the URL, followed by a space or nothing. */
  lemma FirstPiece(url: string, rest: string)
    requires url != [] && PlainUrl(url)
    requires rest == [] || rest[0] == ' ' || rest[0] == ','
    ensures var first := SplitFirst(url + rest, ',');
      |first| >= |url| && first[..|url|] == url && (|first| == |url| || first[|url|] == ' ')
  {
    var s := url + rest;
    assert forall k :: 0 <= k < |url| ==> s[k] == url[k] && s[k] != ',';
    assert |s| > |url| ==> s[|url|] == rest[0];
  }

  /** Stripping a string that starts with a whitespace-free URL followed by a space keeps the URL. */
  lemma StripPlainHead(url: string, s: string)
    requires url != [] && PlainUrl(url)
    requires |s| >= |url| && s[..|url|] == url && (|s| == |url| || s[|url|] == ' ')
    ensures |Text.Strip(s)| >= |url|
    ensures Text.Strip(s)[..|url|] == url
    ensures |Text.Strip(s)| == |url| || Text.Strip(s)[|url|] == ' '
  {
    assert s[0] == url[0];
    assert Text.LStrip(s) == s;
    var t := Text.RStrip(s);
    assert s[|url| - 1] == url[|url| - 1];
    assert !Text.IsSpace(s[|url| - 1]);
    assert t == s[..|t|];
  }
}
