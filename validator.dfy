/**
 * `DataValidator` (database/validator.py): per-field checks, record-level validation with
 * the required-fields-first rule, and sanitisation of the string fields.
 */
module Validator {
  import opened PyValues
  import Text
  import Url

  /** The validation limits and the allowed sources (database/config.py). */
  datatype Config = Config(maxTitleLength: nat, maxResumoLength: nat, maxLinkLength: nat, allowedSources: seq<string>)

  const ShippedConfig := Config(500, 2000, 1000, ["Exame", "GKPB", "Meio e Mensagem", "Mundo do Marketing", "Desconhecida"])

  /** The prefix the summariser writes in place of a summary when the model fails. */
  const FailurePrefix := "Falha na sumarização"

  datatype Field = Titulo | Link | Imagem | Resumo | Cluster | Fonte | Score | Status

  /** A news record as a dict from field name to value. */
  type Record = map<Field, Value>

  datatype Reason =
    | Required        // falsy or not a string
    | Blank           // only whitespace
    | TooLong
    | UnsafeChars     // one of < > " ' in a title
    | NotUrl          // no scheme or no host, or the URL does not parse
    | NotHttp         // a scheme other than http/https
    | WrongType
    | Negative
    | TooLarge
    | SummaryFailure  // a summary starting with the failure prefix
    | UnknownSource
    | BadStatus

  datatype Verdict = Accept | Reject(reason: Reason)

  predicate IsUnsafeTitleChar(c: char) { c == '<' || c == '>' || c == '"' || c == '\'' }

  /** validate_title. */
  function ValidateTitle(v: Value, cfg: Config): (r: Verdict)
    ensures r.Accept? <==>
      v.PyStr? && Text.Strip(v.s) != "" && |Text.Strip(v.s)| <= cfg.maxTitleLength && SafeTitle(Text.Strip(v.s))
    ensures r == Reject(Required) <==> !(v.PyStr? && v.s != "")
  {
    if !v.PyStr? || v.s == "" then Reject(Required)
    else
      var t := Text.Strip(v.s);
      if |t| == 0 then Reject(Blank)
      else if |t| > cfg.maxTitleLength then Reject(TooLong)
      else if exists k :: 0 <= k < |t| && IsUnsafeTitleChar(t[k]) then Reject(UnsafeChars)
      else Accept
  }

  predicate SafeTitle(t: string) {
    forall k :: 0 <= k < |t| ==> !IsUnsafeTitleChar(t[k])
  }

  /** Trimming removes only whitespace, so a title is safe exactly when the untrimmed string is. */
  lemma SafeTitleUntrimmed(s: string)
    ensures SafeTitle(Text.Strip(s)) <==> SafeTitle(s)
  {
    Text.StripIsCore(s);
    var i := Text.StripStart(s);
    var t := Text.Strip(s);
    if SafeTitle(t) {
      forall k | 0 <= k < |s| ensures !IsUnsafeTitleChar(s[k]) {
        if i <= k < i + |t| { assert s[k] == t[k - i]; }
      }
    }
    if SafeTitle(s) {
      forall k | 0 <= k < |t| ensures !IsUnsafeTitleChar(t[k]) {
        assert t[k] == s[i + k];
      }
    }
  }

  /** The URL rule shared by links and images: a parseable http/https URL with a host. */
  function CheckUrl(t: string): (r: Verdict)
    ensures r.Accept? <==> UrlAccepted(t)
  {
    match Url.UrlSplit(t)
    case Err(_) => Reject(NotUrl)
    case Ok(u) =>
      if u.scheme == "" || u.netloc == "" then Reject(NotUrl)
      else if u.scheme != "http" && u.scheme != "https" then Reject(NotHttp)
      else Accept
  }

  predicate UrlAccepted(t: string) {
    Url.UrlSplit(t).Ok? && Url.UrlSplit(t).value.scheme in {"http", "https"} && Url.UrlSplit(t).value.netloc != ""
  }

  /** validate_link. */
  function ValidateLink(v: Value, cfg: Config): (r: Verdict)
    ensures r.Accept? <==>
      v.PyStr? && Text.Strip(v.s) != "" && |Text.Strip(v.s)| <= cfg.maxLinkLength && UrlAccepted(Text.Strip(v.s))
  {
    if !v.PyStr? || v.s == "" then Reject(Required)
    else
      var t := Text.Strip(v.s);
      if |t| == 0 then Reject(Blank)
      else if |t| > cfg.maxLinkLength then Reject(TooLong)
      else CheckUrl(t)
  }

  /** validate_image: optional, and a blank string counts as absent. */
  function ValidateImage(v: Value, cfg: Config): (r: Verdict)
    ensures r.Accept? <==>
      v.PyNone? || (v.PyStr? && (Text.Strip(v.s) == "" || (|Text.Strip(v.s)| <= cfg.maxLinkLength && UrlAccepted(Text.Strip(v.s)))))
  {
    if v.PyNone? then Accept
    else if !v.PyStr? then Reject(WrongType)
    else
      var t := Text.Strip(v.s);
      if |t| == 0 then Accept
      else if |t| > cfg.maxLinkLength then Reject(TooLong)
      else CheckUrl(t)
  }

  /** validate_resumo. */
  function ValidateResumo(v: Value, cfg: Config): (r: Verdict)
    ensures r.Accept? <==>
      v.PyStr? && Text.Strip(v.s) != "" && |Text.Strip(v.s)| <= cfg.maxResumoLength
      && !Text.StartsWith(Text.Strip(v.s), FailurePrefix)
    ensures r == Reject(SummaryFailure) <==>
      v.PyStr? && |Text.Strip(v.s)| <= cfg.maxResumoLength && Text.StartsWith(Text.Strip(v.s), FailurePrefix)
  {
    if !v.PyStr? || v.s == "" then Reject(Required)
    else
      var t := Text.Strip(v.s);
      if |t| == 0 then Reject(Blank)
      else if |t| > cfg.maxResumoLength then Reject(TooLong)
      else if Text.StartsWith(t, FailurePrefix) then Reject(SummaryFailure)
      else Accept
  }

  /** validate_cluster. */
  function ValidateCluster(v: Value): (r: Verdict)
    ensures r.Accept? <==> v.PyNone? || (IsInt(v) && 0 <= AsInt(v) <= 10)
  {
    if v.PyNone? then Accept
    else if !IsInt(v) then Reject(WrongType)
    else if AsInt(v) < 0 then Reject(Negative)
    else if AsInt(v) > 10 then Reject(TooLarge)
    else Accept
  }

  /** validate_fonte: the trimmed source must be one of the allowed ones. */
  function ValidateFonte(v: Value, cfg: Config): (r: Verdict)
    ensures r.Accept? <==> v.PyStr? && Text.Strip(v.s) != "" && Text.Strip(v.s) in cfg.allowedSources
  {
    if !v.PyStr? || v.s == "" then Reject(Required)
    else
      var t := Text.Strip(v.s);
      if |t| == 0 then Reject(Blank)
      else if t !in cfg.allowedSources then Reject(UnknownSource)
      else Accept
  }

  /** validate_score. */
  function ValidateScore(v: Value): (r: Verdict)
    ensures r.Accept? <==> v.PyNone? || (IsNumber(v) && 0.0 <= AsReal(v) <= 100.0)
  {
    if v.PyNone? then Accept
    else if !IsNumber(v) then Reject(WrongType)
    else if AsReal(v) < 0.0 then Reject(Negative)
    else if AsReal(v) > 100.0 then Reject(TooLarge)
    else Accept
  }

  /** validate_status: anything but a non-empty string passes; a string must name a known status. */
  function ValidateStatus(v: Value): (r: Verdict)
    ensures r.Accept? <==>
      !(v.PyStr? && v.s != "") || Text.Lower(Text.Strip(v.s)) in {"postada", "arquivada"}
  {
    if !v.PyStr? || v.s == "" then Accept
    else if Text.Lower(Text.Strip(v.s)) !in {"postada", "arquivada"} then Reject(BadStatus)
    else Accept
  }

  /** The validator run for a field present in the record. */
  function CheckField(f: Field, v: Value, cfg: Config): Verdict {
    match f
    case Titulo => ValidateTitle(v, cfg)
    case Link => ValidateLink(v, cfg)
    case Imagem => ValidateImage(v, cfg)
    case Resumo => ValidateResumo(v, cfg)
    case Cluster => ValidateCluster(v)
    case Fonte => ValidateFonte(v, cfg)
    case Score => ValidateScore(v)
    case Status => ValidateStatus(v)
  }

  datatype ValidationError = Missing(field: Field) | Empty(field: Field) | Invalid(field: Field, reason: Reason)

  /** The required-field test: None, or a string that strips to nothing. */
  predicate EmptyValue(v: Value) {
    v.PyNone? || (v.PyStr? && Text.Strip(v.s) == "")
  }

  function RequiredCheck(data: Record, f: Field): seq<ValidationError> {
    if f !in data then [Missing(f)] else if EmptyValue(data[f]) then [Empty(f)] else []
  }

  function FieldCheck(data: Record, f: Field, cfg: Config): seq<ValidationError> {
    if f in data && CheckField(f, data[f], cfg).Reject? then [Invalid(f, CheckField(f, data[f], cfg).reason)] else []
  }

  /** The errors of the first loop, field by field in order. */
  function RequiredErrors(data: Record, fields: seq<Field>): seq<ValidationError> {
    if fields == [] then []
    else RequiredErrors(data, fields[..|fields| - 1]) + RequiredCheck(data, fields[|fields| - 1])
  }

  /** The errors of the second loop, field by field in order. */
  function FieldErrors(data: Record, fields: seq<Field>, cfg: Config): seq<ValidationError> {
    if fields == [] then []
    else FieldErrors(data, fields[..|fields| - 1], cfg) + FieldCheck(data, fields[|fields| - 1], cfg)
  }

  /** Required-field errors alone when there are any; otherwise the per-field errors. */
  function Errors(data: Record, required: seq<Field>, checked: seq<Field>, cfg: Config): seq<ValidationError> {
    var req := RequiredErrors(data, required);
    if req != [] then req else FieldErrors(data, checked, cfg)
  }

  const BasicRequired: seq<Field> := [Titulo, Link, Fonte]
  const BasicChecked: seq<Field> := [Titulo, Link, Imagem, Fonte]
  const CompleteRequired: seq<Field> := [Titulo, Link, Resumo, Cluster, Fonte]
  const CompleteChecked: seq<Field> := [Titulo, Link, Imagem, Resumo, Cluster, Fonte, Score, Status]

  /** The shared body of validate_basic_news and validate_complete_news. */
  method ValidateFields(data: Record, required: seq<Field>, checked: seq<Field>, cfg: Config)
    returns (ok: bool, errors: seq<ValidationError>)
    ensures errors == Errors(data, required, checked, cfg)
    ensures ok <==> errors == []
  {
    errors := [];
    for i := 0 to |required|
      invariant errors == RequiredErrors(data, required[..i])
    {
      assert required[..i + 1][..i] == required[..i];
      var f := required[i];
      if f !in data {
        errors := errors + [Missing(f)];
      } else if data[f].PyNone? || (data[f].PyStr? && Text.Strip(data[f].s) == "") {
        errors := errors + [Empty(f)];
      }
    }
    assert required[..|required|] == required;
    if errors != [] {
      return false, errors;
    }
    for i := 0 to |checked|
      invariant errors == FieldErrors(data, checked[..i], cfg)
    {
      assert checked[..i + 1][..i] == checked[..i];
      var f := checked[i];
      if f in data {
        var verdict := CheckField(f, data[f], cfg);
        if verdict.Reject? {
          errors := errors + [Invalid(f, verdict.reason)];
        }
      }
    }
    assert checked[..|checked|] == checked;
    ok := |errors| == 0;
  }

  /** validate_basic_news. */
  method ValidateBasicNews(data: Record, cfg: Config) returns (ok: bool, errors: seq<ValidationError>)
    ensures errors == Errors(data, BasicRequired, BasicChecked, cfg)
    ensures ok <==> errors == []
  {
    ok, errors := ValidateFields(data, BasicRequired, BasicChecked, cfg);
  }

  /** validate_complete_news. */
  method ValidateCompleteNews(data: Record, cfg: Config) returns (ok: bool, errors: seq<ValidationError>)
    ensures errors == Errors(data, CompleteRequired, CompleteChecked, cfg)
    ensures ok <==> errors == []
  {
    ok, errors := ValidateFields(data, CompleteRequired, CompleteChecked, cfg);
  }

  lemma {:induction false} RequiredErrorsEmpty(data: Record, fields: seq<Field>)
    ensures RequiredErrors(data, fields) == [] <==> forall f :: f in fields ==> f in data && !EmptyValue(data[f])
    decreases |fields|
  {
    if fields != [] {
      var init := fields[..|fields| - 1];
      RequiredErrorsEmpty(data, init);
      assert fields == init + [fields[|fields| - 1]];
    }
  }

  lemma {:induction false} FieldErrorsEmpty(data: Record, fields: seq<Field>, cfg: Config)
    ensures FieldErrors(data, fields, cfg) == [] <==> forall f :: f in fields && f in data ==> CheckField(f, data[f], cfg).Accept?
    decreases |fields|
  {
    if fields != [] {
      var init := fields[..|fields| - 1];
      FieldErrorsEmpty(data, init, cfg);
      assert fields == init + [fields[|fields| - 1]];
    }
  }

  lemma {:induction false} RequiredErrorsKinds(data: Record, fields: seq<Field>)
    ensures forall e :: e in RequiredErrors(data, fields) ==> (e.Missing? || e.Empty?) && e.field in fields
    decreases |fields|
  {
    if fields != [] {
      var init := fields[..|fields| - 1];
      RequiredErrorsKinds(data, init);
      assert fields == init + [fields[|fields| - 1]];
    }
  }

  /**
   * A record passes exactly when every required field is present and non-empty and every
   * checked field that is present passes its validator.
   */
  lemma ErrorsEmptyIff(data: Record, required: seq<Field>, checked: seq<Field>, cfg: Config)
    ensures Errors(data, required, checked, cfg) == [] <==>
      (forall f :: f in required ==> f in data && !EmptyValue(data[f]))
      && (forall f :: f in checked && f in data ==> CheckField(f, data[f], cfg).Accept?)
  {
    RequiredErrorsEmpty(data, required);
    FieldErrorsEmpty(data, checked, cfg);
  }

  /** A missing or empty required field short-circuits: only required-field errors are reported. */
  lemma RequiredFirst(data: Record, required: seq<Field>, checked: seq<Field>, cfg: Config)
    requires exists f :: f in required && (f !in data || EmptyValue(data[f]))
    ensures Errors(data, required, checked, cfg) != []
    ensures forall e :: e in Errors(data, required, checked, cfg) ==> (e.Missing? || e.Empty?) && e.field in required
  {
    RequiredErrorsEmpty(data, required);
    RequiredErrorsKinds(data, required);
  }

  /** A checked field present in a passing record passes its validator. */
  lemma PassesChecked(data: Record, required: seq<Field>, checked: seq<Field>, cfg: Config, f: Field)
    requires Errors(data, required, checked, cfg) == []
    requires f in checked && f in data
    ensures CheckField(f, data[f], cfg).Accept?
  {
    ErrorsEmptyIff(data, required, checked, cfg);
  }

  /** A required field of a passing record is present and not empty. */
  lemma PassesRequired(data: Record, required: seq<Field>, checked: seq<Field>, cfg: Config, f: Field)
    requires Errors(data, required, checked, cfg) == []
    requires f in required
    ensures f in data && !EmptyValue(data[f])
  {
    ErrorsEmptyIff(data, required, checked, cfg);
  }

  lemma PassingString(data: Record, required: seq<Field>, checked: seq<Field>, cfg: Config, f: Field)
    requires f in {Titulo, Link, Resumo, Fonte} && f in required && f in checked
    requires Errors(data, required, checked, cfg) == []
    ensures f in data && data[f].PyStr?
  {
    PassesRequired(data, required, checked, cfg, f);
    PassesChecked(data, required, checked, cfg, f);
  }

  lemma PassingImage(data: Record, required: seq<Field>, checked: seq<Field>, cfg: Config)
    requires Imagem in checked
    requires Errors(data, required, checked, cfg) == []
    ensures Imagem in data ==> data[Imagem].PyNone? || data[Imagem].PyStr?
  {
    if Imagem in data {
      PassesChecked(data, required, checked, cfg, Imagem);
    }
  }

  lemma PassingFonte(data: Record, required: seq<Field>, checked: seq<Field>, cfg: Config)
    requires Fonte in required && Fonte in checked
    requires Errors(data, required, checked, cfg) == []
    ensures Fonte in data && data[Fonte].PyStr? && Text.Strip(data[Fonte].s) in cfg.allowedSources
  {
    PassesRequired(data, required, checked, cfg, Fonte);
    PassesChecked(data, required, checked, cfg, Fonte);
  }

  lemma PassingResumo(data: Record, required: seq<Field>, checked: seq<Field>, cfg: Config)
    requires Resumo in required && Resumo in checked
    requires Errors(data, required, checked, cfg) == []
    ensures Resumo in data && data[Resumo].PyStr? && !Text.StartsWith(Text.Strip(data[Resumo].s), FailurePrefix)
  {
    PassesRequired(data, required, checked, cfg, Resumo);
    PassesChecked(data, required, checked, cfg, Resumo);
  }

  lemma PassingCluster(data: Record, required: seq<Field>, checked: seq<Field>, cfg: Config)
    requires Cluster in required && Cluster in checked
    requires Errors(data, required, checked, cfg) == []
    ensures Cluster in data && IsInt(data[Cluster]) && 0 <= AsInt(data[Cluster]) <= 10
  {
    PassesRequired(data, required, checked, cfg, Cluster);
    PassesChecked(data, required, checked, cfg, Cluster);
  }

  lemma PassingScore(data: Record, required: seq<Field>, checked: seq<Field>, cfg: Config)
    requires Score in checked
    requires Errors(data, required, checked, cfg) == []
    ensures Score in data ==> data[Score].PyNone? || (IsNumber(data[Score]) && 0.0 <= AsReal(data[Score]) <= 100.0)
  {
    if Score in data {
      PassesChecked(data, required, checked, cfg, Score);
    }
  }

  /**
   * A record passing validate_basic_news has string title, link and source, a source that is
   * allowed once trimmed, and an image that is None or a string.
   */
  lemma BasicNewsShape(data: Record, cfg: Config)
    requires Errors(data, BasicRequired, BasicChecked, cfg) == []
    ensures Titulo in data && data[Titulo].PyStr? && Link in data && data[Link].PyStr?
    ensures Fonte in data && data[Fonte].PyStr? && Text.Strip(data[Fonte].s) in cfg.allowedSources
    ensures Imagem in data ==> data[Imagem].PyNone? || data[Imagem].PyStr?
  {
    PassingString(data, BasicRequired, BasicChecked, cfg, Titulo);
    PassingString(data, BasicRequired, BasicChecked, cfg, Link);
    PassingFonte(data, BasicRequired, BasicChecked, cfg);
    PassingImage(data, BasicRequired, BasicChecked, cfg);
  }

  /**
   * A record passing validate_complete_news has string title, link, source and summary, a
   * summary that is not a failure message, a cluster in 0..10 and a score in 0..100 if any.
   */
  lemma CompleteNewsShape(data: Record, cfg: Config)
    requires Errors(data, CompleteRequired, CompleteChecked, cfg) == []
    ensures Titulo in data && data[Titulo].PyStr? && Link in data && data[Link].PyStr?
    ensures Fonte in data && data[Fonte].PyStr? && Text.Strip(data[Fonte].s) in cfg.allowedSources
    ensures Resumo in data && data[Resumo].PyStr? && !Text.StartsWith(Text.Strip(data[Resumo].s), FailurePrefix)
    ensures Cluster in data && IsInt(data[Cluster]) && 0 <= AsInt(data[Cluster]) <= 10
    ensures Imagem in data ==> data[Imagem].PyNone? || data[Imagem].PyStr?
    ensures Score in data ==> data[Score].PyNone? || (IsNumber(data[Score]) && 0.0 <= AsReal(data[Score]) <= 100.0)
  {
    PassingString(data, CompleteRequired, CompleteChecked, cfg, Titulo);
    PassingString(data, CompleteRequired, CompleteChecked, cfg, Link);
    PassingFonte(data, CompleteRequired, CompleteChecked, cfg);
    PassingResumo(data, CompleteRequired, CompleteChecked, cfg);
    PassingCluster(data, CompleteRequired, CompleteChecked, cfg);
    PassingImage(data, CompleteRequired, CompleteChecked, cfg);
    PassingScore(data, CompleteRequired, CompleteChecked, cfg);
  }

  /**
   * The HTML escaping of sanitize_data: every `<` becomes `&lt;` and every `>` becomes `&gt;`.
   * Replacing `<` first cannot create a `>`, so the two chained replaces act character by character.
   */
  function EscapeAngles(s: string): (r: string)
    ensures '<' !in r && '>' !in r
    ensures r == [] <==> s == []
  {
    if s == [] then [] else EscapeChar(s[0]) + EscapeAngles(s[1..])
  }

  function EscapeChar(c: char): string {
    if c == '<' then "&lt;" else if c == '>' then "&gt;" else [c]
  }

  lemma {:induction false} EscapeAnglesFixed(s: string)
    requires '<' !in s && '>' !in s
    ensures EscapeAngles(s) == s
    decreases |s|
  {
    if s != [] {
      EscapeAnglesFixed(s[1..]);
    }
  }

  lemma {:induction false} EscapeAnglesLast(s: string)
    requires s != []
    ensures Text.IsSpace(EscapeAngles(s)[|EscapeAngles(s)| - 1]) <==> Text.IsSpace(s[|s| - 1])
    decreases |s|
  {
    if |s| > 1 {
      EscapeAnglesLast(s[1..]);
      assert s[1..][|s| - 2] == s[|s| - 1];
    }
  }

  lemma {:induction false} EscapeAnglesSingleSpaced(s: string)
    requires Text.SingleSpaced(s)
    ensures Text.SingleSpaced(EscapeAngles(s))
    decreases |s|
  {
    if s != [] {
      assert Text.SingleSpaced(s[1..]);
      EscapeAnglesSingleSpaced(s[1..]);
      var head := EscapeChar(s[0]);
      assert Text.SingleSpaced(head);
      if |s| > 1 {
        assert !(Text.IsSpace(s[0]) && Text.IsSpace(s[1]));
      }
      Text.ConcatSingleSpaced(head, EscapeAngles(s[1..]));
    }
  }

  /** What sanitize_data does to a string field. */
  function SanitizeText(s: string): string {
    EscapeAngles(Text.CollapseSpaces(Text.Strip(s)))
  }

  /** Trimmed, single-spaced and free of angle brackets. */
  predicate Clean(t: string) {
    Text.Trimmed(t) && Text.SingleSpaced(t) && '<' !in t && '>' !in t
  }

  lemma SanitizeTextClean(s: string)
    ensures Clean(SanitizeText(s))
    ensures SanitizeText(s) == "" <==> Text.Strip(s) == ""
  {
    var t := Text.Strip(s);
    Text.StripIsCore(s);
    var c := Text.CollapseSpaces(t);
    Text.CollapseSpacesTrimmed(t);
    Text.CollapseSpacesSingleSpaced(t);
    if t != [] { Text.CollapseSpacesFirst(t); }
    var r := EscapeAngles(c);
    EscapeAnglesSingleSpaced(c);
    if c != [] {
      EscapeAnglesLast(c);
    }
  }

  /** A clean string is left alone. */
  lemma SanitizeTextFixed(t: string)
    requires Clean(t)
    ensures SanitizeText(t) == t
  {
    Text.StripTrimmed(t);
    Text.CollapseSpacesFixed(t);
    EscapeAnglesFixed(t);
  }

  /** The fields sanitize_data rewrites when they hold a string, in the order it visits them. */
  const StringFields: seq<Field> := [Titulo, Link, Imagem, Resumo, Fonte, Status]

  predicate IsStringField(f: Field) { !f.Cluster? && !f.Score? }

  /** The sanitised value of one field; an image that ends up empty becomes None. */
  function SanitizedValue(f: Field, v: Value): Value {
    if IsStringField(f) && v.PyStr? then
      var t := SanitizeText(v.s);
      if f == Imagem && t == "" then PyNone else PyStr(t)
    else v
  }

  /** sanitize_data's result: a copy of the record with every string field sanitised. */
  function Sanitized(data: Record): Record {
    map f | f in data :: SanitizedValue(f, data[f])
  }

  /** The value of a visited field after the loop of sanitize_data. */
  function SanitizedString(v: Value): Value {
    if v.PyStr? then PyStr(SanitizeText(v.s)) else v
  }

  lemma SanitizedStringTwice(v: Value)
    ensures SanitizedString(SanitizedString(v)) == SanitizedString(v)
  {
    if v.PyStr? {
      SanitizeTextClean(v.s);
      SanitizeTextFixed(SanitizeText(v.s));
    }
  }

  /** The record after the loop of sanitize_data has visited the fields in `done`. */
  function SanitizedIn(data: Record, done: set<Field>): Record {
    map f | f in data :: if f in done then SanitizedString(data[f]) else data[f]
  }

  /** One step of sanitize_data's loop on a field holding a string: the field joins the visited set. */
  lemma SanitizeVisit(data: Record, done: set<Field>, f: Field)
    requires f in data && SanitizedIn(data, done)[f].PyStr?
    ensures SanitizedIn(data, done)[f := SanitizedString(SanitizedIn(data, done)[f])] == SanitizedIn(data, done + {f})
  {
    var r := SanitizedIn(data, done);
    var r' := SanitizedIn(data, done + {f});
    if f in done {
      SanitizedStringTwice(data[f]);
    }
    var u := r[f := SanitizedString(r[f])];
    assert u[f] == r'[f];
    assert u.Keys == r'.Keys;
  }

  /** One step of sanitize_data's loop on a field that is absent or not a string changes nothing. */
  lemma SanitizeSkip(data: Record, done: set<Field>, f: Field)
    requires f !in data || !SanitizedIn(data, done)[f].PyStr?
    ensures SanitizedIn(data, done) == SanitizedIn(data, done + {f})
  {
    if f in data {
      assert !data[f].PyStr?;
    }
  }

  /** Once every string field is visited, replacing an empty image by None gives Sanitized. */
  lemma SanitizeFinish(data: Record, done: set<Field>)
    requires forall f :: IsStringField(f) <==> f in done
    ensures var r := SanitizedIn(data, done);
      (if Imagem in r && r[Imagem] == PyStr("") then r[Imagem := PyNone] else r) == Sanitized(data)
  {
  }

  /** sanitize_data. */
  method SanitizeData(data: Record) returns (r: Record)
    ensures r == Sanitized(data)
  {
    r := data;
    ghost var done: set<Field> := {};
    assert r == SanitizedIn(data, done);
    for i := 0 to |StringFields|
      invariant forall j :: 0 <= j < i ==> StringFields[j] in done
      invariant forall f :: f in done ==> IsStringField(f)
      invariant r == SanitizedIn(data, done)
    {
      var f := StringFields[i];
      if f in r && r[f].PyStr? {
        SanitizeVisit(data, done, f);
        r := r[f := PyStr(SanitizeText(r[f].s))];
      } else {
        SanitizeSkip(data, done, f);
      }
      done := done + {f};
    }
    assert forall f :: IsStringField(f) ==> f in done by {
      assert StringFields[0] == Titulo && StringFields[1] == Link && StringFields[2] == Imagem;
      assert StringFields[3] == Resumo && StringFields[4] == Fonte && StringFields[5] == Status;
    }
    SanitizeFinish(data, done);
    if Imagem in r && r[Imagem] == PyStr("") {
      r := r[Imagem := PyNone];
    }
  }

  /** What sanitising does to one field. */
  lemma SanitizedValueShape(f: Field, v: Value)
    ensures v.PyStr? && IsStringField(f) ==>
      SanitizedValue(f, v) == PyStr(SanitizeText(v.s)) || (f == Imagem && SanitizedValue(f, v) == PyNone)
    ensures !(v.PyStr? && IsStringField(f)) ==> SanitizedValue(f, v) == v
    ensures SanitizedValue(f, v).PyStr? && IsStringField(f) ==> Clean(SanitizedValue(f, v).s)
    ensures f == Imagem ==> SanitizedValue(f, v) != PyStr("")
    ensures f == Imagem && v.PyStr? && Text.Strip(v.s) == "" ==> SanitizedValue(f, v) == PyNone
  {
    if v.PyStr? {
      SanitizeTextClean(v.s);
    }
  }

  /**
   * After sanitising, every string field is clean, an image is never the empty string, and
   * fields that were not strings are untouched; no field is added or dropped.
   */
  lemma SanitizedShape(data: Record)
    ensures Sanitized(data).Keys == data.Keys
    ensures forall f :: f in data && data[f].PyStr? && IsStringField(f) ==>
      Sanitized(data)[f] == PyStr(SanitizeText(data[f].s)) || (f == Imagem && Sanitized(data)[f] == PyNone)
    ensures forall f :: f in data && !(data[f].PyStr? && IsStringField(f)) ==> Sanitized(data)[f] == data[f]
    ensures forall f :: f in data && Sanitized(data)[f].PyStr? && IsStringField(f) ==> Clean(Sanitized(data)[f].s)
    ensures Imagem in data ==> Sanitized(data)[Imagem] != PyStr("")
    ensures Imagem in data && data[Imagem].PyStr? && Text.Strip(data[Imagem].s) == "" ==> Sanitized(data)[Imagem] == PyNone
  {
    forall f | f in data {
      SanitizedValueShape(f, data[f]);
    }
  }

  /** Sanitising twice gives the same record as sanitising once. */
  lemma SanitizeIdempotent(data: Record)
    ensures Sanitized(Sanitized(data)) == Sanitized(data)
  {
    var once := Sanitized(data);
    forall f | f in once ensures SanitizedValue(f, once[f]) == once[f] {
      SanitizedValueShape(f, data[f]);
      if IsStringField(f) && once[f].PyStr? {
        SanitizeTextFixed(once[f].s);
      }
    }
  }
}
