/**
 * `NewsItem` (api/models.py): the API's view of an archived news row. Field constraints
 * (`max_length`, `ge`) are checked on the raw value first, then the field validators trim the
 * text fields and reject blank ones; any failure rejects the whole item.
 */
module ApiModels {
  import opened Wrappers
  import opened PyValues
  import Text
  import Validator

  const MaxTitulo: nat := 500
  const MaxLink: nat := 1000
  const MaxImagem: nat := 1000
  const MaxResumo: nat := 2000
  const MaxFonte: nat := 100

  /** A row as the store hands it over (`get_api_data`): the columns that may be NULL are options. */
  datatype RawNews = RawNews(id: int, titulo: string, link: string, imagem: Option<string>, resumo: string,
                             fonte: string, score: Option<real>, cluster: int, dataSelecao: nat,
                             status: Option<string>)

  datatype NewsItem = NewsItem(id: int, titulo: string, link: string, imagem: Option<string>, resumo: string,
                               fonte: string, score: Option<real>, cluster: int, dataSelecao: nat,
                               status: string)

  /** Within `max_length`, and not blank. */
  predicate TextOk(v: string, maxLen: nat) {
    |v| <= maxLen && !Text.IsBlank(v)
  }

  /** Within `max_length`, not blank, and starting with an http or https scheme. */
  predicate LinkOk(v: string) {
    TextOk(v, MaxLink) && (Text.StartsWith(v, "http://") || Text.StartsWith(v, "https://"))
  }

  /** `max_length` and then `if not v or not v.strip(): raise`; the value kept is `v.strip()`. */
  function CheckedText(v: string, maxLen: nat): (r: Option<string>)
    ensures r.Some? <==> TextOk(v, maxLen)
    ensures r.Some? ==> r.value == Text.Strip(v)
  {
    Text.StripBlank(v);
    if |v| > maxLen || v == "" || Text.Strip(v) == "" then None else Some(Text.Strip(v))
  }

  /** validate_link: the scheme test is on the untrimmed value. */
  function CheckedLink(v: string): (r: Option<string>)
    ensures r.Some? <==> LinkOk(v)
    ensures r.Some? ==> r.value == Text.Strip(v)
  {
    Text.StripBlank(v);
    if |v| > MaxLink || v == "" || Text.Strip(v) == "" then None
    else if !(Text.StartsWith(v, "http://") || Text.StartsWith(v, "https://")) then None
    else Some(Text.Strip(v))
  }

  /** validate_status: exact membership, no trimming and no case folding. */
  predicate StatusAllowed(s: string) {
    s == "postada" || s == "arquivada"
  }

  /** The constraints on the four text fields. */
  predicate FieldsOk(raw: RawNews) {
    TextOk(raw.titulo, MaxTitulo) && LinkOk(raw.link) && TextOk(raw.resumo, MaxResumo) && TextOk(raw.fonte, MaxFonte)
  }

  /** Every constraint of the model, stated on the raw row. */
  predicate Accepts(raw: RawNews) {
    FieldsOk(raw)
    && (raw.imagem.None? || |raw.imagem.value| <= MaxImagem)
    && (raw.score.None? || raw.score.value >= 0.0)
    && raw.cluster >= 0
    && raw.status.Some? && StatusAllowed(raw.status.value)
  }

  /** The four text fields after their validators: trimmed, or None if any of them raises. */
  function CheckedFields(raw: RawNews): (r: Option<(string, string, string, string)>)
    ensures r.Some? <==> FieldsOk(raw)
    ensures r.Some? ==>
      r.value == (Text.Strip(raw.titulo), Text.Strip(raw.link), Text.Strip(raw.resumo), Text.Strip(raw.fonte))
  {
    var titulo := CheckedText(raw.titulo, MaxTitulo);
    var link := CheckedLink(raw.link);
    var resumo := CheckedText(raw.resumo, MaxResumo);
    var fonte := CheckedText(raw.fonte, MaxFonte);
    if titulo.None? || link.None? || resumo.None? || fonte.None? then None
    else Some((titulo.value, link.value, resumo.value, fonte.value))
  }

  /** `NewsItem(**news)`: None where pydantic raises a ValidationError. */
  function ToNewsItem(raw: RawNews): (r: Option<NewsItem>)
    ensures r.Some? <==> Accepts(raw)
    ensures r.Some? ==>
      r.value.id == raw.id && r.value.imagem == raw.imagem && r.value.score == raw.score
      && r.value.cluster == raw.cluster && r.value.dataSelecao == raw.dataSelecao
      && Some(r.value.status) == raw.status
      && r.value.titulo == Text.Strip(raw.titulo) && r.value.link == Text.Strip(raw.link)
      && r.value.resumo == Text.Strip(raw.resumo) && r.value.fonte == Text.Strip(raw.fonte)
  {
    var fields := CheckedFields(raw);
    if fields.None? then None
    else if raw.imagem.Some? && |raw.imagem.value| > MaxImagem then None
    else if raw.score.Some? && raw.score.value < 0.0 then None
    else if raw.cluster < 0 then None
    else if raw.status.None? || !StatusAllowed(raw.status.value) then None
    else
      Some(NewsItem(raw.id, fields.value.0, fields.value.1, raw.imagem, fields.value.2, fields.value.3,
                    raw.score, raw.cluster, raw.dataSelecao, raw.status.value))
  }

  /** `item.dict()` fed back into `NewsItem(**...)`. */
  function AsRaw(item: NewsItem): RawNews {
    RawNews(item.id, item.titulo, item.link, item.imagem, item.resumo, item.fonte, item.score,
            item.cluster, item.dataSelecao, Some(item.status))
  }

  /** A value that passed CheckedText is trimmed, non-blank, and passes again unchanged. */
  lemma CheckedTextStable(v: string, maxLen: nat)
    requires CheckedText(v, maxLen).Some?
    ensures var w := CheckedText(v, maxLen).value;
      w != "" && Text.Trimmed(w) && CheckedText(w, maxLen) == Some(w)
  {
    var w := Text.Strip(v);
    Text.StripIsCore(v);
    Text.StripBlank(v);
    Text.StripIdempotent(v);
    Text.StripBlank(w);
  }

  /** A trimmed link that passed keeps its scheme prefix, and passes again unchanged. */
  lemma CheckedLinkStable(v: string)
    requires CheckedLink(v).Some?
    ensures var w := CheckedLink(v).value;
      w != "" && Text.Trimmed(w) && CheckedLink(w) == Some(w)
  {
    CheckedTextStable(v, MaxLink);
    var w := Text.Strip(v);
    assert Text.StartsWith(w, "http://") || Text.StartsWith(w, "https://") by {
      SchemeSurvivesStrip(v, "http://");
      SchemeSurvivesStrip(v, "https://");
    }
  }

  /** A scheme prefix survives trimming: it begins with a letter and ends with '/'. */
  lemma SchemeSurvivesStrip(v: string, scheme: string)
    requires scheme == "http://" || scheme == "https://"
    ensures Text.StartsWith(v, scheme) ==> Text.StartsWith(Text.Strip(v), scheme)
  {
    if Text.StartsWith(v, scheme) {
      assert scheme[0] == 'h' && scheme[|scheme| - 1] == '/';
      Text.PrefixSurvivesStrip(v, scheme);
    }
  }

  /**
   * Re-validating a validated item (a cache hit is rebuilt with `NewsItem(**cached)`) gives the
   * same item back.
   */
  lemma RevalidateIsIdentity(raw: RawNews)
    requires ToNewsItem(raw).Some?
    ensures ToNewsItem(AsRaw(ToNewsItem(raw).value)) == ToNewsItem(raw)
  {
    var item := ToNewsItem(raw).value;
    CheckedTextStable(raw.titulo, MaxTitulo);
    CheckedLinkStable(raw.link);
    CheckedTextStable(raw.resumo, MaxResumo);
    CheckedTextStable(raw.fonte, MaxFonte);
    assert CheckedFields(AsRaw(item)) == Some((item.titulo, item.link, item.resumo, item.fonte));
    assert Accepts(AsRaw(item));
  }

  /** A link with leading whitespace is rejected, although the stored value would be trimmed. */
  lemma LeadingSpaceLinkRejected(v: string)
    requires |v| > 0 && Text.IsSpace(v[0])
    ensures CheckedLink(v).None?
  {
    NoSchemeAfterSpace(v, "http://");
    NoSchemeAfterSpace(v, "https://");
  }

  /** A string whose first character is whitespace does not start with a scheme. */
  lemma NoSchemeAfterSpace(v: string, scheme: string)
    requires |v| > 0 && Text.IsSpace(v[0])
    requires scheme == "http://" || scheme == "https://"
    ensures !Text.StartsWith(v, scheme)
  {
    assert scheme[0] == 'h' && !Text.IsSpace('h');
    assert |scheme| <= |v| ==> v[..|scheme|][0] == v[0];
  }

  /** Every status the API accepts passes the store's validate_status. */
  lemma ApiStatusPassesStore(s: string)
    requires StatusAllowed(s)
    ensures Validator.ValidateStatus(PyStr(s)).Accept?
  {
    assert Text.Trimmed(s);
    Text.StripTrimmed(s);
    assert Text.Lower(s) == s;
  }

  /** But not conversely: the store trims and lower-cases, the API compares exactly. */
  lemma StoreStatusLooser()
    ensures Validator.ValidateStatus(PyStr("Postada")).Accept? && !StatusAllowed("Postada")
  {
    var t := "Postada";
    assert Text.Trimmed(t);
    Text.StripTrimmed(t);
    assert Text.Lower(t) == "postada";
  }
}
