/**
 * sumarizar_textos (pipeline/summarizer.py): feeds each extracted text, cut to the model's
 * input length, to the summarisation model and writes the result into the `resumo` column of
 * its row; a model error becomes a `"Falha na sumarização: ..."` sentinel in that row instead.
 * The model is a parameter: a function from input text to a summary or an error message.
 */
module Summarizer {
  import opened Wrappers
  import Seqs
  import Text
  import PyValues
  import Validator
  import NewsFrame

  /** `MODEL_CONFIG['max_length']`: the model input is cut to this many characters. */
  const MaxLength: nat := 1024

  /** What a failed row's summary starts with. */
  const FailureSentinel: string := "Falha na sumarização: "

  /** The summariser: a summary, or the text of the exception it raised. */
  type Model = string -> Result<string, string>

  /** `texto[:MODEL_CONFIG['max_length']]`. */
  function Truncate(texto: string): (r: string)
    ensures |r| <= MaxLength && |r| <= |texto| && r == texto[..|r|]
    ensures |texto| <= MaxLength ==> r == texto
    ensures |texto| > MaxLength ==> |r| == MaxLength
  {
    Seqs.Take(texto, MaxLength)
  }

  /** What ends up in the row: the model's summary, or the sentinel with the error's text. */
  function Outcome(model: Model, texto: string): string {
    match model(Truncate(texto))
    case Ok(s) => s
    case Err(e) => FailureSentinel + e
  }

  /** A row's summary is what the model made of the truncated text, or a failure sentinel. */
  lemma OutcomeShape(model: Model, texto: string)
    ensures model(Truncate(texto)).Ok? ==> Outcome(model, texto) == model(Truncate(texto)).value
    ensures model(Truncate(texto)).Err? ==> Text.StartsWith(Outcome(model, texto), FailureSentinel)
  {
    var o := Outcome(model, texto);
    if model(Truncate(texto)).Err? {
      assert o[..|FailureSentinel|] == FailureSentinel;
    }
  }

  /**
   * Every failure sentinel is refused by the store's validate_resumo, whatever the error text
   * and the configured maximum length.
   */
  lemma SentinelRejected(e: string, cfg: Validator.Config)
    ensures Validator.ValidateResumo(PyValues.PyStr(FailureSentinel + e), cfg).Reject?
  {
    var s := FailureSentinel + e;
    assert s[..|Validator.FailurePrefix|] == Validator.FailurePrefix;
    Text.PrefixSurvivesStrip(s, Validator.FailurePrefix);
  }

  /** `df_noticias.loc[indice_df, 'resumo'] = v`. */
  function WriteResumo(f: NewsFrame.Frame, idx: nat, v: string): NewsFrame.Frame
    requires idx < |f.rows|
  {
    NewsFrame.Frame(f.rows[idx := f.rows[idx].(resumo := Some(v))], true)
  }

  predicate IndicesOk(f: NewsFrame.Frame, indices: seq<nat>) {
    forall k :: 0 <= k < |indices| ==> indices[k] < |f.rows|
  }

  /** The frame after the first `n` (text, index) pairs. */
  function Apply(f: NewsFrame.Frame, textos: seq<string>, indices: seq<nat>, model: Model, n: nat): (r: NewsFrame.Frame)
    requires n <= |textos| && n <= |indices| && IndicesOk(f, indices)
    ensures |r.rows| == |f.rows| && (n > 0 ==> r.hasResumo) && (n == 0 ==> r == f)
  {
    if n == 0 then f
    else WriteResumo(Apply(f, textos, indices, model, n - 1), indices[n - 1], Outcome(model, textos[n - 1]))
  }

  /**
   * sumarizar_textos: nothing happens when either list is empty or the model cannot be loaded;
   * otherwise the pairs of `zip(textos, indices)` are processed in order.
   */
  function Summarize(f: NewsFrame.Frame, textos: seq<string>, indices: seq<nat>, model: Model, loaded: bool): NewsFrame.Frame
    requires IndicesOk(f, indices)
  {
    if textos == [] || indices == [] || !loaded then f
    else Apply(f, textos, indices, model, Seqs.Min(|textos|, |indices|))
  }

  /** Writing a summary into row `idx` changes that row's `resumo` and nothing else. */
  lemma WriteResumoRow(f: NewsFrame.Frame, idx: nat, v: string, j: nat)
    requires idx < |f.rows| && j < |f.rows|
    ensures WriteResumo(f, idx, v).rows[j] == if idx == j then f.rows[j].(resumo := Some(v)) else f.rows[j]
  {
  }

  /** Row `j` after the first `n` pairs, in terms of row `j` after the first `n - 1`. */
  lemma ApplyRow(f: NewsFrame.Frame, textos: seq<string>, indices: seq<nat>, model: Model, n: nat, j: nat)
    requires 0 < n <= |textos| && n <= |indices| && IndicesOk(f, indices) && j < |f.rows|
    ensures var prev := Apply(f, textos, indices, model, n - 1).rows[j];
      Apply(f, textos, indices, model, n).rows[j]
        == if indices[n - 1] == j then prev.(resumo := Some(Outcome(model, textos[n - 1]))) else prev
  {
    WriteResumoRow(Apply(f, textos, indices, model, n - 1), indices[n - 1], Outcome(model, textos[n - 1]), j);
  }

  /** The `resumo` of row `j` after the first `n` pairs, followed pair by pair. */
  function ResumoAfter(f: NewsFrame.Frame, textos: seq<string>, indices: seq<nat>, model: Model, n: nat, j: nat): Option<string>
    requires n <= |textos| && n <= |indices| && j < |f.rows|
  {
    if n == 0 then f.rows[j].resumo
    else if indices[n - 1] == j then Some(Outcome(model, textos[n - 1]))
    else ResumoAfter(f, textos, indices, model, n - 1, j)
  }

  /** ResumoAfter is the `resumo` of row `j` in the frame the first `n` pairs produce. */
  lemma {:induction false} ResumoAfterApply(f: NewsFrame.Frame, textos: seq<string>, indices: seq<nat>, model: Model, n: nat, j: nat)
    requires n <= |textos| && n <= |indices| && IndicesOk(f, indices) && j < |f.rows|
    ensures Apply(f, textos, indices, model, n).rows[j].resumo == ResumoAfter(f, textos, indices, model, n, j)
    decreases n
  {
    if n > 0 {
      ResumoAfterApply(f, textos, indices, model, n - 1, j);
      WriteResumoRow(Apply(f, textos, indices, model, n - 1), indices[n - 1], Outcome(model, textos[n - 1]), j);
    }
  }

  /** Rows no processed pair points at are untouched. */
  lemma {:induction false} ApplyUntouched(f: NewsFrame.Frame, textos: seq<string>, indices: seq<nat>, model: Model, n: nat, j: nat)
    requires n <= |textos| && n <= |indices| && IndicesOk(f, indices) && j < |f.rows|
    requires j !in indices[..n]
    ensures Apply(f, textos, indices, model, n).rows[j] == f.rows[j]
    decreases n
  {
    if n > 0 {
      assert indices[..n - 1] == indices[..n][..n - 1];
      ApplyUntouched(f, textos, indices, model, n - 1, j);
      ApplyRow(f, textos, indices, model, n, j);
    }
  }

  /** Summarising only ever writes the `resumo` column. */
  lemma {:induction false} ApplyOnlyResumo(f: NewsFrame.Frame, textos: seq<string>, indices: seq<nat>, model: Model, n: nat, j: nat)
    requires n <= |textos| && n <= |indices| && IndicesOk(f, indices) && j < |f.rows|
    ensures Apply(f, textos, indices, model, n).rows[j].(resumo := f.rows[j].resumo) == f.rows[j]
    decreases n
  {
    if n > 0 {
      ApplyOnlyResumo(f, textos, indices, model, n - 1, j);
      ApplyRow(f, textos, indices, model, n, j);
    }
  }

  /** The last of the first `n` pairs that points at row `j`. */
  function LastIndex(indices: seq<nat>, n: nat, j: nat): (k: nat)
    requires n <= |indices| && j in indices[..n]
    ensures k < n && indices[k] == j
    ensures forall k' :: k < k' < n ==> indices[k'] != j
  {
    if indices[n - 1] == j then n - 1
    else
      InShorterPrefix(indices, n, j);
      var k := LastIndex(indices, n - 1, j);
      LaterMisses(indices, n, k, j);
      k
  }

  /**
   * A row some processed pair points at holds the outcome of the last such pair, `k`.
   */
  lemma {:induction false} ApplyTouched(f: NewsFrame.Frame, textos: seq<string>, indices: seq<nat>, model: Model, n: nat, j: nat, k: nat)
    requires n <= |textos| && n <= |indices| && j < |f.rows|
    requires k < n && indices[k] == j && forall k' :: k < k' < n ==> indices[k'] != j
    ensures ResumoAfter(f, textos, indices, model, n, j) == Some(Outcome(model, textos[k]))
    decreases n
  {
    if k < n - 1 {
      ApplyTouched(f, textos, indices, model, n - 1, j, k);
    }
  }

  /** An index found among the first `n` but not at `n - 1` is found among the first `n - 1`. */
  lemma InShorterPrefix(indices: seq<nat>, n: nat, j: nat)
    requires 0 < n <= |indices| && j in indices[..n] && indices[n - 1] != j
    ensures j in indices[..n - 1]
  {
    assert indices[..n] == indices[..n - 1] + [indices[n - 1]];
  }

  /** No pair after `k` points at `j` when none before `n - 1` does and `n - 1` does not. */
  lemma LaterMisses(indices: seq<nat>, n: nat, k: nat, j: nat)
    requires k < n <= |indices| && indices[n - 1] != j
    requires forall k' :: k < k' < n - 1 ==> indices[k'] != j
    ensures forall k' :: k < k' < n ==> indices[k'] != j
  {
  }

  /**
   * After sumarizar_textos every row the processed pairs point at has as `resumo` either the
   * model's summary of that row's text or a failure sentinel; every other row is unchanged;
   * pairs beyond the shorter list are not processed.
   */
  lemma SummarizeRows(f: NewsFrame.Frame, textos: seq<string>, indices: seq<nat>, model: Model, loaded: bool, j: nat)
    requires IndicesOk(f, indices) && j < |f.rows|
    ensures var r := Summarize(f, textos, indices, model, loaded);
      var n := if textos == [] || indices == [] || !loaded then 0 else Seqs.Min(|textos|, |indices|);
      |r.rows| == |f.rows|
      && (j !in indices[..n] ==> r.rows[j] == f.rows[j])
      && (j in indices[..n] ==> exists k :: (0 <= k < n && indices[k] == j
            && r.rows[j] == f.rows[j].(resumo := Some(Outcome(model, textos[k])))))
  {
    var n := if textos == [] || indices == [] || !loaded then 0 else Seqs.Min(|textos|, |indices|);
    if j in indices[..n] {
      var k := LastIndex(indices, n, j);
      ApplyTouched(f, textos, indices, model, n, j, k);
      ResumoAfterApply(f, textos, indices, model, n, j);
      ApplyOnlyResumo(f, textos, indices, model, n, j);
    } else {
      ApplyUntouched(f, textos, indices, model, n, j);
    }
  }

  /** sumarizar_textos, one pair at a time; the model is only ever given truncated text. */
  method SumarizarTextos(f: NewsFrame.Frame, textos: seq<string>, indices: seq<nat>, model: Model, loaded: bool)
    returns (r: NewsFrame.Frame)
    requires IndicesOk(f, indices)
    ensures r == Summarize(f, textos, indices, model, loaded)
  {
    if textos == [] || indices == [] {
      return f;
    }
    if !loaded {
      return f;
    }
    r := f;
    var n := Seqs.Min(|textos|, |indices|);
    for i := 0 to n
      invariant r == Apply(f, textos, indices, model, i)
    {
      var limited := Truncate(textos[i]);
      var resumo := match model(limited) case Ok(s) => s case Err(e) => FailureSentinel + e;
      r := WriteResumo(r, indices[i], resumo);
    }
  }
}
