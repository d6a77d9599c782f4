/**
 * executar_pipeline (main.py): runs collection, text extraction, summarisation, clustering,
 * cluster interpretation and strategic selection in order, and stops early with what it has
 * when a stage produces nothing usable. The collectors, the clusterer and the interpreter are
 * parameters; any of them may raise, which the pipeline turns into `(None, None)`.
 */
module Pipeline {
  import opened Wrappers
  import Text
  import Seqs
  import Validator
  import NewsFrame
  import Extractor
  import Summarizer
  import Selector
  import Ordering

  /** `selecionar_noticias_estrategicas(..., top_n=15)`. */
  const TopN: int := 15

  /**
   * The collaborators of one run: what the collectors return (or the exception they raise),
   * the article fetch, the summarisation model and whether it could be loaded, the clusterer
   * (the updated frame and whether a k-means model came back, or an exception) and the
   * cluster interpreter (the updated frame, or an exception).
   */
  datatype Stages = Stages(
    collect: Result<seq<NewsFrame.Item>, string>,
    fetch: Extractor.Fetch,
    model: Summarizer.Model,
    modelLoaded: bool,
    cluster: NewsFrame.Frame -> Result<(NewsFrame.Frame, bool), string>,
    interpret: NewsFrame.Frame -> Result<NewsFrame.Frame, string>)

  /** `(df_noticias_completo, df_insights_finais)`, each possibly None. */
  datatype RunResult = RunResult(frame: Option<NewsFrame.Frame>, insights: Option<seq<Selector.Scored>>)

  /** A row kept for selection: it has a summary that is not a summarisation failure. */
  predicate IsCandidate(row: NewsFrame.NewsRow) {
    row.resumo.Some? && !Text.StartsWith(row.resumo.value, Validator.FailurePrefix)
  }

  function ToCandidate(row: NewsFrame.NewsRow): Selector.Candidate
    requires row.resumo.Some?
  {
    Selector.Candidate(row.fonte, row.titulo, row.link, row.resumo.value, row.cluster)
  }

  /**
   * `df_cluster`: `dropna(subset=['resumo'])`, then the rows whose summary does not start with
   * the failure prefix, in frame order.
   */
  function Candidates(f: NewsFrame.Frame): seq<Selector.Candidate> {
    var kept := Seqs.Filter(f.rows, IsCandidate);
    seq(|kept|, i requires 0 <= i < |kept| => ToCandidate(kept[i]))
  }

  /** The indices the extractor hands on all point into the frame. */
  lemma ExtractIndicesInRange(f: NewsFrame.Frame, fetch: Extractor.Fetch)
    ensures Summarizer.IndicesOk(f, Extractor.Extract(f, fetch).indices)
  {
    if f.rows != [] {
      Extractor.ExtractUpToTexts(f.rows, fetch, |f.rows|);
    }
  }

  /** The stages from interpretation on: build `df_cluster` and select from it. */
  function Finish(st: Stages, f3: NewsFrame.Frame): RunResult {
    match st.interpret(f3)
    case Err(_) => RunResult(None, None)
    case Ok(f4) => RunResult(Some(f4), Some(Selector.Select(Candidates(f4), TopN)))
  }

  /** executar_pipeline: the stages in order, with its early returns and its exception handler. */
  function Run(st: Stages): RunResult {
    match st.collect
    case Err(_) => RunResult(None, None)
    case Ok(items) =>
      if items == [] then RunResult(None, None)
      else
        var f := NewsFrame.FromItems(items);
        var e := Extractor.Extract(f, st.fetch);
        if e.textos == [] then RunResult(Some(f), None)
        else
          ExtractIndicesInRange(f, st.fetch);
          var f2 := Summarizer.Summarize(f, e.textos, e.indices, st.model, st.modelLoaded);
          if !f2.hasResumo then RunResult(Some(f2), None)
          else
            match st.cluster(f2)
            case Err(_) => RunResult(None, None)
            case Ok((f3, fitted)) =>
              if !fitted then RunResult(Some(f3), None) else Finish(st, f3)
  }

  /** Nothing collected, or the collectors raised: `(None, None)`. */
  lemma NoCollection(st: Stages)
    requires st.collect.Err? || st.collect == Ok([])
    ensures Run(st) == RunResult(None, None)
  {
  }

  /**
   * When no article's text could be fetched the run stops right after extraction with the
   * collected frame and no insights; summarisation and clustering are never reached.
   */
  lemma NoTexts(st: Stages)
    requires st.collect.Ok? && st.collect.value != []
    requires forall row :: row in NewsFrame.FromItems(st.collect.value).rows ==> !Extractor.Extracted(st.fetch, row)
    ensures Run(st) == RunResult(Some(NewsFrame.FromItems(st.collect.value)), None)
  {
    var f := NewsFrame.FromItems(st.collect.value);
    Extractor.NothingExtracted(f.rows, st.fetch, |f.rows|);
  }

  /** Conversely, one fetched text is enough for the run to go on to summarisation. */
  lemma SomeText(st: Stages, i: nat)
    requires st.collect.Ok? && i < |st.collect.value|
    requires Extractor.Extracted(st.fetch, NewsFrame.FromItems(st.collect.value).rows[i])
    ensures Extractor.Extract(NewsFrame.FromItems(st.collect.value), st.fetch).textos != []
  {
    var f := NewsFrame.FromItems(st.collect.value);
    Extractor.IndexKeptIff(f, st.fetch, i);
  }

  /**
   * A summariser that cannot be loaded leaves the frame without a `resumo` column, so the run
   * stops with the collected frame and no insights.
   */
  lemma ModelNotLoaded(st: Stages)
    requires st.collect.Ok? && st.collect.value != [] && !st.modelLoaded
    ensures Run(st).insights == None
    ensures Run(st).frame == Some(NewsFrame.FromItems(st.collect.value))
  {
  }

  /**
   * Once the summaries exist, the clusterer decides: an exception gives `(None, None)`, no
   * k-means model gives the clustered frame and no insights, and otherwise the run goes on.
   */
  lemma ClusterOutcome(st: Stages)
    requires st.collect.Ok? && st.collect.value != [] && st.modelLoaded
    requires Extractor.Extract(NewsFrame.FromItems(st.collect.value), st.fetch).textos != []
    ensures var f := NewsFrame.FromItems(st.collect.value);
      var e := Extractor.Extract(f, st.fetch);
      Summarizer.IndicesOk(f, e.indices)
      && var f2 := Summarizer.Summarize(f, e.textos, e.indices, st.model, true);
         (st.cluster(f2).Err? ==> Run(st) == RunResult(None, None))
         && (st.cluster(f2).Ok? && !st.cluster(f2).value.1 ==> Run(st) == RunResult(Some(st.cluster(f2).value.0), None))
         && (st.cluster(f2).Ok? && st.cluster(f2).value.1 ==> Run(st) == Finish(st, st.cluster(f2).value.0))
  {
    var f := NewsFrame.FromItems(st.collect.value);
    var e := Extractor.Extract(f, st.fetch);
    ExtractIndicesInRange(f, st.fetch);
    assert |e.indices| == |e.textos| > 0;
    assert Summarizer.Summarize(f, e.textos, e.indices, st.model, true).hasResumo;
  }

  /** Every candidate is a row of the frame with a summary that is not a failure. */
  lemma CandidatesValid(f: NewsFrame.Frame)
    ensures forall c :: c in Candidates(f) ==> !Text.StartsWith(c.resumo, Validator.FailurePrefix)
    ensures forall c :: c in Candidates(f) ==> exists row :: row in f.rows && IsCandidate(row) && c == ToCandidate(row)
    ensures forall row :: row in f.rows && IsCandidate(row) ==> ToCandidate(row) in Candidates(f)
  {
    var kept := Seqs.Filter(f.rows, IsCandidate);
    var cs := Candidates(f);
    forall c | c in cs
      ensures !Text.StartsWith(c.resumo, Validator.FailurePrefix)
      ensures exists row :: row in f.rows && IsCandidate(row) && c == ToCandidate(row)
    {
      var k :| 0 <= k < |cs| && cs[k] == c;
      assert kept[k] in kept;
    }
    forall row | row in f.rows && IsCandidate(row) ensures ToCandidate(row) in cs {
      var k :| 0 <= k < |kept| && kept[k] == row;
      assert cs[k] == ToCandidate(row);
    }
  }

  /**
   * A summarisation failure sentinel is never a candidate, whatever the error text: it starts
   * with the prefix the candidate filter rejects.
   */
  lemma SentinelNotCandidate(row: NewsFrame.NewsRow, e: string)
    requires row.resumo == Some(Summarizer.FailureSentinel + e)
    ensures !IsCandidate(row)
  {
    var s := Summarizer.FailureSentinel + e;
    assert s[..|Validator.FailurePrefix|] == Validator.FailurePrefix;
  }

  /**
   * A run whose clusterer comes back with a k-means model ends with interpretation and
   * selection on the clustered frame.
   */
  lemma FullRun(st: Stages, f3: NewsFrame.Frame)
    requires st.collect.Ok? && st.collect.value != [] && st.modelLoaded
    requires Extractor.Extract(NewsFrame.FromItems(st.collect.value), st.fetch).textos != []
    requires var f := NewsFrame.FromItems(st.collect.value);
      var e := Extractor.Extract(f, st.fetch);
      Summarizer.IndicesOk(f, e.indices)
      && st.cluster(Summarizer.Summarize(f, e.textos, e.indices, st.model, true)) == Ok((f3, true))
    ensures Run(st) == Finish(st, f3)
  {
    ClusterOutcome(st);
  }

  /** Sorted by descending score with ties by position means the scores never increase. */
  lemma ScoresNonIncreasing(sel: seq<Selector.Scored>)
    requires Ordering.Sorted(Selector.ScoreKey, Selector.PositionKey, true, sel)
    ensures forall a, b :: 0 <= a < b < |sel| ==> sel[a].relevanceScore >= sel[b].relevanceScore
  {
    forall a, b | 0 <= a < b < |sel| ensures sel[a].relevanceScore >= sel[b].relevanceScore {
      assert !Ordering.Precedes(Selector.ScoreKey, Selector.PositionKey, true, sel[b], sel[a]);
    }
  }

  /** The selection made from `df_cluster`: at most 15 candidates with their scores, best first. */
  lemma SelectFromCandidates(cands: seq<Selector.Candidate>)
    ensures var sel := Selector.Select(cands, TopN);
      |sel| == Seqs.Min(TopN, |cands|)
      && (forall k :: 0 <= k < |sel| ==> sel[k].row in cands && sel[k].relevanceScore == Selector.RelevanceOf(sel[k].row))
      && (forall a, b :: 0 <= a < b < |sel| ==> sel[a].relevanceScore >= sel[b].relevanceScore)
  {
    var sel := Selector.Select(cands, TopN);
    Selector.SelectionSpec(cands, TopN);
    ScoresNonIncreasing(sel);
  }

  /**
   * Interpretation that raises gives `(None, None)`; otherwise the run returns the interpreted
   * frame and at most 15 insights, each a candidate row of that frame (so never a failed
   * summary) with its relevance score, in non-increasing score order.
   */
  lemma FinishSelects(st: Stages, f3: NewsFrame.Frame)
    ensures st.interpret(f3).Err? ==> Finish(st, f3) == RunResult(None, None)
    ensures st.interpret(f3).Ok? ==>
      var f4 := st.interpret(f3).value;
      Finish(st, f3).frame == Some(f4) && Finish(st, f3).insights.Some?
      && var sel := Finish(st, f3).insights.value;
         |sel| == Seqs.Min(TopN, |Candidates(f4)|)
         && (forall k :: 0 <= k < |sel| ==>
               sel[k].row in Candidates(f4) && !Text.StartsWith(sel[k].row.resumo, Validator.FailurePrefix)
               && sel[k].relevanceScore == Selector.RelevanceOf(sel[k].row))
         && (forall a, b :: 0 <= a < b < |sel| ==> sel[a].relevanceScore >= sel[b].relevanceScore)
  {
    if st.interpret(f3).Ok? {
      var f4 := st.interpret(f3).value;
      SelectFromCandidates(Candidates(f4));
      CandidatesValid(f4);
    }
  }
}
