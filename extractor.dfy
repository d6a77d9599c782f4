/**
 * extrair_textos_noticias (pipeline/extractor.py): tries to fetch the full text of every
 * collected row, keeps the texts that came back (prefixed for the summariser) together with
 * their row indices, and counts successes and failures per source. The fetch itself
 * (extrair_texto_completo: HTTP and HTML parsing) is a parameter.
 */
module Extractor {
  import opened Wrappers
  import Text
  import OrderedDict
  import NewsFrame

  /** One source's `{'success': s, 'fail': f}`. */
  datatype SourceStats = SourceStats(success: nat, fail: nat)

  /** The `stats` dict, source name to counts, in insertion order. */
  type Stats = seq<(string, SourceStats)>

  /** extrair_texto_completo(link, fonte): the article text, or None when anything goes wrong. */
  type Fetch = (string, string) -> Option<string>

  /** What every text handed to the summariser starts with. */
  const SummarizePrefix: string := "summarize: "

  /** `if texto:`: only a non-empty text counts as a success. */
  predicate Extracted(fetch: Fetch, row: NewsFrame.NewsRow) {
    fetch(row.link, row.fonte).Some? && fetch(row.link, row.fonte).value != ""
  }

  /** `stats[fonte]`, with the defaultdict's zero counts for a source not seen yet. */
  function StatsOf(stats: Stats, fonte: string): SourceStats {
    match OrderedDict.Get(stats, fonte)
    case Some(s) => s
    case None => SourceStats(0, 0)
  }

  /** One more success (`ok`) or failure in a source's counts. */
  function Bump(s: SourceStats, ok: bool): SourceStats {
    if ok then s.(success := s.success + 1) else s.(fail := s.fail + 1)
  }

  /**
   * `stats[fonte]['success'] += 1` or `stats[fonte]['fail'] += 1` on the defaultdict: the entry
   * keeps its place, or is appended with zero counts first.
   */
  function Tally(stats: Stats, fonte: string, ok: bool): Stats {
    if stats == [] then [(fonte, Bump(SourceStats(0, 0), ok))]
    else if stats[0].0 == fonte then [(fonte, Bump(stats[0].1, ok))] + stats[1..]
    else [stats[0]] + Tally(stats[1..], fonte, ok)
  }

  /** Tally is the dict assignment `stats[fonte] = ...` of the bumped default-or-present counts. */
  lemma {:induction false} TallyIsPut(stats: Stats, fonte: string, ok: bool)
    ensures Tally(stats, fonte, ok) == OrderedDict.Put(stats, fonte, Bump(StatsOf(stats, fonte), ok))
    decreases |stats|
  {
    if stats != [] && stats[0].0 != fonte {
      TallyIsPut(stats[1..], fonte, ok);
    }
  }

  /** The three results: texts to summarise, their row indices, and the per-source counts. */
  datatype Extraction = Extraction(textos: seq<string>, indices: seq<nat>, stats: Stats)

  /** One pass of the loop body: row `i` is fetched, counted, and kept when the fetch succeeded. */
  function Step(e: Extraction, row: NewsFrame.NewsRow, i: nat, fetch: Fetch): Extraction {
    var texto := fetch(row.link, row.fonte);
    if texto.Some? && texto.value != "" then
      Extraction(e.textos + [SummarizePrefix + texto.value], e.indices + [i], Tally(e.stats, row.fonte, true))
    else
      Extraction(e.textos, e.indices, Tally(e.stats, row.fonte, false))
  }

  /** The results after the first `n` rows. */
  function ExtractUpTo(rows: seq<NewsFrame.NewsRow>, fetch: Fetch, n: nat): (r: Extraction)
    requires n <= |rows|
    ensures |r.textos| == |r.indices|
  {
    if n == 0 then Extraction([], [], [])
    else Step(ExtractUpTo(rows, fetch, n - 1), rows[n - 1], n - 1, fetch)
  }

  /** Every kept index is a processed row whose fetch succeeded, with its prefixed text. */
  lemma {:induction false} KeptAreExtracted(rows: seq<NewsFrame.NewsRow>, fetch: Fetch, n: nat)
    requires n <= |rows|
    ensures forall k :: 0 <= k < |ExtractUpTo(rows, fetch, n).indices| ==>
      var i := ExtractUpTo(rows, fetch, n).indices[k];
      i < n && Extracted(fetch, rows[i])
      && ExtractUpTo(rows, fetch, n).textos[k] == SummarizePrefix + fetch(rows[i].link, rows[i].fonte).value
  {
    if n > 0 {
      KeptAreExtracted(rows, fetch, n - 1);
      var prev := ExtractUpTo(rows, fetch, n - 1);
      var r := ExtractUpTo(rows, fetch, n);
      if Extracted(fetch, rows[n - 1]) {
        assert r.indices == prev.indices + [n - 1];
        assert r.textos == prev.textos + [SummarizePrefix + fetch(rows[n - 1].link, rows[n - 1].fonte).value];
        forall k | 0 <= k < |r.indices|
          ensures r.indices[k] < n && Extracted(fetch, rows[r.indices[k]])
          ensures r.textos[k] == SummarizePrefix + fetch(rows[r.indices[k]].link, rows[r.indices[k]].fonte).value
        {
          if k < |prev.indices| {
            assert r.indices[k] == prev.indices[k] && r.textos[k] == prev.textos[k];
          }
        }
      } else {
        assert r.indices == prev.indices && r.textos == prev.textos;
      }
    }
  }

  /** The kept indices are strictly increasing (row order). */
  lemma {:induction false} KeptIncreasing(rows: seq<NewsFrame.NewsRow>, fetch: Fetch, n: nat)
    requires n <= |rows|
    ensures forall k :: 0 <= k < |ExtractUpTo(rows, fetch, n).indices| ==> ExtractUpTo(rows, fetch, n).indices[k] < n
    ensures forall a, b :: 0 <= a < b < |ExtractUpTo(rows, fetch, n).indices| ==>
      ExtractUpTo(rows, fetch, n).indices[a] < ExtractUpTo(rows, fetch, n).indices[b]
  {
    if n > 0 {
      KeptIncreasing(rows, fetch, n - 1);
      var prev := ExtractUpTo(rows, fetch, n - 1);
      var r := ExtractUpTo(rows, fetch, n);
      if Extracted(fetch, rows[n - 1]) {
        assert r.indices == prev.indices + [n - 1];
        forall k | 0 <= k < |r.indices| ensures r.indices[k] < n && (k < |prev.indices| ==> r.indices[k] < n - 1) {
          if k < |prev.indices| {
            assert r.indices[k] == prev.indices[k];
          }
        }
      } else {
        assert r.indices == prev.indices;
      }
    }
  }

  /** Every processed row whose fetch succeeded is kept. */
  lemma {:induction false} ExtractedAreKept(rows: seq<NewsFrame.NewsRow>, fetch: Fetch, n: nat)
    requires n <= |rows|
    ensures forall i :: 0 <= i < n && Extracted(fetch, rows[i]) ==> i in ExtractUpTo(rows, fetch, n).indices
  {
    if n > 0 {
      ExtractedAreKept(rows, fetch, n - 1);
    }
  }

  /**
   * The texts are the prefixed fetch results of exactly the rows whose fetch succeeded, with
   * those rows' indices, in row order.
   */
  lemma ExtractUpToTexts(rows: seq<NewsFrame.NewsRow>, fetch: Fetch, n: nat)
    requires n <= |rows|
    ensures var r := ExtractUpTo(rows, fetch, n);
      (forall k :: 0 <= k < |r.indices| ==>
        r.indices[k] < n && Extracted(fetch, rows[r.indices[k]])
        && r.textos[k] == SummarizePrefix + fetch(rows[r.indices[k]].link, rows[r.indices[k]].fonte).value)
      && (forall a, b :: 0 <= a < b < |r.indices| ==> r.indices[a] < r.indices[b])
      && (forall i :: 0 <= i < n && Extracted(fetch, rows[i]) ==> i in r.indices)
  {
    KeptAreExtracted(rows, fetch, n);
    KeptIncreasing(rows, fetch, n);
    ExtractedAreKept(rows, fetch, n);
  }

  /** extrair_textos_noticias: an empty frame gives `([], [], {})`, otherwise every row is tried. */
  function Extract(f: NewsFrame.Frame, fetch: Fetch): Extraction {
    if f.rows == [] then Extraction([], [], []) else ExtractUpTo(f.rows, fetch, |f.rows|)
  }

  /** The loop of extrair_textos_noticias, one row at a time. */
  method ExtrairTextosNoticias(f: NewsFrame.Frame, fetch: Fetch)
    returns (textos: seq<string>, indices: seq<nat>, stats: Stats)
    ensures Extraction(textos, indices, stats) == Extract(f, fetch)
  {
    if f.rows == [] {
      return [], [], [];
    }
    textos, indices, stats := [], [], [];
    for i := 0 to |f.rows|
      invariant |textos| == |indices|
      invariant Extraction(textos, indices, stats) == ExtractUpTo(f.rows, fetch, i)
    {
      var row := f.rows[i];
      var texto := fetch(row.link, row.fonte);
      if texto.Some? && texto.value != "" {
        stats := Tally(stats, row.fonte, true);
        textos := textos + [SummarizePrefix + texto.value];
        indices := indices + [i];
      } else {
        stats := Tally(stats, row.fonte, false);
      }
    }
  }

  /** A row index is kept exactly when its fetch succeeded. */
  lemma IndexKeptIff(f: NewsFrame.Frame, fetch: Fetch, i: nat)
    requires i < |f.rows|
    ensures i in Extract(f, fetch).indices <==> Extracted(fetch, f.rows[i])
  {
    ExtractUpToTexts(f.rows, fetch, |f.rows|);
    var e := Extract(f, fetch);
    if i in e.indices {
      var k :| 0 <= k < |e.indices| && e.indices[k] == i;
    }
  }

  /** When no fetch succeeds there is nothing to summarise. */
  lemma {:induction false} NothingExtracted(rows: seq<NewsFrame.NewsRow>, fetch: Fetch, n: nat)
    requires n <= |rows|
    requires forall row :: row in rows ==> !Extracted(fetch, row)
    ensures ExtractUpTo(rows, fetch, n).textos == [] && ExtractUpTo(rows, fetch, n).indices == []
  {
    if n > 0 {
      NothingExtracted(rows, fetch, n - 1);
      assert rows[n - 1] in rows;
    }
  }

  /** Every text handed on starts with the summariser's prefix. */
  lemma TextsPrefixed(f: NewsFrame.Frame, fetch: Fetch, k: nat)
    requires k < |Extract(f, fetch).textos|
    ensures Text.StartsWith(Extract(f, fetch).textos[k], SummarizePrefix)
  {
    ExtractUpToTexts(f.rows, fetch, |f.rows|);
    var e := Extract(f, fetch);
    var t := e.textos[k];
    assert t == SummarizePrefix + fetch(f.rows[e.indices[k]].link, f.rows[e.indices[k]].fonte).value;
    assert t[..|SummarizePrefix|] == SummarizePrefix;
  }

  /** The total of one column of the stats table (`total_success` or `total_fail`). */
  function Total(stats: Stats, ok: bool): nat {
    if stats == [] then 0
    else (if ok then stats[0].1.success else stats[0].1.fail) + Total(stats[1..], ok)
  }

  /** Assigning `d[k] = v` replaces k's old counts in the totals by v's. */
  lemma {:induction false} PutTotal(d: Stats, k: string, v: SourceStats, ok: bool)
    ensures var old_ := StatsOf(d, k);
      Total(OrderedDict.Put(d, k, v), ok) + (if ok then old_.success else old_.fail)
      == Total(d, ok) + (if ok then v.success else v.fail)
    decreases |d|
  {
    if d != [] && d[0].0 != k {
      PutTotal(d[1..], k, v, ok);
      assert OrderedDict.Put(d, k, v)[1..] == OrderedDict.Put(d[1..], k, v);
    }
  }

  /** A success adds one to the success total, a failure one to the failure total. */
  lemma TallyTotals(stats: Stats, fonte: string, ok: bool)
    ensures Total(Tally(stats, fonte, ok), true) == Total(stats, true) + (if ok then 1 else 0)
    ensures Total(Tally(stats, fonte, ok), false) == Total(stats, false) + (if ok then 0 else 1)
  {
    var v := Bump(StatsOf(stats, fonte), ok);
    TallyIsPut(stats, fonte, ok);
    PutTotal(stats, fonte, v, true);
    PutTotal(stats, fonte, v, false);
  }

  /**
   * The diagnostic totals: the successes are as many as the texts (and the indices), and
   * successes and failures together are the number of rows processed.
   */
  lemma {:induction false} ExtractTotals(rows: seq<NewsFrame.NewsRow>, fetch: Fetch, n: nat)
    requires n <= |rows|
    ensures var e := ExtractUpTo(rows, fetch, n);
      Total(e.stats, true) == |e.textos| && Total(e.stats, true) + Total(e.stats, false) == n
  {
    if n > 0 {
      ExtractTotals(rows, fetch, n - 1);
      TallyTotals(ExtractUpTo(rows, fetch, n - 1).stats, rows[n - 1].fonte, Extracted(fetch, rows[n - 1]));
    }
  }

  /** Counting a row from `f0` changes only `f0`'s counts. */
  lemma TallyCounts(stats: Stats, f0: string, ok: bool, fonte: string)
    ensures StatsOf(Tally(stats, f0, ok), fonte)
      == if fonte != f0 then StatsOf(stats, fonte) else Bump(StatsOf(stats, f0), ok)
  {
    TallyIsPut(stats, f0, ok);
    OrderedDict.PutGet(stats, f0, Bump(StatsOf(stats, f0), ok), fonte);
  }

  /** Counting a row from `f0` creates `f0`'s entry when it is missing, and no other. */
  lemma TallyKeys(stats: Stats, f0: string, ok: bool, fonte: string)
    ensures fonte in OrderedDict.Keys(Tally(stats, f0, ok)) <==> fonte in OrderedDict.Keys(stats) || fonte == f0
  {
    TallyIsPut(stats, f0, ok);
    OrderedDict.PutGet(stats, f0, Bump(StatsOf(stats, f0), ok), fonte);
  }

  /** Counting a row keeps the sources unique. */
  lemma TallyUnique(stats: Stats, f0: string, ok: bool)
    requires OrderedDict.UniqueKeys(stats)
    ensures OrderedDict.UniqueKeys(Tally(stats, f0, ok))
  {
    TallyIsPut(stats, f0, ok);
    OrderedDict.PutUnique(stats, f0, Bump(StatsOf(stats, f0), ok));
  }

  /** How many of the rows from source `fonte` had a fetch that succeeded (`ok`) or failed. */
  function CountSource(rows: seq<NewsFrame.NewsRow>, fetch: Fetch, fonte: string, ok: bool): nat {
    if rows == [] then 0
    else
      var last := rows[|rows| - 1];
      CountSource(rows[..|rows| - 1], fetch, fonte, ok) + (if last.fonte == fonte && Extracted(fetch, last) == ok then 1 else 0)
  }

  /** How many rows come from source `fonte`. */
  function RowsFrom(rows: seq<NewsFrame.NewsRow>, fonte: string): nat {
    if rows == [] then 0
    else RowsFrom(rows[..|rows| - 1], fonte) + (if rows[|rows| - 1].fonte == fonte then 1 else 0)
  }

  /** Row `n - 1` adds its success or failure to the counts of the first `n - 1` rows. */
  lemma StatsStep(rows: seq<NewsFrame.NewsRow>, fetch: Fetch, n: nat)
    requires 0 < n <= |rows|
    ensures ExtractUpTo(rows, fetch, n).stats
      == Tally(ExtractUpTo(rows, fetch, n - 1).stats, rows[n - 1].fonte, Extracted(fetch, rows[n - 1]))
  {
  }

  /** Per source, the stats hold the counts of that source's successful and failed rows. */
  lemma {:induction false} StatsCountSource(rows: seq<NewsFrame.NewsRow>, fetch: Fetch, n: nat, fonte: string)
    requires n <= |rows|
    ensures StatsOf(ExtractUpTo(rows, fetch, n).stats, fonte)
      == SourceStats(CountSource(rows[..n], fetch, fonte, true), CountSource(rows[..n], fetch, fonte, false))
  {
    if n > 0 {
      StatsCountSource(rows, fetch, n - 1, fonte);
      StatsStep(rows, fetch, n);
      var row := rows[n - 1];
      TallyCounts(ExtractUpTo(rows, fetch, n - 1).stats, row.fonte, Extracted(fetch, row), fonte);
      assert rows[..n][..n - 1] == rows[..n - 1];
      if fonte == row.fonte {
        StatsCountSource(rows, fetch, n - 1, row.fonte);
      }
    }
  }

  /** A source has an entry exactly when one of the processed rows came from it. */
  lemma {:induction false} StatsKeys(rows: seq<NewsFrame.NewsRow>, fetch: Fetch, n: nat, fonte: string)
    requires n <= |rows|
    ensures fonte in OrderedDict.Keys(ExtractUpTo(rows, fetch, n).stats) <==> exists i :: 0 <= i < n && rows[i].fonte == fonte
  {
    if n > 0 {
      StatsKeys(rows, fetch, n - 1, fonte);
      StatsStep(rows, fetch, n);
      var row := rows[n - 1];
      TallyKeys(ExtractUpTo(rows, fetch, n - 1).stats, row.fonte, Extracted(fetch, row), fonte);
    }
  }

  /** No source has two entries. */
  lemma {:induction false} StatsUnique(rows: seq<NewsFrame.NewsRow>, fetch: Fetch, n: nat)
    requires n <= |rows|
    ensures OrderedDict.UniqueKeys(ExtractUpTo(rows, fetch, n).stats)
  {
    if n > 0 {
      StatsUnique(rows, fetch, n - 1);
      StatsStep(rows, fetch, n);
      var row := rows[n - 1];
      TallyUnique(ExtractUpTo(rows, fetch, n - 1).stats, row.fonte, Extracted(fetch, row));
    }
  }

  /**
   * Per source, the stats hold the counts of that source's successful and failed rows; a source
   * has an entry exactly when one of the processed rows came from it, and entries are unique.
   */
  lemma ExtractStatsPerSource(rows: seq<NewsFrame.NewsRow>, fetch: Fetch, n: nat, fonte: string)
    requires n <= |rows|
    ensures var e := ExtractUpTo(rows, fetch, n);
      StatsOf(e.stats, fonte) == SourceStats(CountSource(rows[..n], fetch, fonte, true), CountSource(rows[..n], fetch, fonte, false))
      && (fonte in OrderedDict.Keys(e.stats) <==> exists i :: 0 <= i < n && rows[i].fonte == fonte)
      && OrderedDict.UniqueKeys(e.stats)
  {
    StatsCountSource(rows, fetch, n, fonte);
    StatsKeys(rows, fetch, n, fonte);
    StatsUnique(rows, fetch, n);
  }

  /** For every source, successes plus failures are that source's row count. */
  lemma {:induction false} CountSourceSplit(rows: seq<NewsFrame.NewsRow>, fetch: Fetch, fonte: string)
    ensures CountSource(rows, fetch, fonte, true) + CountSource(rows, fetch, fonte, false) == RowsFrom(rows, fonte)
    decreases |rows|
  {
    if rows != [] {
      CountSourceSplit(rows[..|rows| - 1], fetch, fonte);
    }
  }

  /** The whole of extrair_textos_noticias' promises about its three results. */
  lemma ExtractSummary(f: NewsFrame.Frame, fetch: Fetch, fonte: string)
    ensures var e := Extract(f, fetch);
      |e.textos| == |e.indices| == Total(e.stats, true)
      && Total(e.stats, true) + Total(e.stats, false) == |f.rows|
      && StatsOf(e.stats, fonte).success + StatsOf(e.stats, fonte).fail == RowsFrom(f.rows, fonte)
      && (f.rows == [] ==> e == Extraction([], [], []))
  {
    if f.rows != [] {
      ExtractTotals(f.rows, fetch, |f.rows|);
      ExtractStatsPerSource(f.rows, fetch, |f.rows|, fonte);
      assert f.rows[..|f.rows|] == f.rows;
      CountSourceSplit(f.rows, fetch, fonte);
    }
  }
}
