/**
 * `NewsTextCache` (database/text_cache.py): the in-memory link → full text map that the
 * pipeline fills during extraction, plus a slot for the two clustering models. The map is a
 * Python dict, so it keeps insertion order.
 */
module TextCache {
  import opened Wrappers
  import OrderedDict

  /** `sum(len(text) for text in self._cache.values())`. */
  function TotalCharacters(d: seq<(string, string)>): nat {
    if d == [] then 0 else TotalCharacters(d[..|d| - 1]) + |d[|d| - 1].1|
  }

  /** The prefix the summariser model expects. */
  const SummarizePrefix: string := "summarize: "

  function SummarizationInput(e: (string, string)): (string, string) {
    (e.0, SummarizePrefix + e.1)
  }

  datatype CacheStats = CacheStats(totalTexts: nat, totalCharacters: nat, averageLength: nat)

  /** `total // count if count > 0 else 0`: the floor of the mean, and 0 for no texts. */
  function Average(total: nat, count: nat): (a: nat)
    ensures count > 0 ==> a * count <= total < (a + 1) * count
    ensures count == 0 ==> a == 0
  {
    if count > 0 then total / count else 0
  }

  /**
   * get_cache_stats on the given contents: the number of texts, the sum of their lengths, and
   * the floor of the mean length (0 for an empty cache).
   */
  function Stats(d: seq<(string, string)>): (s: CacheStats)
    ensures s.totalTexts == |d|
    ensures s.totalCharacters == TotalCharacters(d)
    ensures s.averageLength == Average(s.totalCharacters, s.totalTexts)
    ensures s.totalTexts == 0 ==> s.averageLength == 0 && s.totalCharacters == 0
  {
    var total := TotalCharacters(d);
    CacheStats(|d|, total, Average(total, |d|))
  }

  /** The total of two runs of entries is the sum of their totals: each text is counted once. */
  lemma {:induction false} TotalCharactersAppend(a: seq<(string, string)>, b: seq<(string, string)>)
    ensures TotalCharacters(a + b) == TotalCharacters(a) + TotalCharacters(b)
    decreases |b|
  {
    if b != [] {
      assert (a + b)[..|a + b| - 1] == a + b[..|b| - 1];
      TotalCharactersAppend(a, b[..|b| - 1]);
    } else {
      assert a + b == a;
    }
  }

  /** Every text is at most as long as the total. */
  lemma {:induction false} TotalCharactersBound(d: seq<(string, string)>, i: nat)
    requires i < |d|
    ensures |d[i].1| <= TotalCharacters(d)
    decreases |d|
  {
    if i < |d| - 1 {
      TotalCharactersBound(d[..|d| - 1], i);
    }
  }

  class NewsTextCache<M> {
    /** `_cache`: link → text, in insertion order. */
    var cache: seq<(string, string)>
    /** `_models['kmeans']` and `_models['vectorizer']`. */
    var kmeans: Option<M>
    var vectorizer: Option<M>

    predicate Valid()
      reads this
    {
      OrderedDict.UniqueKeys(cache)
    }

    constructor ()
      ensures Valid() && cache == [] && kmeans == None && vectorizer == None
    {
      cache := [];
      kmeans := None;
      vectorizer := None;
    }

    /** store_text: overwrites a present key in place, appends a new one. */
    method StoreText(link: string, text: string) returns (ok: bool)
      requires Valid()
      modifies this
      ensures Valid() && ok
      ensures cache == OrderedDict.Put(old(cache), link, text)
      ensures kmeans == old(kmeans) && vectorizer == old(vectorizer)
    {
      OrderedDict.PutUnique(cache, link, text);
      cache := OrderedDict.Put(cache, link, text);
      ok := true;
    }

    /** get_text. */
    method GetText(link: string) returns (r: Option<string>)
      ensures r == OrderedDict.Get(cache, link)
    {
      r := OrderedDict.Get(cache, link);
    }

    /** remove_text: True exactly when the link was present. */
    method RemoveText(link: string) returns (ok: bool)
      requires Valid()
      modifies this
      ensures Valid()
      ensures ok <==> link in OrderedDict.Keys(old(cache))
      ensures cache == OrderedDict.Remove(old(cache), link)
      ensures kmeans == old(kmeans) && vectorizer == old(vectorizer)
    {
      OrderedDict.RemoveUnique(cache, link);
      ok := link in OrderedDict.Keys(cache);
      if ok {
        cache := OrderedDict.Remove(cache, link);
      } else {
        OrderedDict.RemoveAbsent(cache, link);
      }
    }

    /** get_all_texts: a copy of the map. */
    method GetAllTexts() returns (m: map<string, string>)
      ensures forall k :: k in m <==> k in OrderedDict.Keys(cache)
      ensures forall k :: k in m ==> OrderedDict.Get(cache, k) == Some(m[k])
    {
      m := OrderedDict.ToMap(cache);
    }

    /** get_texts_for_summarization: one prefixed pair per entry, in order; the cache is kept. */
    method GetTextsForSummarization() returns (texts: seq<(string, string)>)
      ensures |texts| == |cache|
      ensures forall i :: 0 <= i < |cache| ==>
        texts[i].0 == cache[i].0 && texts[i].1 == SummarizePrefix + cache[i].1
    {
      texts := [];
      for i := 0 to |cache|
        invariant |texts| == i
        invariant forall k :: 0 <= k < i ==> texts[k] == SummarizationInput(cache[k])
      {
        texts := texts + [SummarizationInput(cache[i])];
      }
    }

    /** clear_cache: the texts go, the models stay. */
    method ClearCache() returns (ok: bool)
      requires Valid()
      modifies this
      ensures Valid() && ok
      ensures cache == [] && kmeans == old(kmeans) && vectorizer == old(vectorizer)
    {
      cache := [];
      ok := true;
    }

    /** get_cache_stats. */
    method GetCacheStats() returns (s: CacheStats)
      ensures s == Stats(cache)
    {
      var total := 0;
      for i := 0 to |cache|
        invariant total == TotalCharacters(cache[..i])
      {
        assert cache[..i + 1][..i] == cache[..i];
        total := total + |cache[i].1|;
      }
      assert cache[..|cache|] == cache;
      s := CacheStats(|cache|, total, Average(total, |cache|));
    }

    /** has_text. */
    method HasText(link: string) returns (b: bool)
      ensures b <==> link in OrderedDict.Keys(cache)
    {
      b := link in OrderedDict.Keys(cache);
    }

    /** store_models. */
    method StoreModels(km: M, vec: M) returns (ok: bool)
      modifies this
      ensures ok && kmeans == Some(km) && vectorizer == Some(vec) && cache == old(cache)
    {
      kmeans := Some(km);
      vectorizer := Some(vec);
      ok := true;
    }

    /** get_models: `(None, None)` until models are stored. */
    method GetModels() returns (km: Option<M>, vec: Option<M>)
      ensures km == kmeans && vec == vectorizer
    {
      km, vec := kmeans, vectorizer;
    }

    /** clear_models. */
    method ClearModels() returns (ok: bool)
      modifies this
      ensures ok && kmeans == None && vectorizer == None && cache == old(cache)
    {
      kmeans := None;
      vectorizer := None;
      ok := true;
    }
  }
}
