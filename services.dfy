/**
 * `NewsService` (api/services.py): answers the API's two reads from the archive, in front of
 * the API cache. A cached payload is served as is; on a miss the archive is read, the rows are
 * converted to `NewsItem`s (rows that fail conversion are skipped) and the payload is cached.
 */
module Services {
  import opened Wrappers
  import Seqs
  import ApiModels
  import ApiCache
  import DbManager

  // ---------------------------------------------------------------------------------------
  // Cache keys: `f"posted_news_{limit}"` and `f"news_{news_id}"`

  function DigitChar(d: nat): char
    requires d < 10
  {
    ('0' as int + d) as char
  }

  /** The number a string of decimal digits denotes, most significant digit first. */
  function DigitsValue(s: string): int {
    if s == [] then 0 else DigitsValue(s[..|s| - 1]) * 10 + (s[|s| - 1] as int - '0' as int)
  }

  /** `str(n)` for a natural number: non-empty decimal digits that denote `n`. */
  function NatToString(n: nat): (s: string)
    ensures s != []
    ensures forall k :: 0 <= k < |s| ==> '0' <= s[k] <= '9'
    ensures DigitsValue(s) == n
  {
    if n < 10 then
      assert [DigitChar(n)][..0] == [];
      [DigitChar(n)]
    else
      var h := NatToString(n / 10);
      assert (h + [DigitChar(n % 10)])[..|h|] == h;
      h + [DigitChar(n % 10)]
  }

  /** `str(i)`. */
  function IntToString(i: int): string {
    if i < 0 then "-" + NatToString(-i) else NatToString(i)
  }

  /** Different integers have different decimal strings. */
  lemma IntToStringInjective(a: int, b: int)
    requires IntToString(a) == IntToString(b)
    ensures a == b
  {
    assert a < 0 <==> IntToString(a)[0] == '-';
    assert b < 0 <==> IntToString(b)[0] == '-';
    if a < 0 {
      assert NatToString(-a) == IntToString(a)[1..];
    }
  }

  function PostedKey(limit: int): string { "posted_news_" + IntToString(limit) }

  function ItemKey(id: int): string { "news_" + IntToString(id) }

  /** Different limits are cached under different keys, and so are different ids. */
  lemma KeysInjective(a: int, b: int)
    ensures PostedKey(a) == PostedKey(b) ==> a == b
    ensures ItemKey(a) == ItemKey(b) ==> a == b
  {
    if PostedKey(a) == PostedKey(b) {
      assert IntToString(a) == PostedKey(a)[|"posted_news_"|..];
      assert IntToString(b) == PostedKey(b)[|"posted_news_"|..];
      IntToStringInjective(a, b);
    }
    if ItemKey(a) == ItemKey(b) {
      assert IntToString(a) == ItemKey(a)[|"news_"|..];
      assert IntToString(b) == ItemKey(b)[|"news_"|..];
      IntToStringInjective(a, b);
    }
  }

  /** The two kinds of key never collide. */
  lemma KeysDisjoint(limit: int, id: int)
    ensures PostedKey(limit) != ItemKey(id)
  {
    assert PostedKey(limit)[0] == 'p' && ItemKey(id)[0] == 'n';
  }

  // ---------------------------------------------------------------------------------------
  // What is cached and what is answered

  /** The payloads stored in the cache: a posted-news response, or one item. */
  datatype Payload = Posted(data: seq<ApiModels.NewsItem>, total: int) | Item(item: ApiModels.NewsItem)

  /** `NewsResponse` without its timestamp. */
  datatype NewsResponse = NewsResponse(success: bool, data: seq<ApiModels.NewsItem>, total: int, cached: bool)

  predicate IsPosted(n: ApiModels.RawNews) { n.status == Some("postada") }

  /** _get_posted_news_from_db: the posted rows among `get_api_data(limit * 2)`, cut to `limit`. */
  function PostedFromDb(rows: seq<DbManager.ArchiveRow>, limit: int): (r: seq<ApiModels.RawNews>)
    ensures limit >= 0 ==> |r| <= limit
    ensures forall x :: x in r ==> IsPosted(x)
    ensures Seqs.Subsequence(r, DbManager.ApiData(rows, limit * 2))
  {
    var all := DbManager.ApiData(rows, limit * 2);
    var posted := Seqs.Filter(all, IsPosted);
    var r := Seqs.PySliceTo(posted, limit);
    Seqs.FilterIsSubsequence(all, IsPosted);
    Seqs.PrefixOfSubsequence(posted, all, |r|);
    r
  }

  /** The `NewsItem`s of the rows that convert, in order. */
  function Converted(raws: seq<ApiModels.RawNews>): (r: seq<ApiModels.NewsItem>)
    ensures |r| <= |raws|
  {
    if raws == [] then []
    else
      var last := ApiModels.ToNewsItem(raws[|raws| - 1]);
      Converted(raws[..|raws| - 1]) + (if last.Some? then [last.value] else [])
  }

  /** Every converted item comes from a row that converts to it. */
  lemma {:induction false} ConvertedFrom(raws: seq<ApiModels.RawNews>)
    ensures forall i :: i in Converted(raws) ==> exists x :: x in raws && ApiModels.ToNewsItem(x) == Some(i)
    decreases |raws|
  {
    if raws != [] {
      var init := raws[..|raws| - 1];
      ConvertedFrom(init);
      forall i | i in Converted(raws) ensures exists x :: x in raws && ApiModels.ToNewsItem(x) == Some(i) {
        if i in Converted(init) {
          var x :| x in init && ApiModels.ToNewsItem(x) == Some(i);
          assert x in raws;
        } else {
          assert ApiModels.ToNewsItem(raws[|raws| - 1]) == Some(i);
        }
      }
    }
  }

  /** Converting posted rows gives posted items. */
  lemma ConvertedPosted(raws: seq<ApiModels.RawNews>)
    requires forall x :: x in raws ==> IsPosted(x)
    ensures forall i :: i in Converted(raws) ==> i.status == "postada"
  {
    ConvertedFrom(raws);
  }

  predicate PayloadPosted(p: Payload) {
    match p
    case Posted(data, _) => forall i :: i in data ==> i.status == "postada"
    case Item(i) => i.status == "postada"
  }

  /** Everything in the cache shows only posted news. */
  predicate CachePosted(d: ApiCache.Entries<Payload>) {
    forall x :: x in d ==> PayloadPosted(x.1.value)
  }

  /** get_posted_news: the response and the cache afterwards. */
  function PostedNews(d: ApiCache.Entries<Payload>, rows: seq<DbManager.ArchiveRow>, limit: int, now: int,
                      maxSize: int, ttl: int): (NewsResponse, ApiCache.Entries<Payload>)
  {
    var (hit, d1) := ApiCache.Lookup(d, PostedKey(limit), now, ttl);
    if hit.Some? then
      match hit.value
      case Posted(data, total) => (NewsResponse(true, data, total, true), d1)
      case Item(_) => (NewsResponse(false, [], 0, false), d1)
    else
      var raw := PostedFromDb(rows, limit);
      if raw == [] then (NewsResponse(true, [], 0, false), d1)
      else
        var items := Converted(raw);
        (NewsResponse(true, items, |items|, false), ApiCache.Store(d1, PostedKey(limit), Posted(items, |items|), now, maxSize, ttl))
  }

  /** A cache hit is answered from the cache, marked cached, whatever the store holds. */
  lemma CacheHitServed(d: ApiCache.Entries<Payload>, rows: seq<DbManager.ArchiveRow>, rows2: seq<DbManager.ArchiveRow>,
                       limit: int, now: int, maxSize: int, ttl: int, data: seq<ApiModels.NewsItem>, total: int)
    requires ApiCache.Lookup(d, PostedKey(limit), now, ttl).0 == Some(Posted(data, total))
    ensures PostedNews(d, rows, limit, now, maxSize, ttl).0 == NewsResponse(true, data, total, true)
    ensures PostedNews(d, rows, limit, now, maxSize, ttl) == PostedNews(d, rows2, limit, now, maxSize, ttl)
  {
  }

  /** A miss with nothing posted answers success with no items, and caches nothing. */
  lemma EmptyNotCached(d: ApiCache.Entries<Payload>, rows: seq<DbManager.ArchiveRow>, limit: int, now: int,
                       maxSize: int, ttl: int)
    requires ApiCache.Lookup(d, PostedKey(limit), now, ttl).0.None? && PostedFromDb(rows, limit) == []
    ensures PostedNews(d, rows, limit, now, maxSize, ttl)
      == (NewsResponse(true, [], 0, false), ApiCache.Lookup(d, PostedKey(limit), now, ttl).1)
  {
  }

  /**
   * A miss with posted rows answers the rows that convert, with total = their number, and a
   * `get` of the same key right afterwards is served that payload.
   */
  lemma MissStoresPayload(d: ApiCache.Entries<Payload>, rows: seq<DbManager.ArchiveRow>, limit: int, now: int,
                          maxSize: int, ttl: int)
    requires ApiCache.Lookup(d, PostedKey(limit), now, ttl).0.None? && PostedFromDb(rows, limit) != []
    requires ttl >= 0
    ensures var (resp, d2) := PostedNews(d, rows, limit, now, maxSize, ttl);
      resp.data == Converted(PostedFromDb(rows, limit)) && resp.total == |resp.data| && !resp.cached
      && ApiCache.Lookup(d2, PostedKey(limit), now, ttl).0 == Some(Posted(resp.data, resp.total))
  {
    var d1 := ApiCache.Lookup(d, PostedKey(limit), now, ttl).1;
    var items := Converted(PostedFromDb(rows, limit));
    ApiCache.StoreThenLookup(d1, PostedKey(limit), Posted(items, |items|), now, now, maxSize, ttl);
  }

  /** The cache keeps showing only posted news across `get` and `set`. */
  lemma LookupKeepsPosted(d: ApiCache.Entries<Payload>, key: string, now: int, ttl: int)
    requires CachePosted(d)
    ensures CachePosted(ApiCache.Lookup(d, key, now, ttl).1)
    ensures ApiCache.Lookup(d, key, now, ttl).0.Some? ==> PayloadPosted(ApiCache.Lookup(d, key, now, ttl).0.value)
  {
    ApiCache.LookupMembers(d, key, now, ttl);
  }

  lemma StoreKeepsPosted(d: ApiCache.Entries<Payload>, key: string, p: Payload, now: int, maxSize: int, ttl: int)
    requires CachePosted(d) && PayloadPosted(p)
    ensures CachePosted(ApiCache.Store(d, key, p, now, maxSize, ttl))
  {
    ApiCache.StoreMembers(d, key, p, now, maxSize, ttl);
  }

  /** Every item get_posted_news answers has status `postada`, and the cache stays that way. */
  lemma PostedNewsOnlyPosted(d: ApiCache.Entries<Payload>, rows: seq<DbManager.ArchiveRow>, limit: int, now: int,
                             maxSize: int, ttl: int)
    requires CachePosted(d)
    ensures var (resp, d2) := PostedNews(d, rows, limit, now, maxSize, ttl);
      CachePosted(d2) && forall i :: i in resp.data ==> i.status == "postada"
  {
    LookupKeepsPosted(d, PostedKey(limit), now, ttl);
    var (hit, d1) := ApiCache.Lookup(d, PostedKey(limit), now, ttl);
    if hit.None? {
      var raw := PostedFromDb(rows, limit);
      ConvertedPosted(raw);
      if raw != [] {
        var items := Converted(raw);
        StoreKeepsPosted(d1, PostedKey(limit), Posted(items, |items|), now, maxSize, ttl);
      }
    }
  }

  /** `SELECT ... WHERE id = ? AND status = 'postada'`: the first such row. */
  function PostedById(rows: seq<DbManager.ArchiveRow>, id: int): (r: Option<DbManager.ArchiveRow>)
    ensures r.Some? ==> r.value in rows && r.value.id == id && r.value.status == Some("postada")
    ensures r.None? ==> forall x :: x in rows ==> !(x.id == id && x.status == Some("postada"))
  {
    if rows == [] then None
    else if rows[0].id == id && rows[0].status == Some("postada") then Some(rows[0])
    else PostedById(rows[1..], id)
  }

  /** The database half of get_news_by_id: the posted row with that id, if it converts. */
  function PostedItem(rows: seq<DbManager.ArchiveRow>, id: int): Option<ApiModels.NewsItem> {
    match PostedById(rows, id)
    case None => None
    case Some(row) => ApiModels.ToNewsItem(DbManager.ApiRow(row))
  }

  /** get_news_by_id: the item (or None) and the cache afterwards. */
  function NewsById(d: ApiCache.Entries<Payload>, rows: seq<DbManager.ArchiveRow>, id: int, now: int,
                    maxSize: int, ttl: int): (Option<ApiModels.NewsItem>, ApiCache.Entries<Payload>)
  {
    var (hit, d1) := ApiCache.Lookup(d, ItemKey(id), now, ttl);
    if hit.Some? then
      match hit.value
      case Item(i) => (Some(i), d1)
      case Posted(_, _) => (None, d1)
    else
      var item := PostedItem(rows, id);
      if item.None? then (None, d1)
      else (item, ApiCache.Store(d1, ItemKey(id), Item(item.value), now, maxSize, ttl))
  }

  /** get_news_by_id only ever answers a posted item, and the cache stays posted-only. */
  lemma NewsByIdOnlyPosted(d: ApiCache.Entries<Payload>, rows: seq<DbManager.ArchiveRow>, id: int, now: int,
                           maxSize: int, ttl: int)
    requires CachePosted(d)
    ensures var (r, d2) := NewsById(d, rows, id, now, maxSize, ttl);
      CachePosted(d2) && (r.Some? ==> r.value.status == "postada")
  {
    LookupKeepsPosted(d, ItemKey(id), now, ttl);
    var (hit, d1) := ApiCache.Lookup(d, ItemKey(id), now, ttl);
    var item := PostedItem(rows, id);
    if hit.None? && item.Some? {
      PostedRowItem(PostedById(rows, id).value);
      StoreKeepsPosted(d1, ItemKey(id), Item(item.value), now, maxSize, ttl);
    }
  }

  /** A posted row that converts gives a posted item. */
  lemma PostedRowItem(row: DbManager.ArchiveRow)
    requires row.status == Some("postada") && ApiModels.ToNewsItem(DbManager.ApiRow(row)).Some?
    ensures ApiModels.ToNewsItem(DbManager.ApiRow(row)).value.status == "postada"
  {
  }

  /** A stored posted row that converts is found when nothing is cached for its id. */
  lemma NewsByIdFinds(d: ApiCache.Entries<Payload>, rows: seq<DbManager.ArchiveRow>, id: int, now: int,
                      maxSize: int, ttl: int)
    requires ApiCache.Lookup(d, ItemKey(id), now, ttl).0.None?
    requires forall x :: x in rows && x.id == id && x.status == Some("postada") ==>
      ApiModels.ToNewsItem(DbManager.ApiRow(x)).Some?
    requires exists x :: x in rows && x.id == id && x.status == Some("postada")
    ensures NewsById(d, rows, id, now, maxSize, ttl).0.Some?
  {
    var row := PostedById(rows, id);
    assert row.Some?;
    assert PostedItem(rows, id).Some?;
  }

  // ---------------------------------------------------------------------------------------
  // The object

  class NewsService {
    const db: DbManager.DatabaseManager
    const cache: ApiCache.APICache<Payload>

    predicate Valid()
      reads this, cache
    {
      cache.Valid() && CachePosted(cache.entries)
    }

    constructor (db: DbManager.DatabaseManager, cache: ApiCache.APICache<Payload>)
      requires cache.Valid() && CachePosted(cache.entries)
      ensures Valid() && this.db == db && this.cache == cache
    {
      this.db := db;
      this.cache := cache;
    }

    /** The items of the rows that convert (`NewsItem(**news)`, skipping the ones that raise). */
    method ConvertAll(raw: seq<ApiModels.RawNews>) returns (items: seq<ApiModels.NewsItem>)
      ensures items == Converted(raw)
    {
      items := [];
      for i := 0 to |raw|
        invariant items == Converted(raw[..i])
      {
        assert raw[..i + 1][..i] == raw[..i];
        var item := ApiModels.ToNewsItem(raw[i]);
        if item.Some? {
          items := items + [item.value];
        }
      }
      assert raw[..|raw|] == raw;
    }

    /** get_posted_news. */
    method GetPostedNews(limit: int, now: int) returns (resp: NewsResponse)
      requires Valid()
      modifies cache
      ensures Valid()
      ensures (resp, cache.entries)
        == PostedNews(old(cache.entries), db.archive.rows, limit, now, cache.maxSize, cache.ttl)
    {
      PostedNewsOnlyPosted(cache.entries, db.archive.rows, limit, now, cache.maxSize, cache.ttl);
      var key := PostedKey(limit);
      var cached := cache.Get(key, now);
      if cached.Some? {
        match cached.value
        case Posted(data, total) =>
          return NewsResponse(true, data, total, true);
        case Item(_) =>
          return NewsResponse(false, [], 0, false);
      }
      var raw := PostedFromDb(db.archive.rows, limit);
      if raw == [] {
        return NewsResponse(true, [], 0, false);
      }
      var items := ConvertAll(raw);
      resp := NewsResponse(true, items, |items|, false);
      cache.Set(key, Posted(items, |items|), now);
    }

    /** get_news_by_id. */
    method GetNewsById(id: int, now: int) returns (r: Option<ApiModels.NewsItem>)
      requires Valid()
      modifies cache
      ensures Valid()
      ensures (r, cache.entries) == NewsById(old(cache.entries), db.archive.rows, id, now, cache.maxSize, cache.ttl)
    {
      NewsByIdOnlyPosted(cache.entries, db.archive.rows, id, now, cache.maxSize, cache.ttl);
      var key := ItemKey(id);
      var cached := cache.Get(key, now);
      if cached.Some? {
        match cached.value
        case Item(i) =>
          return Some(i);
        case Posted(_, _) =>
          return None;
      }
      var item := PostedItem(db.archive.rows, id);
      if item.None? {
        return None;
      }
      cache.Set(key, Item(item.value), now);
      r := item;
    }
  }
}
