/**
 * `MainOperations` (database/main_operations.py): the older access layer of the archive table
 * `noticias`, as created by database/init_db.py (no fonte, score or status columns). A
 * re-selected link only has its selection time refreshed.
 */
module MainOperations {
  import opened Wrappers
  import Seqs
  import SqlLike
  import Ordering

  datatype MainRow = MainRow(id: nat, titulo: string, link: string, imagem: Option<string>,
                             resumo: Option<string>, cluster: Option<int>, dataSelecao: nat)

  datatype MainTable = MainTable(rows: seq<MainRow>, nextId: nat)

  /** One item of the selection handed to transfer_selected_news. */
  datatype Selected = Selected(titulo: string, link: string, imagem: Option<string>, resumo: string, cluster: int)

  /** Links are unique (UNIQUE), ids increase in storage order and stay below the next id (AUTOINCREMENT). */
  predicate TableOk(t: MainTable) {
    (forall i, j :: 0 <= i < j < |t.rows| ==> t.rows[i].link != t.rows[j].link && t.rows[i].id < t.rows[j].id)
    && forall i :: 0 <= i < |t.rows| ==> t.rows[i].id < t.nextId
  }

  /** check_link_exists: `SELECT COUNT(*) ... WHERE link = ?` is positive. */
  predicate HasLink(rows: seq<MainRow>, link: string) {
    exists i :: 0 <= i < |rows| && rows[i].link == link
  }

  // ---------------------------------------------------------------------------------------
  // The two writes

  /** insert_new_news: an IntegrityError (duplicate link) gives False and no change. */
  function Insert(t: MainTable, titulo: string, link: string, imagem: Option<string>, resumo: string,
                  cluster: int, now: nat): (r: (bool, MainTable))
    ensures r.0 <==> !HasLink(t.rows, link)
    ensures !r.0 ==> r.1 == t
    ensures r.0 ==>
      r.1.nextId == t.nextId + 1
      && r.1.rows == t.rows + [MainRow(t.nextId, titulo, link, imagem, Some(resumo), Some(cluster), now)]
  {
    if HasLink(t.rows, link) then (false, t)
    else (true, MainTable(t.rows + [MainRow(t.nextId, titulo, link, imagem, Some(resumo), Some(cluster), now)], t.nextId + 1))
  }

  lemma InsertKeepsOk(t: MainTable, titulo: string, link: string, imagem: Option<string>, resumo: string,
                      cluster: int, now: nat)
    requires TableOk(t)
    ensures TableOk(Insert(t, titulo, link, imagem, resumo, cluster, now).1)
  {
    var r := Insert(t, titulo, link, imagem, resumo, cluster, now);
    if r.0 {
      assert forall i :: 0 <= i < |t.rows| ==> r.1.rows[i] == t.rows[i];
    }
  }

  /** `UPDATE noticias SET data_selecao = now WHERE link = ?`. */
  function Refresh(rows: seq<MainRow>, link: string, now: nat): (r: seq<MainRow>)
    ensures |r| == |rows|
  {
    seq(|rows|, i requires 0 <= i < |rows| => if rows[i].link == link then rows[i].(dataSelecao := now) else rows[i])
  }

  /** update_selection_timestamp: True exactly when some row has the link (`rowcount > 0`). */
  function UpdateSelection(t: MainTable, link: string, now: nat): (r: (bool, MainTable))
    ensures r.0 <==> HasLink(t.rows, link)
    ensures !r.0 ==> r.1 == t
    ensures r.0 ==> r.1 == t.(rows := Refresh(t.rows, link, now))
  {
    if HasLink(t.rows, link) then (true, t.(rows := Refresh(t.rows, link, now))) else (false, t)
  }

  /** The refresh touches only the selection time of the row with that link. */
  lemma RefreshOnlySelectionTime(rows: seq<MainRow>, link: string, now: nat)
    ensures var r := Refresh(rows, link, now);
      forall i :: 0 <= i < |rows| ==>
        r[i].(dataSelecao := rows[i].dataSelecao) == rows[i]
        && (r[i] != rows[i] ==> rows[i].link == link && r[i].dataSelecao == now)
  {
  }

  lemma UpdateSelectionKeepsOk(t: MainTable, link: string, now: nat)
    requires TableOk(t)
    ensures TableOk(UpdateSelection(t, link, now).1)
  {
  }

  // ---------------------------------------------------------------------------------------
  // transfer_selected_news

  /** The `stats` dict: counters that start at 0 (plain integers, as in Python). */
  datatype TransferStats = TransferStats(novas: int, atualizadas: int, falhas: int)

  /** One iteration: refresh a known link, otherwise insert the item. */
  function TransferOne(st: TransferStats, t: MainTable, n: Selected, now: nat): (TransferStats, MainTable)
  {
    if HasLink(t.rows, n.link) then
      var (ok, t') := UpdateSelection(t, n.link, now);
      (if ok then st.(atualizadas := st.atualizadas + 1) else st.(falhas := st.falhas + 1), t')
    else
      var (ok, t') := Insert(t, n.titulo, n.link, n.imagem, n.resumo, n.cluster, now);
      (if ok then st.(novas := st.novas + 1) else st.(falhas := st.falhas + 1), t')
  }

  /** transfer_selected_news over the first items of the selection, in order. */
  function Transfer(t: MainTable, sel: seq<Selected>, now: nat): (TransferStats, MainTable)
  {
    if sel == [] then (TransferStats(0, 0, 0), t)
    else
      var (st, t') := Transfer(t, sel[..|sel| - 1], now);
      TransferOne(st, t', sel[|sel| - 1], now)
  }

  /**
   * Every item is counted exactly once, no item fails (the existence check and the write agree),
   * and the table grows by exactly the number of new items.
   */
  lemma {:induction false} TransferCounts(t: MainTable, sel: seq<Selected>, now: nat)
    ensures var (st, t') := Transfer(t, sel, now);
      st.novas + st.atualizadas + st.falhas == |sel| && st.falhas == 0 && |t'.rows| == |t.rows| + st.novas
    decreases |sel|
  {
    if sel != [] {
      TransferCounts(t, sel[..|sel| - 1], now);
    }
  }

  /** Transferring keeps links unique. */
  lemma {:induction false} TransferKeepsOk(t: MainTable, sel: seq<Selected>, now: nat)
    requires TableOk(t)
    ensures TableOk(Transfer(t, sel, now).1)
    decreases |sel|
  {
    if sel != [] {
      TransferKeepsOk(t, sel[..|sel| - 1], now);
      var (st, t') := Transfer(t, sel[..|sel| - 1], now);
      var n := sel[|sel| - 1];
      if HasLink(t'.rows, n.link) {
        UpdateSelectionKeepsOk(t', n.link, now);
      } else {
        InsertKeepsOk(t', n.titulo, n.link, n.imagem, n.resumo, n.cluster, now);
      }
    }
  }

  /**
   * An item whose link is already stored is counted as updated; its row only gets the new
   * selection time, and every other row is unchanged.
   */
  lemma TransferOneRefreshes(st: TransferStats, t: MainTable, n: Selected, now: nat, i: nat)
    requires TableOk(t) && i < |t.rows| && t.rows[i].link == n.link
    ensures var (st', t') := TransferOne(st, t, n, now);
      st' == st.(atualizadas := st.atualizadas + 1) && |t'.rows| == |t.rows|
      && t'.rows[i] == t.rows[i].(dataSelecao := now)
      && forall j :: 0 <= j < |t.rows| && j != i ==> t'.rows[j] == t.rows[j]
  {
    assert HasLink(t.rows, n.link);
  }

  // ---------------------------------------------------------------------------------------
  // The queries: `ORDER BY data_selecao DESC LIMIT limit`, ties by id

  function SelectedKey(r: MainRow): int { r.dataSelecao }

  function RowId(r: MainRow): int { r.id }

  /**
   * The newest `limit` rows of `rows` (all of them when `limit` is negative): none repeated, newest
   * first, and no row left out is newer than a returned one (or as new with a smaller id).
   */
  function Newest(rows: seq<MainRow>, limit: int): (r: seq<MainRow>)
    ensures limit >= 0 ==> |r| == Seqs.Min(limit, |rows|)
    ensures limit < 0 ==> multiset(r) == multiset(rows)
    ensures multiset(r) <= multiset(rows)
    ensures Ordering.Sorted(SelectedKey, RowId, true, r)
    ensures forall x, k :: x in multiset(rows) - multiset(r) && 0 <= k < |r| ==>
      !Ordering.Precedes(SelectedKey, RowId, true, x, r[k])
  {
    Ordering.Top(SelectedKey, RowId, true, rows, limit)
  }

  /** get_latest_news. */
  function LatestNews(rows: seq<MainRow>, limit: int): (r: seq<MainRow>)
    ensures limit >= 0 ==> |r| == Seqs.Min(limit, |rows|)
    ensures limit < 0 ==> multiset(r) == multiset(rows)
    ensures multiset(r) <= multiset(rows)
    ensures Ordering.Sorted(SelectedKey, RowId, true, r)
    ensures forall x, k :: x in multiset(rows) - multiset(r) && 0 <= k < |r| ==>
      !Ordering.Precedes(SelectedKey, RowId, true, x, r[k])
  {
    Newest(rows, limit)
  }

  /** `WHERE cluster = ?`, in rowid order. */
  function ClusterRows(rows: seq<MainRow>, cluster: int): (r: seq<MainRow>)
    ensures forall x :: x in r <==> x in rows && x.cluster == Some(cluster)
  {
    Seqs.Filter(rows, (x: MainRow) => x.cluster == Some(cluster))
  }

  /** get_news_by_cluster: the newest `limit` rows of the cluster. */
  function NewsByCluster(rows: seq<MainRow>, cluster: int, limit: int): (r: seq<MainRow>)
    ensures limit >= 0 ==> |r| == Seqs.Min(limit, |ClusterRows(rows, cluster)|)
    ensures limit < 0 ==> multiset(r) == multiset(ClusterRows(rows, cluster))
    ensures multiset(r) <= multiset(ClusterRows(rows, cluster))
    ensures forall x :: x in r ==> x in rows && x.cluster == Some(cluster)
    ensures Ordering.Sorted(SelectedKey, RowId, true, r)
    ensures forall x, k :: x in multiset(ClusterRows(rows, cluster)) - multiset(r) && 0 <= k < |r| ==>
      !Ordering.Precedes(SelectedKey, RowId, true, x, r[k])
  {
    var r := Newest(ClusterRows(rows, cluster), limit);
    Seqs.SubMultisetMembers(r, ClusterRows(rows, cluster));
    r
  }

  /** `titulo LIKE '%term%' OR resumo LIKE '%term%'` (a NULL resumo never matches). */
  predicate Matches(r: MainRow, term: string) {
    SqlLike.Like(r.titulo, "%" + term + "%")
    || (r.resumo.Some? && SqlLike.Like(r.resumo.value, "%" + term + "%"))
  }

  /** The rows matching the search term, in rowid order. */
  function MatchingRows(rows: seq<MainRow>, term: string): (r: seq<MainRow>)
    ensures forall x :: x in r <==> x in rows && Matches(x, term)
  {
    Seqs.Filter(rows, (x: MainRow) => Matches(x, term))
  }

  /** search_news: the newest `limit` matching rows. */
  function SearchNews(rows: seq<MainRow>, term: string, limit: int): (r: seq<MainRow>)
    ensures limit >= 0 ==> |r| == Seqs.Min(limit, |MatchingRows(rows, term)|)
    ensures limit < 0 ==> multiset(r) == multiset(MatchingRows(rows, term))
    ensures multiset(r) <= multiset(MatchingRows(rows, term))
    ensures forall x :: x in r ==> x in rows && Matches(x, term)
    ensures Ordering.Sorted(SelectedKey, RowId, true, r)
    ensures forall x, k :: x in multiset(MatchingRows(rows, term)) - multiset(r) && 0 <= k < |r| ==>
      !Ordering.Precedes(SelectedKey, RowId, true, x, r[k])
  {
    var r := Newest(MatchingRows(rows, term), limit);
    Seqs.SubMultisetMembers(r, MatchingRows(rows, term));
    r
  }

  /**
   * For a term without LIKE wildcards, a match means that the title or the summary contains the
   * term, ignoring the case of ASCII letters.
   */
  lemma MatchesMeaning(r: MainRow, term: string)
    requires SqlLike.NoWildcards(term)
    ensures Matches(r, term) <==>
      SqlLike.CIContains(r.titulo, term) || (r.resumo.Some? && SqlLike.CIContains(r.resumo.value, term))
  {
    SqlLike.LikeContains(r.titulo, term);
    if r.resumo.Some? {
      SqlLike.LikeContains(r.resumo.value, term);
    }
  }

  /** Every stored row that matches is found when the limit does not cut the result short. */
  lemma SearchFindsAll(rows: seq<MainRow>, term: string, x: MainRow)
    requires x in rows && Matches(x, term)
    ensures x in SearchNews(rows, term, -1)
  {
    var found := MatchingRows(rows, term);
    assert x in multiset(found);
  }

  /** A row of get_api_data: the same seven columns. */
  datatype ApiItem = ApiItem(id: nat, titulo: string, link: string, imagem: Option<string>,
                             resumo: Option<string>, cluster: Option<int>, dataSelecao: nat)

  function ToApi(r: MainRow): ApiItem {
    ApiItem(r.id, r.titulo, r.link, r.imagem, r.resumo, r.cluster, r.dataSelecao)
  }

  // ---------------------------------------------------------------------------------------
  // The object

  class MainOperations {
    var table: MainTable

    predicate Valid()
      reads this
    {
      TableOk(table)
    }

    constructor ()
      ensures Valid() && table == MainTable([], 0)
    {
      table := MainTable([], 0);
    }

    /** check_link_exists. */
    method CheckLinkExists(link: string) returns (b: bool)
      ensures b <==> exists i :: 0 <= i < |table.rows| && table.rows[i].link == link
    {
      b := HasLink(table.rows, link);
    }

    /** insert_new_news. */
    method InsertNewNews(titulo: string, link: string, imagem: Option<string>, resumo: string,
                         cluster: int, now: nat) returns (ok: bool)
      requires Valid()
      modifies this
      ensures Valid()
      ensures (ok, table) == Insert(old(table), titulo, link, imagem, resumo, cluster, now)
    {
      InsertKeepsOk(table, titulo, link, imagem, resumo, cluster, now);
      if HasLink(table.rows, link) {
        return false;
      }
      table := MainTable(table.rows + [MainRow(table.nextId, titulo, link, imagem, Some(resumo), Some(cluster), now)],
                         table.nextId + 1);
      ok := true;
    }

    /** update_selection_timestamp. */
    method UpdateSelectionTimestamp(link: string, now: nat) returns (ok: bool)
      requires Valid()
      modifies this
      ensures Valid()
      ensures (ok, table) == UpdateSelection(old(table), link, now)
    {
      UpdateSelectionKeepsOk(table, link, now);
      ok := HasLink(table.rows, link);
      if ok {
        table := table.(rows := Refresh(table.rows, link, now));
      }
    }

    /** transfer_selected_news. */
    method TransferSelectedNews(selected: seq<Selected>, now: nat) returns (stats: TransferStats)
      requires Valid()
      modifies this
      ensures Valid()
      ensures (stats, table) == Transfer(old(table), selected, now)
    {
      stats := TransferStats(0, 0, 0);
      for i := 0 to |selected|
        invariant Valid()
        invariant (stats, table) == Transfer(old(table), selected[..i], now)
      {
        assert selected[..i + 1][..i] == selected[..i];
        var news := selected[i];
        var exists_ := CheckLinkExists(news.link);
        if exists_ {
          var ok := UpdateSelectionTimestamp(news.link, now);
          if ok {
            stats := stats.(atualizadas := stats.atualizadas + 1);
          } else {
            stats := stats.(falhas := stats.falhas + 1);
          }
        } else {
          var ok := InsertNewNews(news.titulo, news.link, news.imagem, news.resumo, news.cluster, now);
          if ok {
            stats := stats.(novas := stats.novas + 1);
          } else {
            stats := stats.(falhas := stats.falhas + 1);
          }
        }
      }
      assert selected[..|selected|] == selected;
    }

    method GetLatestNews(limit: int) returns (r: seq<MainRow>)
      ensures r == LatestNews(table.rows, limit)
    {
      r := LatestNews(table.rows, limit);
    }

    method GetNewsByCluster(cluster: int, limit: int) returns (r: seq<MainRow>)
      ensures r == NewsByCluster(table.rows, cluster, limit)
    {
      r := NewsByCluster(table.rows, cluster, limit);
    }

    method SearchNewsFor(term: string, limit: int) returns (r: seq<MainRow>)
      ensures r == SearchNews(table.rows, term, limit)
    {
      r := SearchNews(table.rows, term, limit);
    }

    /** get_api_data: the latest rows, copied one by one in the same order. */
    method GetApiData(limit: int) returns (r: seq<ApiItem>)
      ensures |r| == |LatestNews(table.rows, limit)|
      ensures forall i :: 0 <= i < |r| ==> r[i] == ToApi(LatestNews(table.rows, limit)[i])
    {
      var news := GetLatestNews(limit);
      r := [];
      for i := 0 to |news|
        invariant |r| == i
        invariant forall k :: 0 <= k < i ==> r[k] == ToApi(news[k])
      {
        r := r + [ToApi(news[i])];
      }
    }
  }
}
