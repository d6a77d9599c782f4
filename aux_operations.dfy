/**
 * `AuxiliaryOperations` (database/aux_operations.py): the older access layer of the staging
 * table. It has no stage column and no validation; a summary counts as usable when it is
 * non-empty and does not match `LIKE 'Falha na sumarização%'`.
 */
module AuxOperations {
  import opened Wrappers
  import Seqs
  import SqlLike
  import Validator

  datatype AuxRow = AuxRow(id: nat, titulo: string, link: string, imagem: Option<string>,
                           resumo: Option<string>, cluster: Option<int>)

  datatype AuxTable = AuxTable(rows: seq<AuxRow>, nextId: nat)

  /** Links are unique, and rows are stored in increasing id order, below the next id. */
  predicate TableOk(t: AuxTable) {
    (forall i, j :: 0 <= i < j < |t.rows| ==> t.rows[i].link != t.rows[j].link && t.rows[i].id < t.rows[j].id)
    && forall i :: 0 <= i < |t.rows| ==> t.rows[i].id < t.nextId
  }

  predicate HasLink(rows: seq<AuxRow>, link: string) {
    exists i :: 0 <= i < |rows| && rows[i].link == link
  }

  /** `ORDER BY id`: strictly increasing ids. */
  predicate ById(rows: seq<AuxRow>) {
    forall i, j :: 0 <= i < j < |rows| ==> rows[i].id < rows[j].id
  }

  /** `resumo IS NOT NULL AND resumo != ''`. */
  predicate HasResumo(r: AuxRow) { r.resumo.Some? && r.resumo.value != "" }

  /** ... `AND resumo NOT LIKE 'Falha na sumarização%'`. */
  predicate UsableResumo(r: AuxRow) {
    HasResumo(r) && !SqlLike.Like(r.resumo.value, Validator.FailurePrefix + "%")
  }

  predicate NoResumo(r: AuxRow) { r.resumo.None? || r.resumo.value == "" }

  predicate AwaitsCluster(r: AuxRow) { r.cluster.None? && UsableResumo(r) }

  predicate Ready(r: AuxRow) { UsableResumo(r) && r.cluster.Some? }

  predicate HasCluster(r: AuxRow) { r.cluster.Some? }

  predicate NoCluster(r: AuxRow) { r.cluster.None? }

  // ---------------------------------------------------------------------------------------
  // The three writes

  /** insert_news_basic: fails only on a duplicate link (the UNIQUE constraint). */
  function Insert(t: AuxTable, titulo: string, link: string, imagem: Option<string>): (r: (bool, AuxTable))
    ensures r.0 <==> !HasLink(t.rows, link)
    ensures !r.0 ==> r.1 == t
    ensures r.0 ==> r.1.rows == t.rows + [AuxRow(t.nextId, titulo, link, imagem, None, None)] && r.1.nextId == t.nextId + 1
  {
    if HasLink(t.rows, link) then (false, t)
    else (true, AuxTable(t.rows + [AuxRow(t.nextId, titulo, link, imagem, None, None)], t.nextId + 1))
  }

  lemma InsertKeepsOk(t: AuxTable, titulo: string, link: string, imagem: Option<string>)
    requires TableOk(t)
    ensures TableOk(Insert(t, titulo, link, imagem).1)
  {
    var r := Insert(t, titulo, link, imagem);
    if r.0 {
      assert forall i :: 0 <= i < |t.rows| ==> r.1.rows[i] == t.rows[i];
    }
  }

  /** `UPDATE noticias_aux SET resumo = ? WHERE link = ?`. */
  function SetResumo(rows: seq<AuxRow>, link: string, resumo: string): (r: seq<AuxRow>)
    ensures |r| == |rows|
  {
    seq(|rows|, i requires 0 <= i < |rows| => if rows[i].link == link then rows[i].(resumo := Some(resumo)) else rows[i])
  }

  /** `UPDATE noticias_aux SET cluster = ? WHERE link = ?`. */
  function SetCluster(rows: seq<AuxRow>, link: string, cluster: int): (r: seq<AuxRow>)
    ensures |r| == |rows|
  {
    seq(|rows|, i requires 0 <= i < |rows| => if rows[i].link == link then rows[i].(cluster := Some(cluster)) else rows[i])
  }

  /** update_resumo: False, and no change, when no row has the link. */
  function UpdateResumo(t: AuxTable, link: string, resumo: string): (r: (bool, AuxTable))
    ensures r.0 <==> HasLink(t.rows, link)
    ensures !r.0 ==> r.1 == t
    ensures r.0 ==> r.1 == t.(rows := SetResumo(t.rows, link, resumo))
  {
    if HasLink(t.rows, link) then (true, t.(rows := SetResumo(t.rows, link, resumo))) else (false, t)
  }

  /** update_cluster: False, and no change, when no row has the link. */
  function UpdateCluster(t: AuxTable, link: string, cluster: int): (r: (bool, AuxTable))
    ensures r.0 <==> HasLink(t.rows, link)
    ensures !r.0 ==> r.1 == t
    ensures r.0 ==> r.1 == t.(rows := SetCluster(t.rows, link, cluster))
  {
    if HasLink(t.rows, link) then (true, t.(rows := SetCluster(t.rows, link, cluster))) else (false, t)
  }

  /** update_resumo changes the summary of the row with that link and nothing else. */
  lemma UpdateResumoOnlyThatRow(t: AuxTable, link: string, resumo: string, i: nat)
    requires i < |t.rows|
    ensures var rows := UpdateResumo(t, link, resumo).1.rows;
      |rows| == |t.rows| && rows[i].(resumo := t.rows[i].resumo) == t.rows[i]
      && (rows[i] != t.rows[i] ==> t.rows[i].link == link && rows[i].resumo == Some(resumo))
  {
  }

  /** update_cluster changes the cluster of the row with that link and nothing else. */
  lemma UpdateClusterOnlyThatRow(t: AuxTable, link: string, cluster: int, i: nat)
    requires i < |t.rows|
    ensures var rows := UpdateCluster(t, link, cluster).1.rows;
      |rows| == |t.rows| && rows[i].(cluster := t.rows[i].cluster) == t.rows[i]
      && (rows[i] != t.rows[i] ==> t.rows[i].link == link && rows[i].cluster == Some(cluster))
  {
  }

  lemma SameLinksKeepOk(t: AuxTable, rows: seq<AuxRow>)
    requires TableOk(t) && |rows| == |t.rows|
    requires forall i :: 0 <= i < |rows| ==> rows[i].link == t.rows[i].link && rows[i].id == t.rows[i].id
    ensures TableOk(t.(rows := rows))
  {
  }

  // ---------------------------------------------------------------------------------------
  // The queries (the table is stored in id order, so `ORDER BY id` is the stored order)

  /** get_news_with_resumos. */
  function WithResumos(rows: seq<AuxRow>): (r: seq<AuxRow>)
    ensures forall x :: x in r <==> x in rows && UsableResumo(x)
  {
    Seqs.Filter(rows, UsableResumo)
  }

  /** get_news_without_resumos. */
  function WithoutResumos(rows: seq<AuxRow>): (r: seq<AuxRow>)
    ensures forall x :: x in r <==> x in rows && NoResumo(x)
  {
    Seqs.Filter(rows, NoResumo)
  }

  /** get_news_without_clusters. */
  function WithoutClusters(rows: seq<AuxRow>): (r: seq<AuxRow>)
    ensures forall x :: x in r <==> x in rows && AwaitsCluster(x)
  {
    Seqs.Filter(rows, AwaitsCluster)
  }

  /** get_news_by_cluster. */
  function ByCluster(rows: seq<AuxRow>, cluster: int): (r: seq<AuxRow>)
    ensures forall x :: x in r <==> x in rows && x.cluster == Some(cluster)
  {
    Seqs.Filter(rows, (x: AuxRow) => x.cluster == Some(cluster))
  }

  /** get_top_news_by_relevance: despite its name, the first `topN` ready rows by id. */
  function TopNews(rows: seq<AuxRow>, topN: int): (r: seq<AuxRow>)
    ensures topN >= 0 ==> |r| == Seqs.Min(topN, |Seqs.Filter(rows, Ready)|)
    ensures topN < 0 ==> r == Seqs.Filter(rows, Ready)
    ensures forall x :: x in r ==> x in rows && Ready(x)
    ensures |r| <= |Seqs.Filter(rows, Ready)| && r == Seqs.Filter(rows, Ready)[..|r|]
  {
    Seqs.Limit(Seqs.Filter(rows, Ready), topN)
  }

  /** A filter of a table in id order is in id order. */
  lemma {:induction false} FilterById(rows: seq<AuxRow>, p: AuxRow -> bool)
    requires ById(rows)
    ensures ById(Seqs.Filter(rows, p))
    decreases |rows|
  {
    if rows != [] {
      assert ById(rows[1..]);
      FilterById(rows[1..], p);
      var rest := Seqs.Filter(rows[1..], p);
      forall k | 0 <= k < |rest| ensures rows[0].id < rest[k].id {
        assert rest[k] in rows[1..];
      }
    }
  }

  /** Every query returns its rows in id order. */
  lemma QueriesById(t: AuxTable, cluster: int, topN: int)
    requires TableOk(t)
    ensures ById(WithResumos(t.rows)) && ById(WithoutResumos(t.rows)) && ById(WithoutClusters(t.rows))
    ensures ById(ByCluster(t.rows, cluster)) && ById(TopNews(t.rows, topN))
  {
    FilterById(t.rows, UsableResumo);
    FilterById(t.rows, NoResumo);
    FilterById(t.rows, AwaitsCluster);
    FilterById(t.rows, (x: AuxRow) => x.cluster == Some(cluster));
    FilterById(t.rows, Ready);
  }

  /**
   * A usable summary is one that does not start with the failure prefix, ignoring the case of
   * ASCII letters (SQLite's LIKE).
   */
  lemma UsableResumoMeaning(r: AuxRow)
    requires HasResumo(r)
    ensures UsableResumo(r) <==> !SqlLike.CIStartsWith(r.resumo.value, Validator.FailurePrefix)
  {
    assert SqlLike.NoWildcards(Validator.FailurePrefix);
    SqlLike.LikePrefix(r.resumo.value, Validator.FailurePrefix);
  }

  /** Every row still to cluster is among the rows with a usable summary, and has no cluster. */
  lemma WithoutClustersWithinWithResumos(rows: seq<AuxRow>)
    ensures forall x :: x in WithoutClusters(rows) ==> x in WithResumos(rows) && x.cluster.None?
  {
  }

  /** A summarisation-failure message is never offered as a usable summary. */
  lemma FailureNotUsable(r: AuxRow, tail: string)
    requires r.resumo == Some(Validator.FailurePrefix + tail)
    ensures r !in WithResumos([r]) && r !in TopNews([r], 1)
  {
    var s := Validator.FailurePrefix + tail;
    assert s[..|Validator.FailurePrefix|] == Validator.FailurePrefix;
    SqlLike.StartsWithIsCIStartsWith(s, Validator.FailurePrefix);
    UsableResumoMeaning(r);
  }

  // ---------------------------------------------------------------------------------------
  // count_news

  datatype Counts = Counts(total: nat, comResumos: nat, comClusters: nat, prontasSelecao: nat)

  /**
   * count_news: the total is the table size; the rows with a summary and the rows
   * get_news_without_resumos returns split the table, as do the rows with and without a
   * cluster; the ready count is the size of the unlimited top-news query.
   */
  function CountNews(rows: seq<AuxRow>): (c: Counts)
    ensures c.total == |rows|
    ensures c.comResumos + |WithoutResumos(rows)| == |rows|
    ensures c.comClusters + |Seqs.Filter(rows, NoCluster)| == |rows|
    ensures c.prontasSelecao == |TopNews(rows, -1)|
    ensures c.prontasSelecao <= c.comClusters <= c.total
    ensures c.prontasSelecao <= c.comResumos <= c.total
  {
    Seqs.FilterMonotone(rows, Ready, HasCluster);
    Seqs.FilterMonotone(rows, Ready, HasResumo);
    Seqs.FilterComplement(rows, HasResumo, NoResumo);
    Seqs.FilterComplement(rows, HasCluster, NoCluster);
    Counts(|rows|, |Seqs.Filter(rows, HasResumo)|, |Seqs.Filter(rows, HasCluster)|, |Seqs.Filter(rows, Ready)|)
  }

  /** The ready count is the number of rows the top-news query can draw from. */
  lemma CountMatchesTopNews(rows: seq<AuxRow>)
    ensures |TopNews(rows, -1)| == CountNews(rows).prontasSelecao
    ensures |TopNews(rows, CountNews(rows).prontasSelecao)| == CountNews(rows).prontasSelecao
  {
  }

  // ---------------------------------------------------------------------------------------
  // The object

  class AuxiliaryOperations {
    var table: AuxTable

    predicate Valid()
      reads this
    {
      TableOk(table)
    }

    constructor ()
      ensures Valid() && table == AuxTable([], 0)
    {
      table := AuxTable([], 0);
    }

    /** insert_news_basic. */
    method InsertNewsBasic(titulo: string, link: string, imagem: Option<string>) returns (ok: bool)
      requires Valid()
      modifies this
      ensures Valid()
      ensures (ok, table) == Insert(old(table), titulo, link, imagem)
    {
      InsertKeepsOk(table, titulo, link, imagem);
      if HasLink(table.rows, link) {
        return false;
      }
      table := AuxTable(table.rows + [AuxRow(table.nextId, titulo, link, imagem, None, None)], table.nextId + 1);
      ok := true;
    }

    /** update_resumo. */
    method UpdateResumoOf(link: string, resumo: string) returns (ok: bool)
      requires Valid()
      modifies this
      ensures Valid()
      ensures (ok, table) == UpdateResumo(old(table), link, resumo)
    {
      SameLinksKeepOk(table, SetResumo(table.rows, link, resumo));
      ok := HasLink(table.rows, link);
      if ok {
        table := table.(rows := SetResumo(table.rows, link, resumo));
      }
    }

    /** update_cluster. */
    method UpdateClusterOf(link: string, cluster: int) returns (ok: bool)
      requires Valid()
      modifies this
      ensures Valid()
      ensures (ok, table) == UpdateCluster(old(table), link, cluster)
    {
      SameLinksKeepOk(table, SetCluster(table.rows, link, cluster));
      ok := HasLink(table.rows, link);
      if ok {
        table := table.(rows := SetCluster(table.rows, link, cluster));
      }
    }

    method GetNewsWithResumos() returns (r: seq<AuxRow>)
      ensures r == WithResumos(table.rows)
    {
      r := WithResumos(table.rows);
    }

    method GetNewsWithoutResumos() returns (r: seq<AuxRow>)
      ensures r == WithoutResumos(table.rows)
    {
      r := WithoutResumos(table.rows);
    }

    method GetNewsWithoutClusters() returns (r: seq<AuxRow>)
      ensures r == WithoutClusters(table.rows)
    {
      r := WithoutClusters(table.rows);
    }

    method GetTopNewsByRelevance(topN: int) returns (r: seq<AuxRow>)
      ensures r == TopNews(table.rows, topN)
    {
      r := TopNews(table.rows, topN);
    }

    method CountAll() returns (c: Counts)
      ensures c == CountNews(table.rows)
    {
      c := CountNews(table.rows);
    }

    /** clear_database: `DELETE FROM noticias_aux` (the id sequence is not reset). */
    method ClearDatabase() returns (ok: bool)
      requires Valid()
      modifies this
      ensures Valid() && ok
      ensures table.rows == [] && table.nextId == old(table.nextId)
    {
      table := table.(rows := []);
      ok := true;
    }
  }
}
