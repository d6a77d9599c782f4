/**
 * `DatabaseManager` (database/db_manager.py): the staging table `noticias_aux`, where an
 * article moves from `coletada` to `processada` to `clusterizada`, and the archive table
 * `noticias`, whose rows are posted (`postada`) or archived (`arquivada`).
 * Each table is a sequence of rows in rowid order plus the next AUTOINCREMENT id; SQL
 * timestamps are an integer clock `now` passed by the caller.
 */
module DbManager {
  import opened Wrappers
  import opened PyValues
  import Seqs
  import Ordering
  import Text
  import Validator
  import ScraperUtils
  import ApiModels

  /** The stage column of the staging table. */
  datatype Stage = Coletada | Processada | Clusterizada

  datatype StagingRow = StagingRow(
    id: nat, titulo: string, link: string, imagem: Option<string>, fonte: string,
    resumo: Option<string>, cluster: Option<int>,
    dataColeta: nat, dataProcessamento: Option<nat>, status: Stage)

  /** The status column of the archive is free text; the model keeps whatever was written. */
  datatype ArchiveRow = ArchiveRow(
    id: nat, titulo: string, link: string, imagem: Option<string>, resumo: string,
    cluster: int, fonte: string, score: Option<real>, status: Option<string>, dataSelecao: nat)

  datatype StagingTable = StagingTable(rows: seq<StagingRow>, nextId: nat)
  datatype ArchiveTable = ArchiveTable(rows: seq<ArchiveRow>, nextId: nat)

  const Postada := "postada"
  const Arquivada := "arquivada"

  // ---------------------------------------------------------------------------------------
  // Table invariants

  /** The UNIQUE constraint on `link`. */
  predicate UniqueStagingLinks(rows: seq<StagingRow>) {
    forall i, j :: 0 <= i < j < |rows| ==> rows[i].link != rows[j].link
  }

  predicate UniqueArchiveLinks(rows: seq<ArchiveRow>) {
    forall i, j :: 0 <= i < j < |rows| ==> rows[i].link != rows[j].link
  }

  /**
   * What the operations of the manager keep true of a staging row: a collected row has no
   * summary and no cluster, a processed row has a summary, a clustered row has a cluster, the
   * processing time is set exactly when there is a summary, and a stored summary always
   * passes validate_resumo (so it is never a summarisation-failure message).
   */
  predicate StagedRowOk(r: StagingRow, cfg: Validator.Config) {
    (r.status == Coletada ==> r.resumo.None? && r.cluster.None?)
    && (r.status == Processada ==> r.resumo.Some?)
    && (r.status == Clusterizada ==> r.cluster.Some?)
    && (r.resumo.Some? <==> r.dataProcessamento.Some?)
    && (r.resumo.Some? ==> Validator.ValidateResumo(PyStr(r.resumo.value), cfg).Accept?)
  }

  predicate StagingOk(t: StagingTable, cfg: Validator.Config) {
    UniqueStagingLinks(t.rows)
    && (forall i :: 0 <= i < |t.rows| ==> t.rows[i].id < t.nextId && StagedRowOk(t.rows[i], cfg))
  }

  predicate ArchiveOk(t: ArchiveTable) {
    UniqueArchiveLinks(t.rows) && forall i :: 0 <= i < |t.rows| ==> t.rows[i].id < t.nextId
  }

  predicate HasStagingLink(rows: seq<StagingRow>, link: string) {
    exists i :: 0 <= i < |rows| && rows[i].link == link
  }

  /** check_link_exists_main: `SELECT COUNT(*) ... WHERE link = ?` is positive. */
  predicate HasArchiveLink(rows: seq<ArchiveRow>, link: string) {
    exists i :: 0 <= i < |rows| && rows[i].link == link
  }

  function OptStr(v: Option<string>): Value {
    if v.Some? then PyStr(v.value) else PyNone
  }

  /** A string or None read back from a sanitised record. */
  function StrOrNone(v: Value): Option<string> {
    if v.PyStr? then Some(v.s) else None
  }

  // ---------------------------------------------------------------------------------------
  // Staging table: insert_news_basic

  /** The record insert_news_basic builds, with the source already chosen. */
  function BasicRecord(titulo: string, link: string, imagem: Option<string>, fonte: string): Validator.Record {
    map[Validator.Titulo := PyStr(titulo), Validator.Link := PyStr(link),
        Validator.Imagem := OptStr(imagem), Validator.Fonte := PyStr(fonte)]
  }

  /** A missing source is detected from the (raw) link. */
  function ChosenSource(link: string, fonte: Option<string>): string {
    if fonte.Some? then fonte.value else ScraperUtils.DetectSourceFromUrl(link)
  }

  /** The sanitised record insert_news_basic validates and writes. */
  function BasicData(titulo: string, link: string, imagem: Option<string>, fonte: Option<string>): Validator.Record {
    Validator.Sanitized(BasicRecord(titulo, link, imagem, ChosenSource(link, fonte)))
  }

  predicate BasicValid(data: Validator.Record, cfg: Validator.Config) {
    Validator.Errors(data, Validator.BasicRequired, Validator.BasicChecked, cfg) == []
  }

  /** The row written for a valid record: default source and stage, collected at `now`. */
  function BasicRow(id: nat, data: Validator.Record, now: nat, cfg: Validator.Config): StagingRow
    requires BasicValid(data, cfg)
  {
    Validator.BasicNewsShape(data, cfg);
    StagingRow(id, data[Validator.Titulo].s, data[Validator.Link].s,
      if Validator.Imagem in data then StrOrNone(data[Validator.Imagem]) else None,
      data[Validator.Fonte].s, None, None, now, None, Coletada)
  }

  /** The link of a sanitised record, as it is written and compared with the stored links. */
  function LinkOf(data: Validator.Record): string {
    if Validator.Link in data && data[Validator.Link].PyStr? then data[Validator.Link].s else ""
  }

  /**
   * insert_news_basic on the staging table, given the sanitised record: rejected when it fails
   * validate_basic_news or its link is already stored (the UNIQUE constraint); otherwise
   * exactly one `coletada` row without summary or cluster is appended.
   */
  function InsertBasic(t: StagingTable, data: Validator.Record, now: nat, cfg: Validator.Config): (r: (bool, StagingTable))
    ensures !r.0 ==> r.1 == t
    ensures r.0 <==> BasicValid(data, cfg) && !HasStagingLink(t.rows, LinkOf(data))
    ensures r.0 ==> |r.1.rows| == |t.rows| + 1 && r.1.rows[..|t.rows|] == t.rows && r.1.nextId == t.nextId + 1
                    && r.1.rows[|t.rows|].status == Coletada && r.1.rows[|t.rows|].resumo.None?
                    && r.1.rows[|t.rows|].cluster.None? && r.1.rows[|t.rows|].link == LinkOf(data)
                    && r.1.rows[|t.rows|].id == t.nextId && r.1.rows[|t.rows|].dataColeta == now
  {
    if !BasicValid(data, cfg) then (false, t)
    else
      Validator.BasicNewsShape(data, cfg);
      if HasStagingLink(t.rows, LinkOf(data)) then (false, t)
      else
        var row := BasicRow(t.nextId, data, now, cfg);
        assert (t.rows + [row])[..|t.rows|] == t.rows;
        (true, StagingTable(t.rows + [row], t.nextId + 1))
  }

  /** Appending a row with a fresh link and id and a well-formed stage keeps the staging invariant. */
  lemma AppendStagingKeepsOk(t: StagingTable, t': StagingTable, cfg: Validator.Config)
    requires StagingOk(t, cfg)
    requires |t'.rows| == |t.rows| + 1 && t'.rows[..|t.rows|] == t.rows && t'.nextId == t.nextId + 1
    requires !HasStagingLink(t.rows, t'.rows[|t.rows|].link)
    requires t'.rows[|t.rows|].id == t.nextId && StagedRowOk(t'.rows[|t.rows|], cfg)
    ensures StagingOk(t', cfg)
  {
    AppendUniqueLinks(t.rows, t'.rows);
    AppendRowsOk(t, t', cfg);
  }

  lemma AppendUniqueLinks(rows: seq<StagingRow>, rows': seq<StagingRow>)
    requires UniqueStagingLinks(rows)
    requires |rows'| == |rows| + 1 && rows'[..|rows|] == rows
    requires !HasStagingLink(rows, rows'[|rows|].link)
    ensures UniqueStagingLinks(rows')
  {
    forall i, j | 0 <= i < j < |rows'| ensures rows'[i].link != rows'[j].link {
      assert rows'[i] == rows[i];
      if j < |rows| {
        assert rows'[j] == rows[j];
      }
    }
  }

  lemma AppendRowsOk(t: StagingTable, t': StagingTable, cfg: Validator.Config)
    requires StagingOk(t, cfg)
    requires |t'.rows| == |t.rows| + 1 && t'.rows[..|t.rows|] == t.rows && t'.nextId == t.nextId + 1
    requires t'.rows[|t.rows|].id == t.nextId && StagedRowOk(t'.rows[|t.rows|], cfg)
    ensures forall i :: 0 <= i < |t'.rows| ==> t'.rows[i].id < t'.nextId && StagedRowOk(t'.rows[i], cfg)
  {
    forall i | 0 <= i < |t'.rows| ensures t'.rows[i].id < t'.nextId && StagedRowOk(t'.rows[i], cfg) {
      if i < |t.rows| {
        assert t'.rows[i] == t.rows[i];
      }
    }
  }

  /** insert_news_basic keeps the staging invariant. */
  lemma InsertBasicKeepsOk(t: StagingTable, data: Validator.Record, now: nat, cfg: Validator.Config)
    requires StagingOk(t, cfg)
    ensures StagingOk(InsertBasic(t, data, now, cfg).1, cfg)
  {
    var r := InsertBasic(t, data, now, cfg);
    if r.0 {
      AppendStagingKeepsOk(t, r.1, cfg);
    }
  }

  /**
   * A row inserted from a sanitised record carries clean fields: a clean title and link, a
   * source that is one of the allowed ones, and an image that is absent or a non-empty clean
   * string.
   */
  lemma InsertedRowClean(t: StagingTable, raw: Validator.Record, now: nat, cfg: Validator.Config)
    requires InsertBasic(t, Validator.Sanitized(raw), now, cfg).0
    ensures var row := InsertBasic(t, Validator.Sanitized(raw), now, cfg).1.rows[|t.rows|];
      Validator.Clean(row.titulo) && Validator.Clean(row.link) && Validator.Clean(row.fonte)
      && row.fonte in cfg.allowedSources
      && (row.imagem.Some? ==> row.imagem.value != "" && Validator.Clean(row.imagem.value))
  {
    var data := Validator.Sanitized(raw);
    Validator.BasicNewsShape(data, cfg);
    var row := BasicRow(t.nextId, data, now, cfg);
    assert InsertBasic(t, data, now, cfg).1.rows[|t.rows|] == row;
    SanitizedStringClean(raw, Validator.Titulo);
    SanitizedStringClean(raw, Validator.Link);
    SanitizedStringClean(raw, Validator.Fonte);
    if Validator.Imagem in data {
      SanitizedStringClean(raw, Validator.Imagem);
      Validator.SanitizedValueShape(Validator.Imagem, raw[Validator.Imagem]);
    }
    Text.StripTrimmed(row.fonte);
  }

  /** A string field of a sanitised record is clean. */
  lemma SanitizedStringClean(raw: Validator.Record, f: Validator.Field)
    requires f in raw && Validator.IsStringField(f)
    ensures Validator.Sanitized(raw)[f].PyStr? ==> Validator.Clean(Validator.Sanitized(raw)[f].s)
  {
    Validator.SanitizedValueShape(f, raw[f]);
  }

  // ---------------------------------------------------------------------------------------
  // Staging table: the two UPDATE statements

  /** `UPDATE noticias_aux SET resumo = ?, data_processamento = now, status = 'processada' WHERE link = ?`. */
  function SetResumo(rows: seq<StagingRow>, link: string, resumo: string, now: nat): (r: seq<StagingRow>)
    ensures |r| == |rows|
  {
    seq(|rows|, i requires 0 <= i < |rows| =>
      if rows[i].link == link then rows[i].(resumo := Some(resumo), dataProcessamento := Some(now), status := Processada)
      else rows[i])
  }

  /**
   * update_news_with_resumo: a summary failing validate_resumo, or a link matching no row,
   * returns False and changes nothing; otherwise the matching row is updated.
   */
  function UpdateResumo(t: StagingTable, link: string, resumo: string, now: nat, cfg: Validator.Config): (r: (bool, StagingTable))
    ensures r.0 <==> Validator.ValidateResumo(PyStr(resumo), cfg).Accept? && HasStagingLink(t.rows, link)
    ensures !r.0 ==> r.1 == t
    ensures r.0 ==> r.1 == t.(rows := SetResumo(t.rows, link, resumo, now))
  {
    if Validator.ValidateResumo(PyStr(resumo), cfg).Reject? then (false, t)
    else if !HasStagingLink(t.rows, link) then (false, t)
    else (true, t.(rows := SetResumo(t.rows, link, resumo, now)))
  }

  /** Only the row with the given link changes, and it becomes `processada` with the summary. */
  lemma UpdateResumoEffect(t: StagingTable, link: string, resumo: string, now: nat, cfg: Validator.Config, i: nat)
    requires UpdateResumo(t, link, resumo, now, cfg).0 && i < |t.rows|
    ensures var rows := UpdateResumo(t, link, resumo, now, cfg).1.rows;
      |rows| == |t.rows|
      && (t.rows[i].link != link ==> rows[i] == t.rows[i])
      && (t.rows[i].link == link ==>
            rows[i].resumo == Some(resumo) && rows[i].status == Processada
            && rows[i].dataProcessamento == Some(now) && rows[i].cluster == t.rows[i].cluster)
  {
  }

  /**
   * A failure sentinel can never be stored as a summary: the update is refused for any summary
   * whose trimmed text starts with the failure prefix.
   */
  lemma UpdateResumoRefusesSentinel(t: StagingTable, link: string, resumo: string, now: nat, cfg: Validator.Config)
    requires Text.StartsWith(Text.Strip(resumo), Validator.FailurePrefix)
    ensures UpdateResumo(t, link, resumo, now, cfg) == (false, t)
  {
  }

  lemma UpdateResumoKeepsOk(t: StagingTable, link: string, resumo: string, now: nat, cfg: Validator.Config)
    requires StagingOk(t, cfg)
    ensures StagingOk(UpdateResumo(t, link, resumo, now, cfg).1, cfg)
  {
    var r := UpdateResumo(t, link, resumo, now, cfg);
    if r.0 {
      var rows := r.1.rows;
      forall i | 0 <= i < |rows| ensures rows[i].id < t.nextId && StagedRowOk(rows[i], cfg) {
        assert rows[i].id == t.rows[i].id;
      }
      forall i, j | 0 <= i < j < |rows| ensures rows[i].link != rows[j].link {
        assert rows[i].link == t.rows[i].link && rows[j].link == t.rows[j].link;
      }
    }
  }

  /** `UPDATE noticias_aux SET cluster = ?, status = 'clusterizada' WHERE link = ?`. */
  function SetCluster(rows: seq<StagingRow>, link: string, cluster: int): (r: seq<StagingRow>)
    ensures |r| == |rows|
  {
    seq(|rows|, i requires 0 <= i < |rows| =>
      if rows[i].link == link then rows[i].(cluster := Some(cluster), status := Clusterizada) else rows[i])
  }

  /**
   * update_news_with_cluster: returns False and changes nothing when no row has the link;
   * the cluster is not validated and the row's stage is not checked.
   */
  function UpdateCluster(t: StagingTable, link: string, cluster: int): (r: (bool, StagingTable))
    ensures r.0 <==> HasStagingLink(t.rows, link)
    ensures !r.0 ==> r.1 == t
    ensures r.0 ==> r.1 == t.(rows := SetCluster(t.rows, link, cluster))
  {
    if !HasStagingLink(t.rows, link) then (false, t) else (true, t.(rows := SetCluster(t.rows, link, cluster)))
  }

  /** Only the row with the given link changes; it becomes `clusterizada` and keeps its summary. */
  lemma UpdateClusterEffect(t: StagingTable, link: string, cluster: int, i: nat)
    requires UpdateCluster(t, link, cluster).0 && i < |t.rows|
    ensures var rows := UpdateCluster(t, link, cluster).1.rows;
      |rows| == |t.rows|
      && (t.rows[i].link != link ==> rows[i] == t.rows[i])
      && (t.rows[i].link == link ==>
            rows[i].cluster == Some(cluster) && rows[i].status == Clusterizada
            && rows[i].resumo == t.rows[i].resumo)
  {
  }

  lemma UpdateClusterKeepsOk(t: StagingTable, link: string, cluster: int, cfg: Validator.Config)
    requires StagingOk(t, cfg)
    ensures StagingOk(UpdateCluster(t, link, cluster).1, cfg)
  {
    var r := UpdateCluster(t, link, cluster);
    if r.0 {
      var rows := r.1.rows;
      forall i | 0 <= i < |rows| ensures rows[i].id < t.nextId && StagedRowOk(rows[i], cfg) {
        assert rows[i].id == t.rows[i].id;
      }
      forall i, j | 0 <= i < j < |rows| ensures rows[i].link != rows[j].link {
        assert rows[i].link == t.rows[i].link && rows[j].link == t.rows[j].link;
      }
    }
  }

  /**
   * Because update_news_with_cluster does not look at the stage, a row that was never
   * summarised can reach `clusterizada`: a clustered row need not have a summary.
   */
  lemma ClusterWithoutSummary(cfg: Validator.Config)
    ensures var t := StagingTable([StagingRow(0, "t", "l", None, "Exame", None, None, 0, None, Coletada)], 1);
      StagingOk(t, cfg) && UpdateCluster(t, "l", 3).0
      && UpdateCluster(t, "l", 3).1.rows[0].status == Clusterizada
      && UpdateCluster(t, "l", 3).1.rows[0].resumo.None?
  {
    var t := StagingTable([StagingRow(0, "t", "l", None, "Exame", None, None, 0, None, Coletada)], 1);
    assert t.rows[0].link == "l";
  }

  // ---------------------------------------------------------------------------------------
  // Staging table: the three stage queries

  function CollectedKey(r: StagingRow): int { r.dataColeta }

  /** `ORDER BY data_processamento`: a NULL sorts before every timestamp. */
  function ProcessedKey(r: StagingRow): int { if r.dataProcessamento.Some? then r.dataProcessamento.value else -1 }

  /** Rows with equal sort keys come out in rowid order. */
  function RowId(r: StagingRow): int { r.id }

  predicate AwaitsSummary(r: StagingRow) { r.resumo.None? && r.status == Coletada }

  predicate AwaitsClustering(r: StagingRow) { r.resumo.Some? && r.cluster.None? && r.status == Processada }

  predicate ReadyForSelection(r: StagingRow) { r.resumo.Some? && r.cluster.Some? && r.status == Clusterizada }

  /** get_news_for_summarization: the rows still to summarise, oldest collection first. */
  function ForSummarization(rows: seq<StagingRow>): (r: seq<StagingRow>)
    ensures multiset(r) == multiset(Seqs.Filter(rows, AwaitsSummary))
    ensures forall x :: x in r <==> x in rows && AwaitsSummary(x)
    ensures Ordering.Sorted(CollectedKey, RowId, false, r)
  {
    var matching := Seqs.Filter(rows, AwaitsSummary);
    Ordering.SortBySorted(CollectedKey, RowId, false, matching);
    Seqs.MultisetMembers(Ordering.SortBy(CollectedKey, RowId, false, matching), matching);
    Ordering.SortBy(CollectedKey, RowId, false, matching)
  }

  /** get_news_for_clustering: summarised rows without a cluster, oldest processing first. */
  function ForClustering(rows: seq<StagingRow>): (r: seq<StagingRow>)
    ensures multiset(r) == multiset(Seqs.Filter(rows, AwaitsClustering))
    ensures forall x :: x in r <==> x in rows && AwaitsClustering(x)
    ensures Ordering.Sorted(ProcessedKey, RowId, false, r)
  {
    var matching := Seqs.Filter(rows, AwaitsClustering);
    Ordering.SortBySorted(ProcessedKey, RowId, false, matching);
    Seqs.MultisetMembers(Ordering.SortBy(ProcessedKey, RowId, false, matching), matching);
    Ordering.SortBy(ProcessedKey, RowId, false, matching)
  }

  /** get_news_for_selection: summarised and clustered rows, newest processing first. */
  function ForSelection(rows: seq<StagingRow>): (r: seq<StagingRow>)
    ensures multiset(r) == multiset(Seqs.Filter(rows, ReadyForSelection))
    ensures forall x :: x in r <==> x in rows && ReadyForSelection(x)
    ensures Ordering.Sorted(ProcessedKey, RowId, true, r)
  {
    var matching := Seqs.Filter(rows, ReadyForSelection);
    Ordering.SortBySorted(ProcessedKey, RowId, true, matching);
    Seqs.MultisetMembers(Ordering.SortBy(ProcessedKey, RowId, true, matching), matching);
    Ordering.SortBy(ProcessedKey, RowId, true, matching)
  }

  /**
   * Every row offered for selection carries a summary that passed validate_resumo, so none is
   * a summarisation-failure message.
   */
  lemma SelectionHasNoSentinel(t: StagingTable, cfg: Validator.Config)
    requires StagingOk(t, cfg)
    ensures forall x :: x in ForSelection(t.rows) ==>
      x.resumo.Some? && !Text.StartsWith(Text.Strip(x.resumo.value), Validator.FailurePrefix)
  {
    forall x | x in ForSelection(t.rows)
      ensures x.resumo.Some? && !Text.StartsWith(Text.Strip(x.resumo.value), Validator.FailurePrefix)
    {
      var i :| 0 <= i < |t.rows| && t.rows[i] == x;
      assert StagedRowOk(t.rows[i], cfg);
    }
  }

  /** The three stage queries never return the same row twice over (each row is in at most one). */
  lemma StageQueriesDisjoint(rows: seq<StagingRow>, x: StagingRow)
    ensures !(x in ForSummarization(rows) && x in ForClustering(rows))
    ensures !(x in ForSummarization(rows) && x in ForSelection(rows))
    ensures !(x in ForClustering(rows) && x in ForSelection(rows))
  {
  }

  // ---------------------------------------------------------------------------------------
  // Archive table: insert_selected_news and update_selection_timestamp_and_status

  /** The record insert_selected_news builds. */
  function CompleteRecord(titulo: string, link: string, imagem: Option<string>, resumo: string, cluster: int,
                          fonte: string, score: Option<real>, status: Option<string>): Validator.Record {
    map[Validator.Titulo := PyStr(titulo), Validator.Link := PyStr(link), Validator.Imagem := OptStr(imagem),
        Validator.Resumo := PyStr(resumo), Validator.Cluster := PyInt(cluster), Validator.Fonte := PyStr(fonte),
        Validator.Score := if score.Some? then PyFloat(score.value) else PyNone,
        Validator.Status := OptStr(status)]
  }

  predicate CompleteValid(data: Validator.Record, cfg: Validator.Config) {
    Validator.Errors(data, Validator.CompleteRequired, Validator.CompleteChecked, cfg) == []
  }

  /** The archive row written for a valid sanitised record, selected at `now`. */
  function ArchiveRowOf(id: nat, data: Validator.Record, now: nat, cfg: Validator.Config): ArchiveRow
    requires CompleteValid(data, cfg)
  {
    Validator.CompleteNewsShape(data, cfg);
    ArchiveRow(id, data[Validator.Titulo].s, data[Validator.Link].s,
      if Validator.Imagem in data then StrOrNone(data[Validator.Imagem]) else None,
      data[Validator.Resumo].s, AsInt(data[Validator.Cluster]), data[Validator.Fonte].s,
      if Validator.Score in data && IsNumber(data[Validator.Score]) then Some(AsReal(data[Validator.Score])) else None,
      if Validator.Status in data then StrOrNone(data[Validator.Status]) else None,
      now)
  }

  /**
   * insert_selected_news: rejected when the sanitised record fails validate_complete_news or
   * its (sanitised) link is already archived; otherwise exactly one row is appended.
   */
  function InsertSelected(t: ArchiveTable, data: Validator.Record, now: nat, cfg: Validator.Config): (r: (bool, ArchiveTable))
    ensures !r.0 ==> r.1 == t
    ensures r.0 <==> CompleteValid(data, cfg) && !HasArchiveLink(t.rows, LinkOf(data))
    ensures r.0 ==> |r.1.rows| == |t.rows| + 1 && r.1.rows[..|t.rows|] == t.rows && r.1.nextId == t.nextId + 1
                    && r.1.rows[|t.rows|].link == LinkOf(data) && r.1.rows[|t.rows|].id == t.nextId
                    && r.1.rows[|t.rows|].dataSelecao == now
  {
    if !CompleteValid(data, cfg) then (false, t)
    else
      Validator.CompleteNewsShape(data, cfg);
      if HasArchiveLink(t.rows, LinkOf(data)) then (false, t)
      else
        var row := ArchiveRowOf(t.nextId, data, now, cfg);
        assert (t.rows + [row])[..|t.rows|] == t.rows;
        (true, ArchiveTable(t.rows + [row], t.nextId + 1))
  }

  lemma InsertSelectedKeepsOk(t: ArchiveTable, data: Validator.Record, now: nat, cfg: Validator.Config)
    requires ArchiveOk(t)
    ensures ArchiveOk(InsertSelected(t, data, now, cfg).1)
  {
    var r := InsertSelected(t, data, now, cfg);
    if r.0 {
      assert forall i :: 0 <= i < |t.rows| ==> r.1.rows[i] == t.rows[i];
    }
  }

  /** `UPDATE noticias SET data_selecao = now, status = 'postada' WHERE link = ?`. */
  function Restamp(rows: seq<ArchiveRow>, link: string, now: nat): (r: seq<ArchiveRow>)
    ensures |r| == |rows|
  {
    seq(|rows|, i requires 0 <= i < |rows| =>
      if rows[i].link == link then rows[i].(dataSelecao := now, status := Some(Postada)) else rows[i])
  }

  /** update_selection_timestamp_and_status: False, and no change, when no row has the link. */
  function UpdateSelection(t: ArchiveTable, link: string, now: nat): (r: (bool, ArchiveTable))
    ensures r.0 <==> HasArchiveLink(t.rows, link)
    ensures !r.0 ==> r.1 == t
    ensures r.0 ==> r.1 == t.(rows := Restamp(t.rows, link, now))
  {
    if HasArchiveLink(t.rows, link) then (true, t.(rows := Restamp(t.rows, link, now))) else (false, t)
  }

  /**
   * Re-selecting an archived link touches only that row, which becomes posted at `now`;
   * no row is added.
   */
  lemma UpdateSelectionEffect(t: ArchiveTable, link: string, now: nat, i: nat)
    requires HasArchiveLink(t.rows, link) && i < |t.rows|
    ensures var rows := UpdateSelection(t, link, now).1.rows;
      |rows| == |t.rows|
      && (t.rows[i].link != link ==> rows[i] == t.rows[i])
      && (t.rows[i].link == link ==> rows[i] == t.rows[i].(dataSelecao := now, status := Some(Postada)))
  {
  }

  lemma UpdateSelectionKeepsOk(t: ArchiveTable, link: string, now: nat)
    requires ArchiveOk(t)
    ensures ArchiveOk(UpdateSelection(t, link, now).1)
  {
    var rows := UpdateSelection(t, link, now).1.rows;
    forall i, j | 0 <= i < j < |rows| ensures rows[i].link != rows[j].link {
      assert rows[i].link == t.rows[i].link && rows[j].link == t.rows[j].link;
    }
    forall i | 0 <= i < |rows| ensures rows[i].id < t.nextId {
      assert rows[i].id == t.rows[i].id;
    }
  }

  // ---------------------------------------------------------------------------------------
  // Archive table: transfer_selected_news

  /** One item of the selection handed to transfer_selected_news. */
  datatype SelectedNews = SelectedNews(
    titulo: string, link: string, imagem: Option<string>, resumo: string, cluster: int, fonte: string, score: Option<real>)

  datatype TransferStats = TransferStats(novas: nat, atualizadas: nat, falhas: nat)

  /** The record insert_selected_news builds for a new item, always with status `postada`. */
  function PostedRecord(n: SelectedNews): Validator.Record {
    Validator.Sanitized(CompleteRecord(n.titulo, n.link, n.imagem, n.resumo, n.cluster, n.fonte, n.score, Some(Postada)))
  }

  /**
   * One iteration of transfer_selected_news: a link already archived (compared as given) is
   * re-stamped and posted; any other item is inserted with status `postada`.
   */
  function TransferOne(st: TransferStats, t: ArchiveTable, n: SelectedNews, now: nat, cfg: Validator.Config): (TransferStats, ArchiveTable)
  {
    if HasArchiveLink(t.rows, n.link) then
      (st.(atualizadas := st.atualizadas + 1), UpdateSelection(t, n.link, now).1)
    else
      var (ok, t') := InsertSelected(t, PostedRecord(n), now, cfg);
      if ok then (st.(novas := st.novas + 1), t') else (st.(falhas := st.falhas + 1), t')
  }

  /** transfer_selected_news over the first items of the selection, in order. */
  function Transfer(t: ArchiveTable, sel: seq<SelectedNews>, now: nat, cfg: Validator.Config): (TransferStats, ArchiveTable)
  {
    if sel == [] then (TransferStats(0, 0, 0), t)
    else
      var (st, t') := Transfer(t, sel[..|sel| - 1], now, cfg);
      TransferOne(st, t', sel[|sel| - 1], now, cfg)
  }

  /**
   * Every item is counted exactly once, and the archive grows by exactly the number of new
   * items: re-selected links never get a second row.
   */
  lemma {:induction false} TransferCounts(t: ArchiveTable, sel: seq<SelectedNews>, now: nat, cfg: Validator.Config)
    ensures var (st, t') := Transfer(t, sel, now, cfg);
      st.novas + st.atualizadas + st.falhas == |sel| && |t'.rows| == |t.rows| + st.novas
    decreases |sel|
  {
    if sel != [] {
      TransferCounts(t, sel[..|sel| - 1], now, cfg);
    }
  }

  /** Transferring keeps links unique in the archive. */
  lemma {:induction false} TransferKeepsOk(t: ArchiveTable, sel: seq<SelectedNews>, now: nat, cfg: Validator.Config)
    requires ArchiveOk(t)
    ensures ArchiveOk(Transfer(t, sel, now, cfg).1)
    decreases |sel|
  {
    if sel != [] {
      TransferKeepsOk(t, sel[..|sel| - 1], now, cfg);
      var (st, t') := Transfer(t, sel[..|sel| - 1], now, cfg);
      var n := sel[|sel| - 1];
      if HasArchiveLink(t'.rows, n.link) {
        UpdateSelectionKeepsOk(t', n.link, now);
      } else {
        InsertSelectedKeepsOk(t', PostedRecord(n), now, cfg);
      }
    }
  }

  /**
   * An item whose link is not archived is counted under `falhas` exactly when its record fails
   * validate_complete_news or its sanitised link is already archived (the UNIQUE violation);
   * the archive and the other counters are then unchanged.
   */
  lemma TransferOneFails(st: TransferStats, t: ArchiveTable, n: SelectedNews, now: nat, cfg: Validator.Config)
    requires !HasArchiveLink(t.rows, n.link)
    ensures var (st', t') := TransferOne(st, t, n, now, cfg);
      (st'.falhas == st.falhas + 1 <==>
        !CompleteValid(PostedRecord(n), cfg) || HasArchiveLink(t.rows, LinkOf(PostedRecord(n))))
      && (st'.falhas == st.falhas + 1 ==> t' == t && st'.novas == st.novas && st'.atualizadas == st.atualizadas)
      && (st'.falhas == st.falhas ==> st'.novas == st.novas + 1)
  {
  }

  /** An item whose link is archived is counted as updated and its row is posted at `now`. */
  lemma TransferOneRestamps(st: TransferStats, t: ArchiveTable, n: SelectedNews, now: nat, cfg: Validator.Config, i: nat)
    requires ArchiveOk(t) && i < |t.rows| && t.rows[i].link == n.link
    ensures var (st', t') := TransferOne(st, t, n, now, cfg);
      st' == st.(atualizadas := st.atualizadas + 1) && |t'.rows| == |t.rows|
      && t'.rows[i] == t.rows[i].(dataSelecao := now, status := Some(Postada))
      && forall j :: 0 <= j < |t.rows| && j != i ==> t'.rows[j] == t.rows[j]
  {
    assert HasArchiveLink(t.rows, n.link);
  }

  /** "postada" is left alone by sanitize_data. */
  lemma PostadaClean()
    ensures Validator.SanitizeText(Postada) == Postada
  {
    assert Text.Trimmed(Postada);
    assert Text.SingleSpaced(Postada) by {
      assert forall k :: 0 <= k < |Postada| ==> !Text.IsSpace(Postada[k]);
    }
    Validator.SanitizeTextFixed(Postada);
  }

  /** An item inserted as new is stored with status `postada` at `now`. */
  lemma TransferOneInsertsPosted(st: TransferStats, t: ArchiveTable, n: SelectedNews, now: nat, cfg: Validator.Config)
    requires !HasArchiveLink(t.rows, n.link)
    requires TransferOne(st, t, n, now, cfg).0.novas == st.novas + 1
    ensures var t' := TransferOne(st, t, n, now, cfg).1;
      |t'.rows| == |t.rows| + 1 && t'.rows[..|t.rows|] == t.rows
      && t'.rows[|t.rows|].status == Some(Postada) && t'.rows[|t.rows|].dataSelecao == now
  {
    var data := PostedRecord(n);
    PostedRecordStatus(n);
    var r := InsertSelected(t, data, now, cfg);
    assert r.0;
    assert r.1 == ArchiveTable(t.rows + [ArchiveRowOf(t.nextId, data, now, cfg)], t.nextId + 1);
  }

  /** The record built for a new archive row carries status `postada`. */
  lemma PostedRecordStatus(n: SelectedNews)
    ensures Validator.Status in PostedRecord(n) && PostedRecord(n)[Validator.Status] == PyStr(Postada)
  {
    var raw := CompleteRecord(n.titulo, n.link, n.imagem, n.resumo, n.cluster, n.fonte, n.score, Some(Postada));
    assert Validator.Status in raw && raw[Validator.Status] == PyStr(Postada);
    PostadaSanitized();
    assert PostedRecord(n)[Validator.Status] == Validator.SanitizedValue(Validator.Status, raw[Validator.Status]);
  }

  lemma PostadaSanitized()
    ensures Validator.SanitizedValue(Validator.Status, PyStr(Postada)) == PyStr(Postada)
  {
    PostadaClean();
  }

  // ---------------------------------------------------------------------------------------
  // Archive table: get_latest_news and archive_posted_news

  function SelectedKey(r: ArchiveRow): int { r.dataSelecao }

  function ArchiveId(r: ArchiveRow): int { r.id }

  /**
   * get_latest_news: `ORDER BY data_selecao DESC LIMIT limit`. The newest `limit` rows (all of
   * them for a negative limit), none repeated, newest first (ties by id), and no row left out is
   * newer than a returned one.
   */
  function LatestNews(rows: seq<ArchiveRow>, limit: int): (r: seq<ArchiveRow>)
    ensures limit >= 0 ==> |r| == Seqs.Min(limit, |rows|)
    ensures limit < 0 ==> multiset(r) == multiset(rows)
    ensures multiset(r) <= multiset(rows)
    ensures forall x :: x in r ==> x in rows
    ensures Ordering.Sorted(SelectedKey, ArchiveId, true, r)
    ensures forall x, k :: x in multiset(rows) - multiset(r) && 0 <= k < |r| ==>
      !Ordering.Precedes(SelectedKey, ArchiveId, true, x, r[k])
  {
    var r := Ordering.Top(SelectedKey, ArchiveId, true, rows, limit);
    Seqs.SubMultisetMembers(r, rows);
    r
  }

  /** One row of get_api_data: the dict handed to the API (`score` and `status` may be None). */
  function ApiRow(r: ArchiveRow): ApiModels.RawNews {
    ApiModels.RawNews(r.id, r.titulo, r.link, r.imagem, r.resumo, r.fonte, r.score, r.cluster, r.dataSelecao, r.status)
  }

  /** get_api_data: the latest rows, one dict each, in the same order. */
  function ApiData(rows: seq<ArchiveRow>, limit: int): (r: seq<ApiModels.RawNews>)
    ensures |r| == |LatestNews(rows, limit)|
    ensures forall i :: 0 <= i < |r| ==> r[i] == ApiRow(LatestNews(rows, limit)[i])
  {
    var latest := LatestNews(rows, limit);
    seq(|latest|, i requires 0 <= i < |latest| => ApiRow(latest[i]))
  }

  /** The links kept posted: only a non-empty list counts (`if keep_selected_links:`). */
  predicate Spared(keep: Option<seq<string>>, link: string) {
    keep.Some? && keep.value != [] && link in keep.value
  }

  predicate Demoted(r: ArchiveRow, keep: Option<seq<string>>) {
    r.status == Some(Postada) && !Spared(keep, r.link)
  }

  /** The UPDATE of archive_posted_news. */
  function Demote(rows: seq<ArchiveRow>, keep: Option<seq<string>>): (r: seq<ArchiveRow>)
    ensures |r| == |rows|
  {
    seq(|rows|, i requires 0 <= i < |rows| =>
      if Demoted(rows[i], keep) then rows[i].(status := Some(Arquivada)) else rows[i])
  }

  /** The rowcount archive_posted_news returns. */
  function DemotedCount(rows: seq<ArchiveRow>, keep: Option<seq<string>>): nat {
    |Seqs.Filter(rows, r => Demoted(r, keep))|
  }

  /** The number of positions where two tables of the same size differ. */
  function Changed(a: seq<ArchiveRow>, b: seq<ArchiveRow>): nat
    requires |a| == |b|
  {
    if a == [] then 0 else (if a[0] != b[0] then 1 else 0) + Changed(a[1..], b[1..])
  }

  /**
   * archive_posted_news changes exactly the posted rows whose link is not spared, and the
   * count it returns is the number of rows it changed.
   */
  lemma {:induction false} DemoteCountsChanges(rows: seq<ArchiveRow>, keep: Option<seq<string>>)
    ensures DemotedCount(rows, keep) == Changed(rows, Demote(rows, keep))
    decreases |rows|
  {
    if rows != [] {
      DemoteCountsChanges(rows[1..], keep);
      assert Demote(rows, keep)[1..] == Demote(rows[1..], keep);
    }
  }

  /**
   * After archive_posted_news, a row is posted only if its link is spared; every other field,
   * and every row that was not posted, is unchanged.
   */
  lemma DemoteEffect(rows: seq<ArchiveRow>, keep: Option<seq<string>>, i: nat)
    requires i < |rows|
    ensures var r := Demote(rows, keep);
      (r[i].status == Some(Postada) ==> Spared(keep, r[i].link))
      && (Demoted(rows[i], keep) ==> r[i] == rows[i].(status := Some(Arquivada)))
      && (!Demoted(rows[i], keep) ==> r[i] == rows[i])
      && (rows[i].status == Some(Postada) && Spared(keep, rows[i].link) ==> r[i].status == Some(Postada))
  {
  }

  /** With no list (or an empty one) every posted row is archived, and no other row changes. */
  lemma DemoteAll(rows: seq<ArchiveRow>, keep: Option<seq<string>>)
    requires keep.None? || keep.value == []
    ensures forall i :: 0 <= i < |rows| ==>
      Demote(rows, keep)[i] == (if rows[i].status == Some(Postada) then rows[i].(status := Some(Arquivada)) else rows[i])
  {
  }

  /** Demoting a second time changes nothing. */
  lemma DemoteIdempotent(rows: seq<ArchiveRow>, keep: Option<seq<string>>)
    ensures Demote(Demote(rows, keep), keep) == Demote(rows, keep)
    ensures DemotedCount(Demote(rows, keep), keep) == 0
  {
    var once := Demote(rows, keep);
    DemoteCountsChanges(once, keep);
    NoChangeNoCount(once, Demote(once, keep));
  }

  lemma {:induction false} NoChangeNoCount(a: seq<ArchiveRow>, b: seq<ArchiveRow>)
    requires |a| == |b| && a == b
    ensures Changed(a, b) == 0
    decreases |a|
  {
    if a != [] {
      NoChangeNoCount(a[1..], b[1..]);
    }
  }

  // ---------------------------------------------------------------------------------------
  // The manager object

  class DatabaseManager {
    var staging: StagingTable
    var archive: ArchiveTable
    const cfg: Validator.Config

    predicate Valid()
      reads this
    {
      StagingOk(staging, cfg) && ArchiveOk(archive)
    }

    constructor (cfg: Validator.Config)
      ensures Valid() && this.cfg == cfg
      ensures staging == StagingTable([], 0) && archive == ArchiveTable([], 0)
    {
      this.cfg := cfg;
      staging := StagingTable([], 0);
      archive := ArchiveTable([], 0);
    }

    /** insert_news_basic: choose the source, sanitise, then validate and insert. */
    method InsertNewsBasic(titulo: string, link: string, imagem: Option<string>, fonte: Option<string>, now: nat)
      returns (ok: bool)
      requires Valid()
      modifies this
      ensures Valid()
      ensures (ok, staging) == InsertBasic(old(staging), BasicData(titulo, link, imagem, fonte), now, cfg)
      ensures archive == old(archive)
    {
      var source := if fonte.Some? then fonte.value else ScraperUtils.DetectSourceFromUrl(link);
      var data := Validator.SanitizeData(BasicRecord(titulo, link, imagem, source));
      ok := StoreBasic(data, now);
    }

    /** The validate-and-insert half of insert_news_basic, on the sanitised record. */
    method StoreBasic(data: Validator.Record, now: nat) returns (ok: bool)
      requires Valid()
      modifies this
      ensures Valid()
      ensures (ok, staging) == InsertBasic(old(staging), data, now, cfg)
      ensures archive == old(archive)
    {
      InsertBasicKeepsOk(staging, data, now, cfg);
      var valid, errors := Validator.ValidateBasicNews(data, cfg);
      if !valid {
        return false;
      }
      if HasStagingLink(staging.rows, LinkOf(data)) {
        return false;
      }
      staging := StagingTable(staging.rows + [BasicRow(staging.nextId, data, now, cfg)], staging.nextId + 1);
      ok := true;
    }

    /** update_news_with_resumo. */
    method UpdateNewsWithResumo(link: string, resumo: string, now: nat) returns (ok: bool)
      requires Valid()
      modifies this
      ensures Valid()
      ensures (ok, staging) == UpdateResumo(old(staging), link, resumo, now, cfg)
      ensures archive == old(archive)
    {
      UpdateResumoKeepsOk(staging, link, resumo, now, cfg);
      if Validator.ValidateResumo(PyStr(resumo), cfg).Reject? {
        return false;
      }
      if !HasStagingLink(staging.rows, link) {
        return false;
      }
      staging := staging.(rows := SetResumo(staging.rows, link, resumo, now));
      ok := true;
    }

    /** update_news_with_cluster. */
    method UpdateNewsWithCluster(link: string, cluster: int) returns (ok: bool)
      requires Valid()
      modifies this
      ensures Valid()
      ensures (ok, staging) == UpdateCluster(old(staging), link, cluster)
      ensures archive == old(archive)
    {
      UpdateClusterKeepsOk(staging, link, cluster, cfg);
      if !HasStagingLink(staging.rows, link) {
        return false;
      }
      staging := staging.(rows := SetCluster(staging.rows, link, cluster));
      ok := true;
    }

    method GetNewsForSummarization() returns (r: seq<StagingRow>)
      ensures r == ForSummarization(staging.rows)
    {
      r := ForSummarization(staging.rows);
    }

    method GetNewsForClustering() returns (r: seq<StagingRow>)
      ensures r == ForClustering(staging.rows)
    {
      r := ForClustering(staging.rows);
    }

    method GetNewsForSelection() returns (r: seq<StagingRow>)
      ensures r == ForSelection(staging.rows)
    {
      r := ForSelection(staging.rows);
    }

    /**
     * clear_auxiliary_database: empties the staging table; when the database file does not
     * exist there is nothing to clear and the call still succeeds.
     */
    method ClearAuxiliaryDatabase(fileExists: bool) returns (ok: bool)
      requires Valid()
      requires !fileExists ==> staging.rows == []
      modifies this
      ensures Valid() && ok
      ensures staging.rows == []
      ensures fileExists ==> staging.nextId == old(staging.nextId)
      ensures !fileExists ==> staging == old(staging)
      ensures archive == old(archive)
    {
      if fileExists {
        staging := staging.(rows := []);
      }
      ok := true;
    }

    /** check_link_exists_main. */
    method CheckLinkExistsMain(link: string) returns (b: bool)
      ensures b <==> HasArchiveLink(archive.rows, link)
    {
      b := HasArchiveLink(archive.rows, link);
    }

    /** insert_selected_news: sanitise, then validate and insert. */
    method InsertSelectedNews(titulo: string, link: string, imagem: Option<string>, resumo: string, cluster: int,
                              fonte: string, score: Option<real>, status: Option<string>, now: nat)
      returns (ok: bool)
      requires Valid()
      modifies this
      ensures Valid()
      ensures (ok, archive) == InsertSelected(old(archive),
        Validator.Sanitized(CompleteRecord(titulo, link, imagem, resumo, cluster, fonte, score, status)), now, cfg)
      ensures staging == old(staging)
    {
      var data := Validator.SanitizeData(CompleteRecord(titulo, link, imagem, resumo, cluster, fonte, score, status));
      ok := StoreSelected(data, now);
    }

    /** The validate-and-insert half of insert_selected_news, on the sanitised record. */
    method StoreSelected(data: Validator.Record, now: nat) returns (ok: bool)
      requires Valid()
      modifies this
      ensures Valid()
      ensures (ok, archive) == InsertSelected(old(archive), data, now, cfg)
      ensures staging == old(staging)
    {
      InsertSelectedKeepsOk(archive, data, now, cfg);
      var valid, errors := Validator.ValidateCompleteNews(data, cfg);
      if !valid {
        return false;
      }
      if HasArchiveLink(archive.rows, LinkOf(data)) {
        return false;
      }
      archive := ArchiveTable(archive.rows + [ArchiveRowOf(archive.nextId, data, now, cfg)], archive.nextId + 1);
      ok := true;
    }

    /** update_selection_timestamp_and_status. */
    method UpdateSelectionTimestampAndStatus(link: string, now: nat) returns (ok: bool)
      requires Valid()
      modifies this
      ensures Valid()
      ensures (ok, archive) == UpdateSelection(old(archive), link, now)
      ensures staging == old(staging)
    {
      UpdateSelectionKeepsOk(archive, link, now);
      ok := HasArchiveLink(archive.rows, link);
      if ok {
        archive := archive.(rows := Restamp(archive.rows, link, now));
      }
    }

    /** transfer_selected_news. */
    method TransferSelectedNews(selected: seq<SelectedNews>, now: nat) returns (stats: TransferStats)
      requires Valid()
      modifies this
      ensures Valid()
      ensures (stats, archive) == Transfer(old(archive), selected, now, cfg)
      ensures staging == old(staging)
    {
      stats := TransferStats(0, 0, 0);
      for i := 0 to |selected|
        invariant Valid() && staging == old(staging)
        invariant (stats, archive) == Transfer(old(archive), selected[..i], now, cfg)
      {
        assert selected[..i + 1][..i] == selected[..i];
        var news := selected[i];
        var exists_ := CheckLinkExistsMain(news.link);
        if exists_ {
          var ok := UpdateSelectionTimestampAndStatus(news.link, now);
          stats := stats.(atualizadas := stats.atualizadas + 1);
        } else {
          var ok := InsertSelectedNews(news.titulo, news.link, news.imagem, news.resumo, news.cluster,
                                       news.fonte, news.score, Some(Postada), now);
          if ok {
            stats := stats.(novas := stats.novas + 1);
          } else {
            stats := stats.(falhas := stats.falhas + 1);
          }
        }
      }
      assert selected[..|selected|] == selected;
    }

    /** get_latest_news. */
    method GetLatestNews(limit: int) returns (r: seq<ArchiveRow>)
      ensures r == LatestNews(archive.rows, limit)
    {
      r := LatestNews(archive.rows, limit);
    }

    /** get_api_data. */
    method GetApiData(limit: int) returns (r: seq<ApiModels.RawNews>)
      ensures r == ApiData(archive.rows, limit)
    {
      var news := GetLatestNews(limit);
      r := [];
      for i := 0 to |news|
        invariant |r| == i
        invariant forall k :: 0 <= k < i ==> r[k] == ApiRow(news[k])
      {
        r := r + [ApiRow(news[i])];
      }
    }

    /** archive_posted_news: returns how many posted rows it archived. */
    method ArchivePostedNews(keep: Option<seq<string>>) returns (count: nat)
      requires Valid()
      modifies this
      ensures Valid()
      ensures archive.rows == Demote(old(archive.rows), keep) && archive.nextId == old(archive.nextId)
      ensures count == DemotedCount(old(archive.rows), keep)
      ensures staging == old(staging)
    {
      count := DemotedCount(archive.rows, keep);
      var rows := Demote(archive.rows, keep);
      forall i, j | 0 <= i < j < |rows| ensures rows[i].link != rows[j].link {
        assert rows[i].link == archive.rows[i].link && rows[j].link == archive.rows[j].link;
      }
      archive := archive.(rows := rows);
    }
  }
}
