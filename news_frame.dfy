/**
 * The pipeline's `df_noticias`: one row per collected item, with the columns the later stages
 * add. Rows are addressed by position, which is their label under pandas' default index.
 */
module NewsFrame {
  import opened Wrappers

  /**
   * The collected columns (`fonte`, `categoria`, `titulo`, `descricao`, `link`), then `resumo`
   * and `cluster`, which are NaN until a stage writes them.
   */
  datatype NewsRow = NewsRow(fonte: string, categoria: string, titulo: string, descricao: string, link: string,
                             resumo: Option<string>, cluster: Option<int>)

  /** The rows, and whether the `resumo` column exists yet. */
  datatype Frame = Frame(rows: seq<NewsRow>, hasResumo: bool)

  /** One collected item, as the collectors hand it over. */
  datatype Item = Item(fonte: string, categoria: string, titulo: string, descricao: string, link: string)

  /** `pd.DataFrame(noticias_coletadas, columns=[...])`: one row per item, no summary, no cluster. */
  function FromItems(items: seq<Item>): (f: Frame)
    ensures |f.rows| == |items| && !f.hasResumo
    ensures forall i :: 0 <= i < |items| ==>
      var r := f.rows[i];
      r.fonte == items[i].fonte && r.categoria == items[i].categoria && r.titulo == items[i].titulo
      && r.descricao == items[i].descricao && r.link == items[i].link && r.resumo.None? && r.cluster.None?
  {
    Frame(seq(|items|, i requires 0 <= i < |items| =>
      NewsRow(items[i].fonte, items[i].categoria, items[i].titulo, items[i].descricao, items[i].link, None, None)),
      false)
  }
}
