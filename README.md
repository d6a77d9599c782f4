# VertexNews core, modelled in Dafny

VertexNews is a staged news pipeline for marketing content.

- **Pipeline stages.** Articles are collected from a handful of Brazilian and international marketing sites. Their full text is fetched and summarised by a language model. The summaries are clustered, and the most strategic items are selected by a keyword relevance score.
- **Staging table.** The store keeps the pipeline's working rows in `noticias_aux`. There an article moves from `coletada` (collected) to `processada` (summarised) to `clusterizada` (clustered).
- **Archive table.** Selected items are promoted into `noticias`, where a row is `postada` (posted) or `arquivada` (archived).
- **API.** A small API serves the posted items through a bounded, time-limited cache.

This project models the logic that decides what enters and leaves each table, and what the pipeline hands from stage to stage. It proves what that logic promises.

| Dafny module (file) | Models |
|---|---|
| `DbManager` (db_manager.dfy) | `DatabaseManager` in database/db_manager.py. Both tables are sequences of rows in rowid order plus the next AUTOINCREMENT id, and the class's methods update them in place. |
| `Validator` (validator.dfy) | `DataValidator` in database/validator.py: field checks, record validation with the required-fields-first rule, and `sanitize_data`. |
| `ApiModels` (api_models.dfy) | The `NewsItem` field constraints and validators of api/models.py. |
| `Selector` (selector.dfy) | `calcular_score` and `selecionar_noticias_estrategicas` of pipeline/selector.py, with the shipped keyword table of pipeline/config.py. |
| `TextCache` (text_cache.dfy) | `NewsTextCache` of database/text_cache.py. |
| `ApiCache` (api_cache.dfy) | `APICache` of api/cache.py. |
| `AuxOperations` (aux_operations.dfy) | The older staging access layer of database/aux_operations.py. |
| `MainOperations` (main_operations.dfy) | The older archive access layer of database/main_operations.py, which only refreshes selection times. |
| `Pipeline` (pipeline.dfy) | `executar_pipeline` of main.py: stage order and early returns. |
| `Summarizer` (summarizer.dfy) | The `sumarizar_textos` loop of pipeline/summarizer.py. |
| `Extractor` (extractor.dfy) | The `extrair_textos_noticias` loop of pipeline/extractor.py. |
| `ErrorHandler` (error_handler.dfy) | `PipelineErrorHandler` of errors/error_handler.py. |
| `ScraperUtils` (scraper_utils.dfy) | The pure helpers of pipeline/scraper_utils.py. |
| `Services` (services.dfy) | `NewsService` of api/services.py. |

Shared modules model the Python and SQLite behaviour the core relies on:

| Module | Models |
|---|---|
| `Text` | `str.strip`, `\s+` collapsing, `str.lower` and `\w` |
| `Url` | the scheme and host of `urlparse` |
| `SqlLike` | SQLite `LIKE` |
| `Ordering` | stable sort by key with ties by position, for `nlargest` and `ORDER BY` |
| `OrderedDict` | a Python dict with insertion order |
| `Seqs` | filters, slices and `LIMIT` |
| `PyValues` | dynamically typed values |
| `NewsFrame` | the pipeline's DataFrame |
| `Wrappers` | `Option` and `Result` |

## Conventions

- Every SQL timestamp and every `time.time()` reading is an integer clock `now`, passed by the caller.
- The collaborators are function-typed parameters that may fail: the article fetch, the summarisation model, the clusterer and the cluster interpreter.
- Methods that change state are proved against the functions that specify them. The properties are proved about those functions.

### Where the code and its description differ

The model follows the code in each case.

- **Relevance score.** The score is presence-based over all three categories. "Google lança nova campanha" scores 5 + 3 + 3 = 11: "lança" and "campanha" are both campaign terms. The description gives 5 + 3 = 8 (`Selector.ExampleScore`).
- **Cluster.** `validate_cluster` accepts 0..10 inclusive (`> 10` is rejected). The description and the error message say "below 10".
- **Image.** A non-empty image that is not an http/https URL is rejected by `validate_image`. The description says it is coerced to absent. Only a blank image becomes None, in `sanitize_data`.
- **Status.** `validate_status` trims and lower-cases before comparing. The API's `NewsItem` compares case-sensitively and without trimming (`ApiModels.StoreStatusLooser`).

## Model

| member | source | states |
|---|---|---|
| DbManager.InsertBasic | database/db_manager.py:152-200 | insert_news_basic on the sanitised record: True exactly when the record passes validate_basic_news and its link is not yet stored. On False the table is unchanged. On True exactly one row is appended, with a fresh id, `coletada`, no summary or cluster, the record's link and collection time `now`. |
| DbManager.InsertBasicKeepsOk | database/db_manager.py:64-77 | Inserting keeps the staging invariant: unique links (the UNIQUE constraint), ids below the next AUTOINCREMENT id, and every row consistent with its stage. |
| DbManager.InsertedRowClean | database/db_manager.py:172-191 | A row written by insert_news_basic has a trimmed, single-spaced title, link and source with no angle brackets. Its source is an allowed one. Its image is absent or a non-empty clean string. |
| DbManager.UpdateResumo | database/db_manager.py:202-237 | update_news_with_resumo returns True exactly when the summary passes validate_resumo and some row has the link. On False nothing changes. On True only the SetResumo update is applied. |
| DbManager.UpdateResumoEffect | database/db_manager.py:221-227 | A successful update changes only the rows with that link. Such a row gets the summary, `processada` and processing time `now`, and keeps its cluster. |
| DbManager.UpdateResumoRefusesSentinel | database/db_manager.py:213-217 | A summary whose trimmed text starts with the summarisation-failure prefix is refused, and the table is left as it was. |
| DbManager.UpdateResumoKeepsOk | database/db_manager.py:202-237 | update_news_with_resumo keeps the staging invariant, including "every stored summary passes validate_resumo". |
| DbManager.UpdateCluster | database/db_manager.py:239-268 | update_news_with_cluster returns True exactly when some row has the link. On False nothing changes. The cluster value and the row's stage are not checked. |
| DbManager.UpdateClusterEffect | database/db_manager.py:252-258 | Only the rows with the link change. Such a row becomes `clusterizada` with the cluster and keeps its summary. |
| DbManager.UpdateClusterKeepsOk | database/db_manager.py:239-268 | update_news_with_cluster keeps the staging invariant. |
| DbManager.ClusterWithoutSummary | database/db_manager.py:252-258 | Because the stage is not checked, a row that was never summarised can become `clusterizada` without a summary. The lemma exhibits such a row. |
| DbManager.ForSummarization | database/db_manager.py:282-287 | get_news_for_summarization returns a permutation of the rows with no summary in `coletada`. It contains exactly those rows, sorted by collection time ascending, with ties in rowid order. |
| DbManager.ForClustering | database/db_manager.py:308-313 | get_news_for_clustering returns a permutation of the summarised, unclustered `processada` rows, sorted by processing time ascending. |
| DbManager.ForSelection | database/db_manager.py:334-339 | get_news_for_selection returns a permutation of the summarised, clustered `clusterizada` rows, sorted by processing time descending. |
| DbManager.SelectionHasNoSentinel | database/db_manager.py:213-217 | In a table kept by the manager, no row offered for selection has a summary whose trimmed text starts with the failure prefix. |
| DbManager.StageQueriesDisjoint | database/db_manager.py:282-339 | No row is returned by two of the three stage queries. |
| DbManager.InsertSelected | database/db_manager.py:405-466 | insert_selected_news on the sanitised record returns True exactly when the record passes validate_complete_news and its link is not archived. On False the table is unchanged. On True one row is appended, with a fresh id and selection time `now`. |
| DbManager.InsertSelectedKeepsOk | database/db_manager.py:103-115 | insert_selected_news keeps the archive's links unique and its ids below the next id. |
| DbManager.UpdateSelection | database/db_manager.py:468-496 | update_selection_timestamp_and_status returns True exactly when the link is archived. On False nothing changes. |
| DbManager.UpdateSelectionEffect | database/db_manager.py:481-486 | Re-stamping touches only the rows with that link. Such a row gets selection time `now` and status `postada`. No row is added. |
| DbManager.UpdateSelectionKeepsOk | database/db_manager.py:468-496 | Re-stamping keeps the archive invariant. |
| DbManager.TransferCounts | database/db_manager.py:531-572 | novas + atualizadas + falhas equals the number of selected items. The archive grows by exactly `novas` rows. |
| DbManager.TransferKeepsOk | database/db_manager.py:541-570 | Transferring a selection keeps archive links unique, so a re-selected link never gets a second row. |
| DbManager.TransferOneRestamps | database/db_manager.py:544-548 | An item whose link is archived is counted under `atualizadas`. Its row is re-stamped and posted. Every other row and the row count stay the same. |
| DbManager.TransferOneInsertsPosted | database/db_manager.py:549-568 | An item counted as new is appended with status `postada` and selection time `now`, after the unchanged existing rows. |
| DbManager.TransferOneFails | database/db_manager.py:549-570 | An item whose link is not archived is counted under `falhas` exactly when its record fails validate_complete_news or its sanitised link is already archived. The archive and the other counters are then unchanged. Otherwise it is counted under `novas`. |
| DbManager.PostedRecordStatus | database/db_manager.py:552-561 | The record built for a new item carries status `postada` after sanitisation. |
| DbManager.LatestNews | database/db_manager.py:574-601 | get_latest_news returns min(limit, rows) archive rows, or a permutation of the whole table for a negative limit (SQLite's `LIMIT -1`). The rows are drawn from the table with no repeats, sorted by selection time descending with ties by id. No row left out is newer than a returned row, or equally new with a smaller id. |
| DbManager.ApiData | database/db_manager.py:603-637 | get_api_data returns one dict per row of get_latest_news, in the same order and with the same count. |
| DbManager.DemoteCountsChanges | database/db_manager.py:689-736 | The count archive_posted_news returns equals the number of rows it changes. |
| DbManager.DemoteEffect | database/db_manager.py:701-718 | A posted row whose link is not in a non-empty keep list becomes that row with status `arquivada`. Every other row is unchanged, so a kept posted row stays posted. After archiving, a row is still posted only if its link is kept. |
| DbManager.DemoteAll | database/db_manager.py:714-720 | With no keep list, or an empty one, every posted row becomes `arquivada` and every other row is unchanged. |
| DbManager.DemoteIdempotent | database/db_manager.py:701-726 | Archiving twice is the same as archiving once, and the second call counts 0. |
| DbManager.DatabaseManager.constructor | database/db_manager.py:18-23 | A new manager starts with both tables empty and satisfying their invariants. |
| DbManager.DatabaseManager.InsertNewsBasic | database/db_manager.py:152-200 | It detects the source when none is given, sanitises, then validates and inserts. The new staging table and the result are InsertBasic's. The archive is untouched and the invariant is kept. |
| DbManager.DatabaseManager.StoreBasic | database/db_manager.py:174-200 | The validate-and-insert half of insert_news_basic, proved equal to InsertBasic. |
| DbManager.DatabaseManager.UpdateNewsWithResumo | database/db_manager.py:202-237 | The state and result are UpdateResumo's. The archive is untouched and the invariant is kept. |
| DbManager.DatabaseManager.UpdateNewsWithCluster | database/db_manager.py:239-268 | The state and result are UpdateCluster's. The archive is untouched and the invariant is kept. |
| DbManager.DatabaseManager.GetNewsForSummarization | database/db_manager.py:270-294 | It returns ForSummarization of the staging table and changes nothing. |
| DbManager.DatabaseManager.GetNewsForClustering | database/db_manager.py:296-320 | It returns ForClustering of the staging table. |
| DbManager.DatabaseManager.GetNewsForSelection | database/db_manager.py:322-346 | It returns ForSelection of the staging table. |
| DbManager.DatabaseManager.ClearAuxiliaryDatabase | database/db_manager.py:348-380 | It always returns True and the staging table is empty afterwards. `fileExists` stands for `os.path.exists(aux_db_path)`. Without a file there are no rows, so the call changes nothing. The archive is untouched. |
| DbManager.DatabaseManager.CheckLinkExistsMain | database/db_manager.py:382-403 | True exactly when some archive row has the link. |
| DbManager.DatabaseManager.InsertSelectedNews | database/db_manager.py:405-466 | It sanitises, then validates and inserts. The state and result are InsertSelected's on the sanitised record. |
| DbManager.DatabaseManager.StoreSelected | database/db_manager.py:435-466 | The validate-and-insert half of insert_selected_news, proved equal to InsertSelected. |
| DbManager.DatabaseManager.UpdateSelectionTimestampAndStatus | database/db_manager.py:468-496 | The state and result are UpdateSelection's. |
| DbManager.DatabaseManager.TransferSelectedNews | database/db_manager.py:531-572 | The loop over the selection yields the counters and archive of Transfer, whose counts and uniqueness are proved above. The staging table is untouched. |
| DbManager.DatabaseManager.GetLatestNews | database/db_manager.py:574-601 | It returns LatestNews of the archive. |
| DbManager.DatabaseManager.GetApiData | database/db_manager.py:603-637 | The append loop returns ApiData of the archive. |
| DbManager.DatabaseManager.ArchivePostedNews | database/db_manager.py:689-736 | The archive becomes Demote of the old one and the count is DemotedCount. The invariant holds and the staging table is untouched. |
| Validator.ValidateTitle | database/validator.py:21-46 | It accepts exactly a string whose trimmed form is non-empty, at most max_title_length long and free of `<`, `>`, `"` and `'`. The "required" rejection happens exactly for a non-string or the empty string. |
| Validator.SafeTitleUntrimmed | database/validator.py:34-44 | Trimming removes only whitespace, so the trimmed title has no unsafe character exactly when the raw string has none. |
| Validator.CheckUrl | database/validator.py:68-78 | The URL rule: accepted exactly when urlparse succeeds with scheme http or https and a non-empty host. |
| Validator.ValidateLink | database/validator.py:48-80 | It accepts exactly a string whose trimmed form is non-empty, at most max_link_length long and an http/https URL with a host. |
| Validator.ValidateImage | database/validator.py:82-117 | It accepts exactly None, a blank string, or a string whose trimmed form is at most max_link_length long and an http/https URL with a host. |
| Validator.ValidateResumo | database/validator.py:119-144 | It accepts exactly a string whose trimmed form is non-empty, at most max_resumo_length long and not starting with "Falha na sumarização". The failure rejection happens exactly for such prefixed summaries within the length limit. |
| Validator.ValidateCluster | database/validator.py:146-168 | It accepts exactly None and the integers 0..10 inclusive. |
| Validator.ValidateFonte | database/validator.py:170-191 | It accepts exactly a string whose trimmed form is non-empty and one of the allowed sources. |
| Validator.ValidateScore | database/validator.py:193-215 | It accepts exactly None and the numbers (int or float) in 0..100 inclusive. |
| Validator.ValidateStatus | database/validator.py:217-235 | It accepts None, the empty string and non-strings. Any other string must trim and lower-case to `postada` or `arquivada`. |
| Validator.ValidateFields | database/validator.py:237-278 | The two loops of the record validators, proved to produce Errors: the required-field errors alone when there are any, otherwise the per-field errors. ok is true exactly when the list is empty. |
| Validator.ValidateBasicNews | database/validator.py:237-278 | validate_basic_news: titulo, link and fonte are required; titulo, link, imagem and fonte are checked. ok holds exactly when there are no errors. |
| Validator.ValidateCompleteNews | database/validator.py:280-325 | validate_complete_news: titulo, link, resumo, cluster and fonte are required; all eight fields are checked. ok holds exactly when there are no errors. |
| Validator.RequiredErrorsEmpty | database/validator.py:251-256 | The first loop reports nothing exactly when every required field is present and not None or blank. |
| Validator.FieldErrorsEmpty | database/validator.py:269-276 | The second loop reports nothing exactly when every checked field that is present passes its validator. |
| Validator.RequiredErrorsKinds | database/validator.py:251-256 | The first loop reports only "missing" and "empty" errors, and only for required fields. |
| Validator.ErrorsEmptyIff | database/validator.py:251-278 | A record passes exactly when its required fields are present and non-empty and its present checked fields pass. |
| Validator.RequiredFirst | database/validator.py:258-259 | With a missing or empty required field the result is non-empty and holds only required-field errors; the per-field checks are skipped. |
| Validator.PassesChecked | database/validator.py:269-278 | A checked field present in a passing record passes its validator. |
| Validator.PassesRequired | database/validator.py:251-259 | A required field of a passing record is present and not empty. |
| Validator.BasicNewsShape | database/validator.py:237-278 | A record passing validate_basic_news has string titulo, link and fonte. Its trimmed fonte is allowed. Its image is None or a string. |
| Validator.CompleteNewsShape | database/validator.py:280-325 | A record passing validate_complete_news has string titulo, link, fonte and resumo. The summary is not a failure message. The cluster is in 0..10 and the score, if any, in 0..100. |
| Validator.EscapeAngles | database/validator.py:350-351 | The two chained replaces leave no `<` or `>`, and the result is empty exactly when the input is. |
| Validator.EscapeAnglesFixed | database/validator.py:350-351 | A string with no angle brackets is left unchanged by the escaping. |
| Validator.EscapeAnglesSingleSpaced | database/validator.py:346-351 | Escaping keeps a string single-spaced, so the whitespace normalisation still holds after it. |
| Validator.SanitizeTextClean | database/validator.py:346-351 | A sanitised string is trimmed, single-spaced and free of angle brackets. It is empty exactly when the input strips to nothing. |
| Validator.SanitizeTextFixed | database/validator.py:346-351 | A clean string is left alone by sanitisation. |
| Validator.SanitizeData | database/validator.py:327-356 | The loop over the six string fields of a copy, then the empty-image rule, yields Sanitized(data). The input record is a value and is not modified. |
| Validator.SanitizedShape | database/validator.py:327-356 | Sanitising keeps the same keys and sanitises every string field. Non-string values are untouched. Every resulting string field is clean. The image is never "" and becomes None when blank. |
| Validator.SanitizeIdempotent | database/validator.py:327-356 | Sanitising twice gives the same record as sanitising once. |
| ApiModels.CheckedText | api/models.py:27-51 | A text field passes exactly when it is within max_length and not blank. The value kept is the trimmed one. |
| ApiModels.CheckedLink | api/models.py:33-39 | The link passes exactly when it is within 1000 characters, not blank, and starts with `http://` or `https://` before trimming. The value kept is the trimmed one. |
| ApiModels.CheckedFields | api/models.py:15-51 | The four text validators pass together exactly when titulo ≤ 500, link ≤ 1000, resumo ≤ 2000 and fonte ≤ 100 characters all pass. The values are their trimmed forms. |
| ApiModels.ToNewsItem | api/models.py:11-59 | `NewsItem(**row)` succeeds exactly when every field constraint holds: lengths, non-blank text, link scheme, imagem ≤ 1000, score ≥ 0 when present, cluster ≥ 0, and status exactly `postada` or `arquivada`. The item carries the trimmed texts and every other field unchanged. |
| ApiModels.CheckedTextStable | api/models.py:27-51 | A validated text is non-empty and trimmed, and validates again to itself. |
| ApiModels.CheckedLinkStable | api/models.py:33-39 | A validated link is non-empty and trimmed, keeps its scheme, and validates again to itself. |
| ApiModels.RevalidateIsIdentity | api/models.py:11-59 | Building a NewsItem from a validated item's own fields gives the same item back. |
| ApiModels.LeadingSpaceLinkRejected | api/models.py:35-38 | A link with leading whitespace is rejected, because the scheme test runs before trimming. |
| ApiModels.ApiStatusPassesStore | api/models.py:53-59 | Every status the API accepts also passes the store's validate_status. |
| ApiModels.StoreStatusLooser | api/models.py:53-59 | The converse fails: "Postada" passes the store's check (trimmed and lower-cased, database/validator.py:230-233) but the API rejects it. |
| Selector.Found | pipeline/selector.py:27-31 | The keywords found in a text are exactly the terms of the list that occur in it as whole words. |
| Selector.TermsScoreCountsFound | pipeline/selector.py:27-31 | A category adds its weight once per keyword found, so the number of occurrences plays no part. |
| Selector.SamePresenceSameScore | pipeline/selector.py:27-31 | Two texts that contain the same keywords as whole words get the same score. |
| Selector.TermsScoreBounds | pipeline/selector.py:28-31 | With a non-negative weight, one category adds between 0 and weight × number of terms. |
| Selector.CategoriesBounds | pipeline/selector.py:27-31 | With non-negative weights, the score of a lower-cased text lies between 0 and the sum of weight × number of terms. |
| Selector.ScoreBounds | pipeline/selector.py:11-33 | calcular_score is between 0 and the largest possible score, for a string or any other value. |
| Selector.LowerSameScore | pipeline/selector.py:25 | Lower-casing a text before scoring does not change its score. |
| Selector.ShippedMaxScore | pipeline/config.py:30-56 | The shipped keyword table has non-negative weights, and its highest score is 5·28 + 3·14 + 2·10 = 202. |
| Selector.CalcularScore | pipeline/selector.py:11-33 | The nested loop over categories and terms returns the specified score: 0 for a non-string, else one weight per keyword found in the lower-cased text. |
| Selector.ExampleLowered | pipeline/selector.py:25 | "Google lança nova campanha" lower-cases to "google lança nova campanha". |
| Selector.ExampleScore | pipeline/selector.py:11-33 | Under the shipped table, "Google lança nova campanha" scores 11: "google" adds 5, "lança" and "campanha" add 3 each, and "lançamento" and "novo" are not whole words of it. |
| Selector.WithScores | pipeline/selector.py:57-59 | Each candidate gets the score of its title, a space and its summary, and keeps its position. |
| Selector.SelectionSpec | pipeline/selector.py:36-90 | The selection has min(top_n, number of candidates) rows, and none when top_n ≤ 0. Each row is a candidate with its score, and none appears twice. Rows are in non-increasing score order, ties in table order. No candidate left out scores higher than a selected one, or equally while coming earlier. |
| Selector.SelectedRows | pipeline/selector.py:57-71 | The selected rows are scored candidates, none twice, in sorted order. |
| Selector.SelectedPrefix | pipeline/selector.py:71 | `nlargest` is a prefix of the table sorted by score: a sub-multiset of it, still sorted. |
| Selector.SelectedAreScored | pipeline/selector.py:57-71 | Every selected row is the candidate at its position, with that candidate's score. |
| Selector.SelectedBest | pipeline/selector.py:71 | `nlargest(..., keep='first')`: no candidate left out beats a selected row on score, or ties with it while coming earlier. |
| Selector.EmptySelection | pipeline/selector.py:48-50 | An empty candidate table gives an empty selection. |
| Selector.SelecionarNoticiasEstrategicas | pipeline/selector.py:36-90 | The method scores each row with calcular_score and returns the specified selection. |
| TextCache.Average | database/text_cache.py:135-139 | `average_length` is the floor of total / count: a·count ≤ total < (a+1)·count. It is 0 when the cache is empty. |
| TextCache.Stats | database/text_cache.py:124-143 | get_cache_stats reports total_texts as the number of entries and total_characters as the sum of the text lengths (TotalCharacters). average_length is Average of the two, the floor of the mean. An empty cache reports 0 characters and average 0. |
| TextCache.TotalCharactersBound | database/text_cache.py:134 | Every stored text is at most as long as `total_characters`. |
| TextCache.TotalCharactersAppend | database/text_cache.py:134 | The summed length is additive over runs of entries: each text counts once. |
| TextCache.NewsTextCache.constructor | database/text_cache.py:14-19 | A new cache has no texts and no models. |
| TextCache.NewsTextCache.StoreText | database/text_cache.py:21-38 | store_text returns True. The map becomes `d[link] = text`: overwritten in place when present, appended otherwise. Keys stay unique and the models are untouched. |
| OrderedDict.PutGet | database/text_cache.py:33-35 | After `d[k] = v`, `get(k)` is v and every other key reads as before. The same dict assignment is used by api/cache.py:90-93. |
| OrderedDict.RemoveGet | database/text_cache.py:68-72 | After `del d[k]`, `get(k)` is None and every other key reads as before. |
| OrderedDict.RemoveLength | database/text_cache.py:68-72 | Deleting a present key removes exactly one entry; deleting an absent key removes none. |
| TextCache.NewsTextCache.GetText | database/text_cache.py:40-55 | get_text returns the value stored for the link, or None. |
| TextCache.NewsTextCache.RemoveText | database/text_cache.py:57-75 | remove_text returns True exactly when the link was present. The map becomes the map without it, and the models are untouched. |
| TextCache.NewsTextCache.GetAllTexts | database/text_cache.py:77-89 | get_all_texts returns a map with exactly the cached links, each with its cached text. |
| TextCache.NewsTextCache.GetTextsForSummarization | database/text_cache.py:91-107 | get_texts_for_summarization returns one `(link, "summarize: " + text)` pair per entry, in order. It modifies nothing. |
| TextCache.NewsTextCache.ClearCache | database/text_cache.py:109-122 | clear_cache empties the texts and keeps both models. |
| TextCache.NewsTextCache.GetCacheStats | database/text_cache.py:124-143 | The summing loop returns Stats of the current contents. |
| TextCache.NewsTextCache.HasText | database/text_cache.py:145-160 | has_text is true exactly when the link is a key. |
| TextCache.NewsTextCache.StoreModels | database/text_cache.py:162-180 | store_models records both models and leaves the texts alone. |
| TextCache.NewsTextCache.GetModels | database/text_cache.py:182-196 | get_models returns the stored pair, `(None, None)` before any store or after a clear. |
| TextCache.NewsTextCache.ClearModels | database/text_cache.py:198-211 | clear_models forgets both models and leaves the texts alone. |
| ApiCache.Live | api/cache.py:29-39 | The entries that are not expired, in order: exactly the non-expired pairs of the cache. |
| ApiCache.ExpiredCount | api/cache.py:125-126 | The expired count plus the live count is the cache size. |
| ApiCache.LiveUnique | api/cache.py:29-39 | Dropping expired entries keeps the keys unique. |
| ApiCache.GoneIsExpired | api/cache.py:32-39 | Deleting exactly the keys collected by the first pass leaves the live entries. |
| ApiCache.OldestIndex | api/cache.py:46-47 | `min(keys, key=timestamp)`: an entry whose timestamp is ≤ every other, and the first such. |
| ApiCache.Evict | api/cache.py:41-48 | _evict_oldest on an empty cache changes nothing. Otherwise it deletes the key of the oldest entry. |
| ApiCache.EvictOldest | api/cache.py:41-48 | The evicted entry has the smallest timestamp, and eviction changes no other key's value. |
| ApiCache.EvictShrinks | api/cache.py:41-48 | Evicting from a non-empty cache removes exactly one entry and adds no key. |
| ApiCache.Lookup | api/cache.py:50-71 | get on an absent key returns None and changes nothing. On an expired key it returns None and deletes the key. A hit returns the stored value and leaves the cache as it was. |
| ApiCache.Store | api/cache.py:73-93 | After set, the key holds the value stamped `now`. |
| ApiCache.StoreThenLookup | api/cache.py:25-27 | A value set at t is returned by get at any t2 with t2 − t ≤ ttl, when nothing happened in between. |
| ApiCache.StoreThenLookupLate | api/cache.py:66-69 | Once more than ttl has passed, get returns None and deletes the entry. |
| ApiCache.MakeRoomFits | api/cache.py:85-87 | With max_size ≥ 1, after the eviction step there is room for the key: a new key finds fewer than max_size entries. |
| ApiCache.StoreBounded | api/cache.py:81-93 | With max_size ≥ 1, a cache within its bound stays within it after set, and its keys stay unique. |
| ApiCache.OverwriteKeepsLive | api/cache.py:86-87 | Setting a key that is live evicts nothing: the keys afterwards are exactly the live keys. |
| ApiCache.LookupMembers | api/cache.py:60-71 | get only ever deletes, and a returned value was stored under the key. |
| ApiCache.StoreMembers | api/cache.py:81-93 | set adds the one new pair and otherwise only deletes. |
| ApiCache.StatsOf | api/cache.py:116-134 | get_stats: total_items is the cache size and expired_items is ExpiredCount, the number of expired entries. active_items = total_items − expired_items, which is the number of live entries. max_size and ttl are the configured values. |
| ApiCache.APICache.constructor | api/cache.py:15-23 | A new cache is empty with the configured max_size and ttl. |
| ApiCache.APICache.ExpiredKeys | api/cache.py:31-36 | The first pass of _cleanup_expired collects exactly the keys of expired entries. |
| ApiCache.APICache.CleanupExpired | api/cache.py:29-39 | The two loops of _cleanup_expired leave exactly Live of the old entries. |
| ApiCache.APICache.EvictOldestEntry | api/cache.py:41-48 | The entries become Evict of the old ones. |
| ApiCache.APICache.Get | api/cache.py:50-71 | The result and new entries are Lookup's. The bound and key uniqueness are kept. |
| ApiCache.APICache.Set | api/cache.py:73-93 | The entries become Store of the old ones. The bound and key uniqueness are kept. |
| ApiCache.APICache.Delete | api/cache.py:95-109 | delete returns True exactly when the key was present. The key is absent afterwards and nothing else is removed. |
| ApiCache.APICache.Clear | api/cache.py:111-114 | clear empties the cache. |
| ApiCache.APICache.GetStats | api/cache.py:116-134 | get_stats returns StatsOf the current entries. |
| Services.NatToString | api/services.py:38 | `str(n)` of a natural number is a non-empty string of decimal digits whose decimal value is n. |
| Services.IntToStringInjective | api/services.py:38 | Different integers give different `str(i)`. |
| Services.KeysInjective | api/services.py:38 | Different limits give different `posted_news_{limit}` cache keys, and different ids give different `news_{id}` keys. So get_posted_news(10) is never answered from the page cached for 15. |
| Services.KeysDisjoint | api/services.py:38 | The cache key of a posted-news page (`posted_news_<limit>`) never equals the key of a single item (`news_<id>`). |
| Services.PostedFromDb | api/services.py:92-118 | _get_posted_news_from_db returns at most `limit` rows. All of them have status `postada`. They appear in order among `get_api_data(limit * 2)`. |
| Services.Converted | api/services.py:57-66 | The conversion loop keeps at most as many items as there are rows. |
| Services.ConvertedFrom | api/services.py:58-66 | Every converted item is the `NewsItem` of some row that converts. |
| Services.ConvertedPosted | api/services.py:58-66 | Converting posted rows gives only posted items. |
| Services.CacheHitServed | api/services.py:38-43 | A cached posted-news payload is answered as is, with `cached` set, whatever the database holds. |
| Services.EmptyNotCached | api/services.py:46-55 | On a miss with no posted rows the answer is success with no items and total 0, and nothing is stored in the cache. |
| Services.MissStoresPayload | api/services.py:57-80 | On a miss with posted rows the answer holds the rows that convert, with total equal to their number and `cached` false. A `get` of the same key right afterwards returns that payload. |
| Services.LookupKeepsPosted | api/cache.py:50-71 | A cache `get` keeps a cache that holds only posted news, and answers only posted news. |
| Services.StoreKeepsPosted | api/cache.py:73-93 | A cache `set` of a posted payload keeps the cache posted-only. |
| Services.PostedNewsOnlyPosted | api/services.py:26-90 | Every item get_posted_news answers has status `postada`, from the cache or from the database, and the cache stays posted-only. |
| Services.PostedById | api/services.py:156-190 | _get_news_by_id_from_db returns a stored row with that id and status `postada`, and returns None exactly when there is no such row. |
| Services.NewsByIdOnlyPosted | api/services.py:120-154 | get_news_by_id only ever answers a posted item, and the cache stays posted-only. |
| Services.PostedRowItem | api/services.py:145 | A posted row that converts gives an item with status `postada`. |
| Services.NewsByIdFinds | api/services.py:130-150 | When nothing is cached for the id and a posted row with that id exists and converts, get_news_by_id answers an item. |
| Services.NewsService.constructor | api/services.py:21-24 | The service is built over the database manager and the API cache, and starts from a posted-only cache. |
| Services.NewsService.ConvertAll | api/services.py:58-66 | The loop keeps exactly the `NewsItem`s of the rows that convert, in order, skipping those that raise. |
| Services.NewsService.GetPostedNews | api/services.py:26-90 | get_posted_news returns the response and leaves the cache as PostedNews describes, and keeps the cache posted-only. |
| Services.NewsService.GetNewsById | api/services.py:120-154 | get_news_by_id returns the item and leaves the cache as NewsById describes, and keeps the cache posted-only. |
| AuxOperations.Insert | database/aux_operations.py:24-54 | insert_news_basic returns True exactly when no row has the link. On False nothing changes. On True one row is appended with a fresh id, no summary and no cluster. |
| AuxOperations.InsertKeepsOk | database/aux_operations.py:40-43 | Inserting keeps links unique (the UNIQUE constraint) and ids increasing and below the next id. |
| AuxOperations.UpdateResumo | database/aux_operations.py:56-86 | update_resumo returns True exactly when some row has the link (`rowcount > 0`). On False nothing changes. On True the summary of every row with that link is set. |
| AuxOperations.UpdateCluster | database/aux_operations.py:88-118 | update_cluster returns True exactly when some row has the link. On False nothing changes. On True the cluster of every row with that link is set. |
| AuxOperations.UpdateResumoOnlyThatRow | database/aux_operations.py:71-75 | update_resumo changes only the `resumo` column, and only of rows with that link, which get the new summary. |
| AuxOperations.UpdateClusterOnlyThatRow | database/aux_operations.py:103-107 | update_cluster changes only the `cluster` column, and only of rows with that link, which get the new cluster. |
| AuxOperations.SameLinksKeepOk | database/aux_operations.py:71-107 | An update that keeps every row's id and link keeps the table's invariant. |
| AuxOperations.WithResumos | database/aux_operations.py:145-171 | get_news_with_resumos returns exactly the rows with a non-empty summary that is not `LIKE 'Falha na sumarização%'`. |
| AuxOperations.WithoutResumos | database/aux_operations.py:173-197 | get_news_without_resumos returns exactly the rows whose summary is NULL or empty. |
| AuxOperations.WithoutClusters | database/aux_operations.py:199-226 | get_news_without_clusters returns exactly the rows with no cluster and a usable summary. |
| AuxOperations.ByCluster | database/aux_operations.py:228-255 | get_news_by_cluster returns exactly the rows with that cluster. |
| AuxOperations.TopNews | database/aux_operations.py:257-289 | get_top_news_by_relevance returns exactly min(top_n, ready) rows, or every ready row for a negative `top_n`. A ready row has a usable summary and a cluster. The result is the first ready rows in id order, so relevance plays no part. |
| AuxOperations.FilterById | database/aux_operations.py:163 | A filter of a table in id order is in id order. |
| AuxOperations.QueriesById | database/aux_operations.py:145-289 | Every query returns its rows in id order (`ORDER BY id`). |
| AuxOperations.UsableResumoMeaning | database/aux_operations.py:162 | `NOT LIKE 'Falha na sumarização%'` means the summary does not start with that prefix, ignoring the case of ASCII letters. |
| AuxOperations.WithoutClustersWithinWithResumos | database/aux_operations.py:199-226 | Every row still to cluster is among the rows with a usable summary, and has no cluster. |
| AuxOperations.FailureNotUsable | database/aux_operations.py:157-281 | A summarisation-failure message is never offered as a usable summary, by either query. |
| AuxOperations.CountNews | database/aux_operations.py:291-339 | count_news: total is the table size. com_resumos plus the rows get_news_without_resumos returns is the table size, and so is com_clusters plus the rows with no cluster. prontas_selecao is the length of the unlimited top-news query. The ready count is at most the clustered count and at most the summarised count. |
| AuxOperations.CountMatchesTopNews | database/aux_operations.py:320-328 | The ready count is the number of rows the top-news query can return with no limit, or with the count itself as the limit. |
| AuxOperations.AuxiliaryOperations.constructor | database/aux_operations.py:15-22 | A new access layer starts from an empty table. |
| AuxOperations.AuxiliaryOperations.InsertNewsBasic | database/aux_operations.py:24-54 | insert_news_basic acts as Insert describes and keeps the table invariant. |
| AuxOperations.AuxiliaryOperations.UpdateResumoOf | database/aux_operations.py:56-86 | update_resumo acts as UpdateResumo describes and keeps the table invariant. |
| AuxOperations.AuxiliaryOperations.UpdateClusterOf | database/aux_operations.py:88-118 | update_cluster acts as UpdateCluster describes and keeps the table invariant. |
| AuxOperations.AuxiliaryOperations.GetNewsWithResumos | database/aux_operations.py:145-171 | Returns the rows WithResumos describes. |
| AuxOperations.AuxiliaryOperations.GetNewsWithoutResumos | database/aux_operations.py:173-197 | Returns the rows WithoutResumos describes. |
| AuxOperations.AuxiliaryOperations.GetNewsWithoutClusters | database/aux_operations.py:199-226 | Returns the rows WithoutClusters describes. |
| AuxOperations.AuxiliaryOperations.GetTopNewsByRelevance | database/aux_operations.py:257-289 | Returns the rows TopNews describes. |
| AuxOperations.AuxiliaryOperations.CountAll | database/aux_operations.py:291-339 | Returns the counts CountNews describes. |
| AuxOperations.AuxiliaryOperations.ClearDatabase | database/aux_operations.py:341-360 | clear_database deletes every row, keeps the id sequence, and returns True. |
| MainOperations.Insert | database/main_operations.py:49-82 | insert_new_news returns True exactly when no row has the link. On False (an IntegrityError) nothing changes. On True one row is appended with a fresh id, the summary, the cluster and selection time `now`. |
| MainOperations.InsertKeepsOk | database/main_operations.py:68-75 | Inserting keeps links unique and ids increasing and below the next id. |
| MainOperations.Refresh | database/main_operations.py:98-101 | The UPDATE keeps the number of rows. |
| MainOperations.UpdateSelection | database/main_operations.py:84-114 | update_selection_timestamp returns True exactly when some row has the link (`rowcount > 0`). On False nothing changes. On True those rows get selection time `now`. |
| MainOperations.RefreshOnlySelectionTime | database/main_operations.py:98-101 | The refresh changes only `data_selecao`, and only of rows with that link, which get `now`. |
| MainOperations.UpdateSelectionKeepsOk | database/main_operations.py:84-114 | Refreshing a selection time keeps the table invariant. |
| MainOperations.TransferCounts | database/main_operations.py:116-162 | transfer_selected_news counts every item exactly once as new, updated or failed. None fails, because the existence check and the write agree. The table grows by exactly the number of new items. |
| MainOperations.TransferKeepsOk | database/main_operations.py:135-156 | Transferring a selection keeps links unique and ids increasing. |
| MainOperations.TransferOneRefreshes | database/main_operations.py:138-143 | An item whose link is already stored is counted as updated. Its row only gets the new selection time, and every other row is unchanged. |
| MainOperations.Newest | database/main_operations.py:179-184 | `ORDER BY data_selecao DESC LIMIT ?` returns min(limit, rows) stored rows, or a permutation of all of them for a negative limit. The rows are not repeated and come newest first, ties by id. No row left out is newer than a returned one, or equally new with a smaller id. |
| MainOperations.LatestNews | database/main_operations.py:164-191 | get_latest_news returns the newest min(limit, rows) stored rows (all of them for a negative limit), newest first, with no row left out newer than a returned one. |
| MainOperations.NewsByCluster | database/main_operations.py:193-222 | get_news_by_cluster returns min(limit, n) of the n rows of that cluster, or all of them for a negative limit. They are the newest of that cluster, newest first. No row of the cluster left out is newer than a returned one. |
| MainOperations.SearchNews | database/main_operations.py:257-287 | search_news returns min(limit, n) of the n rows whose title or summary is `LIKE '%term%'`, or all of them for a negative limit. They are the newest matching rows, newest first. No matching row left out is newer than a returned one. |
| MainOperations.MatchesMeaning | database/main_operations.py:277 | For a term without LIKE wildcards, a row matches exactly when its title or its non-NULL summary contains the term, ignoring the case of ASCII letters. |
| MainOperations.SearchFindsAll | database/main_operations.py:273-280 | Every stored row that matches is found when there is no limit. |
| MainOperations.MainOperations.constructor | database/main_operations.py:15-22 | A new access layer starts from an empty archive. |
| MainOperations.MainOperations.CheckLinkExists | database/main_operations.py:24-47 | check_link_exists is true exactly when some row has the link. |
| MainOperations.MainOperations.InsertNewNews | database/main_operations.py:49-82 | insert_new_news acts as Insert describes and keeps the table invariant. |
| MainOperations.MainOperations.UpdateSelectionTimestamp | database/main_operations.py:84-114 | update_selection_timestamp acts as UpdateSelection describes and keeps the table invariant. |
| MainOperations.MainOperations.TransferSelectedNews | database/main_operations.py:116-162 | The loop over the selection returns the stats and leaves the table that Transfer describes, and keeps the table invariant. |
| MainOperations.MainOperations.GetLatestNews | database/main_operations.py:164-191 | Returns the rows LatestNews describes. |
| MainOperations.MainOperations.GetNewsByCluster | database/main_operations.py:193-222 | Returns the rows NewsByCluster describes. |
| MainOperations.MainOperations.SearchNewsFor | database/main_operations.py:257-287 | Returns the rows SearchNews describes. |
| MainOperations.MainOperations.GetApiData | database/main_operations.py:339-370 | get_api_data returns one item per latest row, in the same order, with the same seven columns. |
| Pipeline.ExtractIndicesInRange | main.py:55-66 | The indices the extractor hands to the summariser all point into the collected frame. |
| Pipeline.NoCollection | main.py:39-43 | When the collectors return nothing, or raise, the run returns `(None, None)`. |
| Pipeline.NoTexts | main.py:55-60 | When no article's text can be fetched, the run returns the collected frame and no insights, so summarisation is never reached. |
| Pipeline.SomeText | main.py:55-60 | One fetched text is enough for the run to go on to summarisation. |
| Pipeline.ModelNotLoaded | main.py:65-70 | A summariser that cannot be loaded leaves the frame without a `resumo` column, so the run returns the collected frame and no insights. |
| Pipeline.ClusterOutcome | main.py:72-84 | Once summaries exist, the clusterer decides the outcome. An exception gives `(None, None)`. No k-means model gives the clustered frame and no insights. Otherwise the run goes on to interpretation and selection. |
| Pipeline.CandidatesValid | main.py:91-93 | `df_cluster` holds exactly the frame's rows that have a summary not starting with "Falha na sumarização". |
| Pipeline.SentinelNotCandidate | main.py:91-93 | A row whose summary is a summarisation-failure sentinel is never a candidate, whatever the error text. |
| Pipeline.FullRun | main.py:22-108 | A run whose clusterer returns a k-means model ends with interpretation and selection on the clustered frame. |
| Pipeline.ScoresNonIncreasing | pipeline/selector.py:71 | Rows sorted by descending score, ties by position, have non-increasing scores. |
| Pipeline.SelectFromCandidates | main.py:95-96 | The selection from `df_cluster` has at most 15 candidates with their scores, best first. |
| Pipeline.FinishSelects | main.py:84-113 | An interpreter that raises gives `(None, None)`. Otherwise the run returns the interpreted frame and min(15, candidates) insights, in non-increasing score order. Each insight is a candidate of that frame, so never a failed summary, with its relevance score. |
| Summarizer.Truncate | pipeline/summarizer.py:65 | `texto[:max_length]` is a prefix of the text of at most 1024 characters. It is the whole text when the text fits, and exactly 1024 characters otherwise. |
| Summarizer.OutcomeShape | pipeline/summarizer.py:64-87 | A row's summary is the model's summary of the truncated text. When the model raises, it is a sentinel that starts with "Falha na sumarização: ". |
| Summarizer.SentinelRejected | pipeline/summarizer.py:86-87 | Every failure sentinel, whatever the error text, is refused by the store's validate_resumo. |
| Summarizer.Apply | pipeline/summarizer.py:62-88 | Processing pairs keeps the number of rows. After at least one pair the frame has a `resumo` column. After none it is the input frame. |
| Summarizer.WriteResumoRow | pipeline/summarizer.py:75 | `df.loc[i, 'resumo'] = v` changes the `resumo` of row i and no other cell. |
| Summarizer.ApplyRow | pipeline/summarizer.py:62-88 | Row j after n pairs is row j after n-1 pairs, with the n-th outcome written when the n-th pair points at j. |
| Summarizer.ResumoAfterApply | pipeline/summarizer.py:62-88 | The `resumo` of row j after n pairs is the outcome of the last of those pairs that points at j, or the original `resumo` when none does. |
| Summarizer.ApplyUntouched | pipeline/summarizer.py:62-88 | Rows that no processed pair points at are unchanged. |
| Summarizer.ApplyOnlyResumo | pipeline/summarizer.py:75-87 | Summarising only ever writes the `resumo` column. |
| Summarizer.ApplyTouched | pipeline/summarizer.py:62-88 | A row that processed pairs point at holds the outcome of the last such pair, since later writes overwrite earlier ones. |
| Summarizer.SummarizeRows | pipeline/summarizer.py:38-98 | After sumarizar_textos the frame keeps its rows. A row some processed pair points at has as `resumo` the outcome of one of those pairs, and keeps every other column. Every other row is unchanged. Nothing is processed when a list is empty or the model cannot be loaded. Pairs beyond the shorter list are ignored, as `zip` does. |
| Summarizer.SumarizarTextos | pipeline/summarizer.py:38-98 | The loop over `zip(textos, indices)` returns the specified frame: early return on empty lists, unchanged frame when the model fails to load, otherwise one write per pair. |
| Extractor.TallyIsPut | pipeline/extractor.py:66-82 | Counting a row on the defaultdict is the dict assignment `stats[fonte] = ...` of the bumped counts, which start at zero for a new source. |
| Extractor.ExtractUpTo | pipeline/extractor.py:71-84 | After any number of rows, there are as many texts as indices. |
| Extractor.KeptAreExtracted | pipeline/extractor.py:75-80 | Every kept index is a processed row whose fetch returned a non-empty text. The matching text is "summarize: " followed by that fetch result. |
| Extractor.KeptIncreasing | pipeline/extractor.py:71-80 | The kept indices are processed rows, in strictly increasing row order. |
| Extractor.ExtractedAreKept | pipeline/extractor.py:77-80 | Every processed row whose fetch returned a non-empty text is kept. |
| Extractor.ExtractUpToTexts | pipeline/extractor.py:71-84 | The texts are the prefixed fetch results of exactly the rows whose fetch succeeded, with those rows' indices, in row order. |
| Extractor.ExtrairTextosNoticias | pipeline/extractor.py:50-115 | The loop returns the specified texts, indices and stats. An empty frame gives `([], [], {})`. |
| Extractor.IndexKeptIff | pipeline/extractor.py:77-82 | A row index is kept exactly when its fetch returned a non-empty text (`if texto:`). |
| Extractor.NothingExtracted | pipeline/extractor.py:77-82 | When no fetch succeeds there are no texts and no indices. |
| Extractor.TextsPrefixed | pipeline/extractor.py:79 | Every text handed to the summariser starts with "summarize: ". |
| Extractor.PutTotal | pipeline/extractor.py:94-105 | Assigning a source's counts replaces its old counts in the success and failure totals by the new ones. |
| Extractor.TallyTotals | pipeline/extractor.py:77-82 | A success adds one to the success total, and a failure adds one to the failure total. |
| Extractor.ExtractTotals | pipeline/extractor.py:91-111 | `total_success` equals the number of texts (and of indices), and `total_success + total_fail` equals the number of rows processed. |
| Extractor.TallyCounts | pipeline/extractor.py:78-82 | Counting a row changes only the counts of that row's source. |
| Extractor.TallyKeys | pipeline/extractor.py:66-82 | Counting a row creates an entry for its source when it is missing, and no other entry. |
| Extractor.TallyUnique | pipeline/extractor.py:66-82 | Counting a row keeps the sources unique. |
| Extractor.StatsStep | pipeline/extractor.py:71-84 | Row n-1 adds its success or failure to the stats of the first n-1 rows. |
| Extractor.StatsCountSource | pipeline/extractor.py:71-84 | For each source, the stats hold the number of that source's rows whose fetch succeeded and the number whose fetch failed. |
| Extractor.StatsKeys | pipeline/extractor.py:66-82 | A source has an entry exactly when one of the processed rows came from it. |
| Extractor.StatsUnique | pipeline/extractor.py:66 | No source has two entries. |
| Extractor.ExtractStatsPerSource | pipeline/extractor.py:66-84 | Per source, the counts of successful and failed rows. A source has an entry exactly when one of its rows was processed, and entries are unique. |
| Extractor.CountSourceSplit | pipeline/extractor.py:95-97 | For every source, successes plus failures equal the number of that source's rows (`total_fonte`). |
| Extractor.ExtractSummary | pipeline/extractor.py:50-115 | All of extrair_textos_noticias' promises about its three results on a whole frame, including the empty frame. |
| ErrorHandler.UnknownTypeAccepts | errors/error_handler.py:82-103 | validate_data accepts any value under a type name other than 'list', 'dict', 'str' and 'not_empty'. |
| ErrorHandler.NotEmptyRejects | errors/error_handler.py:98-101 | 'not_empty' rejects None, False, zero, and every empty string, list and dict. |
| ErrorHandler.TypeTestIgnoresContents | errors/error_handler.py:83-96 | The type tests look only at the type: an empty list is a list, and a list is not a dict. |
| ErrorHandler.PipelineErrorHandler.constructor | errors/error_handler.py:15-18 | A new handler has counted no errors and no warnings. |
| ErrorHandler.PipelineErrorHandler.HandleError | errors/error_handler.py:33-61 | handle_error counts one more error and leaves the warnings alone. The traceback is logged only while the count is at most 3. The answer is `continue_execution`. |
| ErrorHandler.PipelineErrorHandler.HandleWarning | errors/error_handler.py:63-68 | handle_warning counts one more warning and leaves the errors alone. |
| ErrorHandler.PipelineErrorHandler.ValidateData | errors/error_handler.py:70-107 | validate_data answers the type test or truthiness test for the type name. A rejection counts exactly one warning, and an acceptance counts nothing. |
| ErrorHandler.PipelineErrorHandler.GetSummary | errors/error_handler.py:109-115 | get_summary reports the current error and warning counts. |
| ScraperUtils.FirstMatch | pipeline/scraper_utils.py:35-39 | The source is that of the first table entry whose domain occurs in the host. It is 'Desconhecida' exactly when no domain occurs. |
| ScraperUtils.DetectedSourceAllowed | pipeline/scraper_utils.py:12-42 | detect_source_from_url always returns one of the sources validate_fonte accepts. |
| ScraperUtils.DetectExame | pipeline/scraper_utils.py:23-37 | A URL on exame.com is attributed to Exame. |
| ScraperUtils.ExameSplits | pipeline/scraper_utils.py:23 | `urlparse` of an https URL on exame.com has that scheme and host. |
| ScraperUtils.FirstEntryMatches | pipeline/scraper_utils.py:35-37 | A host equal to the first domain of the table gets that domain's source. |
| ScraperUtils.ValidateUrl | pipeline/scraper_utils.py:83-101 | validate_url is true exactly for a non-empty string that, once trimmed, parses with an `http` or `https` scheme and a host. |
| ScraperUtils.ValidateUrlAgreesWithLink | pipeline/scraper_utils.py:93-99 | Within the length limit, the scrapers' URL check agrees with the record validator's validate_link on every string. |
| ScraperUtils.ExtractImageUrl | pipeline/scraper_utils.py:45-80 | No element gives "". Otherwise the result is the first non-empty extractor result, resolved with `urljoin` when relative and a base is given. It is "" only when every extractor raises or finds nothing. |
| ScraperUtils.FirstFound | pipeline/scraper_utils.py:69-80 | The fallback loop returns the first non-empty outcome, resolved, or "" when there is none. |
| ScraperUtils.ExtractSkipsFailures | pipeline/scraper_utils.py:69-78 | Extractors that raise or return "" before the first one that finds a URL play no part in the result. |
| ScraperUtils.ResolveAbsolute | pipeline/scraper_utils.py:74-76 | An absolute URL, or any URL when there is no base, is returned as found. |
| ScraperUtils.SplitFirst | pipeline/scraper_utils.py:216 | `s.split(c)[0]` is the longest prefix of `s` without `c`. |
| ScraperUtils.SrcsetFirst | pipeline/scraper_utils.py:216 | The URL taken from a srcset contains no space. |
| ScraperUtils.SplitFirstPrefix | pipeline/scraper_utils.py:216 | A prefix followed by the separator, or by nothing, is the first item of the split. |
| ScraperUtils.SrcsetFirstOfCandidate | pipeline/scraper_utils.py:207-217 | For `url descriptor, more candidates`, and for a lone URL with or without descriptors, _extract_from_srcset returns the URL of the first candidate. |
| ScraperUtils.FirstPiece | pipeline/scraper_utils.py:216 | The first comma-separated piece starts with the URL, followed by a space or by nothing. |
| ScraperUtils.StripPlainHead | pipeline/scraper_utils.py:216 | Stripping a piece that starts with a whitespace-free URL keeps the URL at its head. |
| NewsFrame.FromItems | main.py:46-47 | The DataFrame has one row per collected item, with no `resumo` column yet. Row i carries item i's fonte, categoria, titulo, descricao and link, with no summary and no cluster. |
| Text.StripIdempotent | database/validator.py:345-346 | `strip()` applied twice is `strip()` applied once. |
| Text.CollapseSpacesSingleSpaced | database/validator.py:345-346 | After `re.sub(r'\s+', ' ', ...)` no whitespace other than single spaces remains. |
| Text.CollapseSpacesFixed | database/validator.py:345-346 | A single-spaced string is left unchanged by `re.sub(r'\s+', ' ', ...)`. |
| Text.PrefixSurvivesStrip | database/validator.py:129-141 | A string that starts with a prefix with no whitespace at either end still starts with it after `strip()`. |
| Text.LowerIdempotent | pipeline/selector.py:25 | `lower()` applied twice is `lower()` applied once. |
| Url.SplitRoundTrip | pipeline/scraper_utils.py:23-24 | `urlparse` of `scheme://host/path` gives back the lower-cased scheme and the host. |
| SqlLike.LikePrefix | database/aux_operations.py:162 | For a pattern without wildcards, `s LIKE 'p%'` holds exactly when `s` starts with `p`, ignoring the case of ASCII letters. |
| SqlLike.LikeContains | database/main_operations.py:277 | For a pattern without wildcards, `s LIKE '%p%'` holds exactly when `s` contains `p`, ignoring the case of ASCII letters. |
| Ordering.SortBy | pipeline/selector.py:71 | The sort is a permutation of its input. |
| Ordering.SortBySorted | pipeline/selector.py:71 | The sort orders rows by descending key, ties by ascending position, as `nlargest(..., keep='first')` does. The ORDER BY queries use the same tie order as a modelling assumption. |
| Ordering.Top | database/db_manager.py:590-595 | `ORDER BY key LIMIT n` returns min(n, rows) rows, or a permutation of all of them for a negative n. The rows are drawn from the input without repeats, sorted, and no row left out comes strictly before a returned row. |

## Left out

- SQLite plumbing (`initialize_databases` and the `_init_*` helpers, database/db_manager.py:27-135): connections, schema creation and indexes. Each table is a sequence of rows in rowid order plus the next AUTOINCREMENT id, and a class invariant stands in for the schema's UNIQUE and CHECK constraints.
- Generic `except Exception` branches and database errors other than the UNIQUE violation: these depend on the driver and the disk. The IntegrityError on a duplicate link is the duplicate-link outcome. In DbManager `falhas` counts the new items whose record fails validate_complete_news or whose sanitised link is already archived (`DbManager.TransferOneFails`). In MainOperations `falhas` is always 0.
- `update_selection_timestamp` (database/db_manager.py:498-529): transfer_selected_news does not call it. The re-stamping it performs is modelled by `update_selection_timestamp_and_status` and by MainOperations.
- `get_statistics` (database/db_manager.py:639-687, database/main_operations.py:289-337) and `get_news_by_date_range` (database/main_operations.py:224-255): these are reporting queries over datetime windows and `date()` arithmetic, which the integer clock does not model.
- `get_all_news` (database/aux_operations.py:120-143): it returns the whole staging table, which the class's table field already is.
- Column projection of SELECTs: the queries return whole rows.
- Ties under ORDER BY: the model breaks ties by ascending id (rowid). This is a modelling assumption. The source leaves the order among tied rows, and so which tied rows a LIMIT keeps, to SQLite's query planner. An index scan may return ties in either rowid order: database/db_manager.py:122 creates an ascending index on `data_selecao`, while init_db.py creates a descending one. Ties are common in the archive, because transfer_selected_news stamps a whole selection with one `now`.
- Clock: CURRENT_TIMESTAMP, `datetime.now()` and `time.time()` are an integer `now` passed by the caller. The timestamps of `NewsResponse` and of the summary endpoint are left out.
- Floating point: the selector's score is an integer sum, because every keyword weight is an integer. The stored score is a real. The per-cluster mean score and the printed report of the selector (pipeline/selector.py:62-68) are left out, and so is the mapping to the `tema_cluster` column (pipeline/selector.py:79-88).
- Thread locks in the caches: the model is single-threaded.
- The clusterer and cluster interpreter (pipeline/clustering.py) are function parameters that return a Result. Embedding and k-means are not part of this model.
- Article download (`extrair_texto_completo`: HTTP and HTML parsing) is the `fetch` parameter. `time.sleep` and the progress prints are left out.
- The summarisation model: `inicializar_summarizer` is a `loaded` flag, and the model itself is a function parameter. Device choice and generation parameters are left out.
- Summarizer.Summarize and Extractor.Extract: the DataFrame is updated in place in Python and returned as a new value here. Aliasing of the frame is not modelled.
- Unicode: `Text.Lower` and `Text.IsWordChar` follow Python exactly for ASCII and Latin-1. Other capital letters are left unchanged by Lower.
- `urlparse`: only the scheme, the host (netloc) and the bracketed-IPv6 error are modelled.
- Pydantic's type coercion in api/models.py: fields arrive already typed. Only the validators and field constraints are modelled.
- ErrorHandler.ValidateData: the `except` branch of validate_data (errors/error_handler.py:105-107) is left out. Modelled values never raise when their truth value is taken, as a pandas DataFrame would. Message texts, logging, `print` and `setup_logging` (errors/error_handler.py:20-31) are left out as I/O.
- Validator messages: an invalid field returns a reason value, not the Portuguese message text.
- The collectors and site scrapers, cleanup.py, the HTTP framework of the API, the frontend and the scheduler: these are I/O around the core.
- MainOperations.TransferCounts: the "none fails" clause assumes the `noticias` table as database/init_db.py creates it, with no `fonte` column. db_manager.py creates the same file with `fonte TEXT NOT NULL` and no default (database/db_manager.py:104-115). Under that schema insert_new_news (database/main_operations.py:68-71) would always fail with an IntegrityError, so every new item would count as a failure. The model does not reconcile the two schemas.
- Configuration modules: the constants are taken as shipped. These are the validator limits (500, 2000 and 1000 characters, and the allowed sources), the 1024-character fetch limit, the top 15 of the selector and the relevance keyword table.
