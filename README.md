# seafront metadata core in Dafny

This project models the metadata and identifier logic of *seafront*, a
small pipeline that downloads single-cell datasets (from the CELLxGENE
census and from GEO) and standardises their per-cell metadata. It covers
four source files:

- **standardize.py** (`standardize.dfy`, module `Standardize`):
  - `filter_age` turns a developmental-stage string into an integer age. It
    checks, in order, an exact lookup table, a drop set, an "LMP month
    stage" test, a "Carnegie stage" prefix test, and then the
    `<N>-year-old stage` and `<N>-month-old stage` patterns.
  - `filter_obs_with_age_int` keeps the rows whose stage maps to an age.
  - `summarize_obs` groups the rows by `dataset_id`. Count-like columns get
    their median; every other column gets a sorted, de-duplicated,
    `", "`-joined list of its values.
- **fetch.py** (`fetch.dfy`, module `Fetch`):
  - `_update_checksums_file` maintains the `.checksums` ledger.
  - `fetch_cellxgene` and `fetch_and_save_data` decide between the cache
    and a download. The cache directory is a class, `CacheDir`, whose
    methods update it in place. Each method is proved equal to a pure step
    function over a `DirState` value.
- **meta.py** (`meta.dfy`, module `Meta`):
  - `filter_experiments_by_median_raw_sum` keeps experiments whose median
    `raw_sum` reaches a threshold, then summarises the kept rows.
  - `check_var_consistency_and_save` samples three datasets and writes the
    gene list only when all three agree. It is modelled as a class,
    `MetaDir`, whose method runs the source's two loops.
- **datasets.py** (`datasets.dfy`, module `Datasets`):
  - `download` dispatches on the dataset name.
  - The identifier logic of the `ainciburu2023` combine covers:
    - which `.h5` files are read, and in what order;
    - the sample id taken from a file name;
    - `<barcode>_<sample>` cell names;
    - patient id and age;
    - the regular-expression metadata key;
    - the strict cell-type lookup.

Supporting modules, each with its own lemmas:

- `wrappers.dfy`: Option, Result and the Python exception kinds.
- `strings.dfy`: the Python `str` operations used, and `readlines`.
- `order.dfy`: sorting and de-duplication under a strict total order.
- `sequences.dfy`: order-preserving filtering.
- `tables.dfy`: the observation table, `dropna`, `str(x)`, pandas' key order and the median.

Side effects are modelled as follows:

- The file system is explicit state. This covers the data files, the ledger
  text, the files under `meta/`, and the list of census requests made.
- The census download, the gene-list lookup, the SHA-256 digest and
  `read_10x_h5` are function parameters.
- The random sample is a parameter: the caller's draw of three distinct
  positions.
- The directory listing and the metadata cell-type table are also
  parameters.

## Model

| member | source | states |
|---|---|---|
| Standardize.ConvertMapBeforeDropSet | src/seafront/standardize.py:51-54 | a stage in the exact-match table gets its table value even when the drop set also holds it |
| Standardize.DefaultConvertMapValues | src/seafront/standardize.py:31-52 | every default table key maps to its value, e.g. "third decade stage" to 35 |
| Standardize.CarnegieStagesDropped | src/seafront/standardize.py:44-49 | "Carnegie stage 09" through "Carnegie stage 23" (zero-padded) are in the default drop set |
| Standardize.DropStagesNotConverted | src/seafront/standardize.py:31-48 | no named drop stage is also an exact-match key |
| Standardize.DropSetUnmappable | src/seafront/standardize.py:43-54 | every drop-set member maps to no age |
| Standardize.LmpMonthStageUnmappable | src/seafront/standardize.py:55-56 | any stage containing "LMP month stage" maps to no age |
| Standardize.CarnegiePrefixUnmappable | src/seafront/standardize.py:57-58 | any stage starting with "Carnegie stage" maps to no age |
| Standardize.DigitStageReachesPatterns | src/seafront/standardize.py:51-58 | a stage starting with a digit and lacking "LMP month stage" passes every rule before the two patterns |
| Standardize.StageNumberOfDigits | src/seafront/standardize.py:59-63 | on digits followed by a non-digit, the greedy `(\d+)` match reads exactly those digits and succeeds exactly when the suffix follows them |
| Standardize.YearOldStage | src/seafront/standardize.py:59-61 | digits N then "-year-old stage", then anything, maps to N unless the stage contains "LMP month stage" |
| Standardize.MonthOldStage | src/seafront/standardize.py:62-64 | digits then "-month-old stage", then anything, maps to 0 unless the stage contains "LMP month stage" |
| Standardize.NumberedStages | src/seafront/standardize.py:59-64 | "<n>-year-old stage" maps to n for every natural n; "<n>-month-old stage" maps to 0 |
| Standardize.FilterAgeSources | src/seafront/standardize.py:51-67 | for any table and drop set, a stage gets an age exactly when it is a table key, or it passes the drop set, the "LMP month stage" test and the "Carnegie stage" prefix and then matches one of the two numbered patterns; every other stage gets none |
| Standardize.DefaultFilterAgeNonNegative | src/seafront/standardize.py:29-67 | every age `filter_age` produces is non-negative |
| Standardize.FilterObsWithAgeInt | src/seafront/standardize.py:69-73 | fails exactly when `development_stage` is absent (KeyError) or holds a non-text value (TypeError) |
| Standardize.FilterObsWithAgeIntSpec | src/seafront/standardize.py:69-73 | the result is exactly the input rows, in order, whose stage maps to an age; each has `age_int` set to that age and is otherwise unchanged |
| Standardize.FilterObsWithAgeIntValid | src/seafront/standardize.py:70-72 | the result is a well-formed table with an `age_int` column |
| Standardize.ClassifyIsTwoWay | src/seafront/standardize.py:13-21 | a column is either a `median_<col>` median column (an `n_` prefix or one of the four QC counts) or a `unique_<col>s_present` column; the three fallback branches agree |
| Standardize.WithoutExcluded | src/seafront/standardize.py:5-6 | the kept columns are exactly the input columns other than `observation_joinid` and `soma_joinid` |
| Standardize.Plan | src/seafront/standardize.py:8-21 | every aggregation entry is the classification of a kept, non-key column |
| Standardize.PlanSnoc | src/seafront/standardize.py:10-21 | one more column extends the plan by its classification, or by nothing for `dataset_id` |
| Standardize.OutputNameInjective | src/seafront/standardize.py:14-21 | different columns get different output names |
| Standardize.OutputNameIsNotKey | src/seafront/standardize.py:11-21 | no output name collides with `dataset_id` |
| Standardize.PlanDistinct | src/seafront/standardize.py:10-21 | no column is aggregated twice |
| Standardize.PlanOutputsCover | src/seafront/standardize.py:5-21 | an input column's output name is produced exactly when the column is neither a join id nor `dataset_id` |
| Standardize.PlanOutputsDistinct | src/seafront/standardize.py:5-26 | `dataset_id` and the output names are pairwise distinct for distinct input columns |
| Standardize.PlanOutputsSpec | src/seafront/standardize.py:5-21 | the output names are exactly those of the kept non-key columns, all distinct |
| Standardize.SummaryColumnsSpec | src/seafront/standardize.py:5-26 | the summary's columns are `dataset_id` first, then one output per non-excluded non-key input column and no other, all distinct; none is derived from the join ids |
| Standardize.BuildPlan | src/seafront/standardize.py:8-21 | the loop over the kept columns builds exactly the plan `Plan` describes |
| Standardize.SummarizeObs | src/seafront/standardize.py:4-27 | the column loop followed by the grouping returns exactly `Summarize(obs)`, errors included; rows with a missing `dataset_id` take part in no group and raise nothing |
| Standardize.GroupAndAggregate | src/seafront/standardize.py:23-26 | the grouped table has the key column then the outputs, and one row per group key carrying that key and one cell per plan entry |
| Standardize.TextCountCellFails | src/seafront/standardize.py:13-26 | a text cell of a kept count-like column, in a row that has a `dataset_id`, makes the median raise |
| Standardize.MedianFailsOnTextCountCell | src/seafront/standardize.py:13-26 | the median raises only because of such a cell, and the column the error names is a kept count-like column holding one |
| Standardize.SummarizeErrors | src/seafront/standardize.py:26 | `summarize_obs` raises KeyError exactly when `dataset_id` is absent, and raises at all exactly when `dataset_id` is absent or a kept count-like column holds text in a row whose `dataset_id` is present |
| Standardize.UngroupedTextIgnored | src/seafront/standardize.py:13-26 | a table whose only text `raw_sum` lies in a row without a `dataset_id` summarises without error |
| Standardize.SummarizeRaisesOnText | src/seafront/standardize.py:13-26 | such a text cell makes `summarize_obs` raise |
| Standardize.SummarizeTextError | src/seafront/standardize.py:13-26 | with `dataset_id` present, the only error is a TypeError naming a kept count-like column that holds text in a grouped row |
| Standardize.GroupKeysSorted | src/seafront/standardize.py:26 | the group keys are strictly ascending in pandas' key order |
| Standardize.GroupKeysMembers | src/seafront/standardize.py:26 | a value is a group key exactly when it is a non-missing `dataset_id` of some row |
| Standardize.GroupKeysSpec | src/seafront/standardize.py:26 | the group keys are the distinct non-missing `dataset_id` values, strictly ascending, each present in some row and every present id among them |
| Standardize.GroupRowsSpec | src/seafront/standardize.py:26 | the grouped rows' keys are strictly ascending non-missing ids, each taken from some row, and every present id has a row; each row has one cell per output column |
| Standardize.SummaryRowsSpec | src/seafront/standardize.py:11-26 | exactly one summary row per distinct non-missing `dataset_id`, ascending, each with one cell per output column |
| Standardize.GroupValuesSpec | src/seafront/standardize.py:26 | a group's values of a column are those of exactly the rows with that key, one per such row, in row order |
| Standardize.IntsOfCounts | src/seafront/standardize.py:14 | the integers a median is taken over are the group's integer cells, each as often as it occurs |
| Standardize.GroupMedian | src/seafront/standardize.py:14 | a group's median is the median of any list holding the group's non-missing integers with their multiplicities |
| Standardize.UniqueJoinSpec | src/seafront/standardize.py:17 | the unique-values cell is the `", "`-join of the one strictly ascending list of the distinct texts of the non-missing values |
| Standardize.UniqueJoinExample | src/seafront/standardize.py:17 | `["B","A","B"]` gives "A, B" |
| Standardize.SummaryCellSpec | src/seafront/standardize.py:13-26 | a count-like column's cell is the median of any list holding exactly the group's integer values with their multiplicities; any other column's cell is the `", "`-join of the one strictly ascending list of the group's distinct non-missing texts |
| Standardize.MedianExamples | src/seafront/standardize.py:14 | `[10, 20, 30]` has median 20 and `[2000, 4000]` median 3000 |
| Tables.DropMissing | src/seafront/standardize.py:17 | `dropna` keeps exactly the non-missing values |
| Tables.DropMissingCounts | src/seafront/standardize.py:14 | `dropna` keeps each non-missing value as often as it occurs and drops every missing one |
| Tables.ValueLessIsStrictTotalOrder | src/seafront/standardize.py:26 | the order `groupby` sorts keys in is a strict total order |
| Tables.MedianPermutationInvariant | src/seafront/standardize.py:14 | the median depends only on the multiset of values |
| Tables.MedianBounds | src/seafront/standardize.py:14 | a median exists for any non-empty group and lies between two of its values |
| Fetch.UpdatedLinesSpec | src/seafront/fetch.py:21-22 | the last line written is `"<checksum> <filename>\n"`; the others are exactly the old lines not recording the file, unchanged and in order |
| Fetch.EntryMentions | src/seafront/fetch.py:21-22 | the appended entry itself records the file |
| Fetch.UpdateLedgerReadsBack | src/seafront/fetch.py:17-24 | for a missing, empty or newline-terminated ledger, the text written reads back as exactly the lines written |
| Fetch.FirstUpdate | src/seafront/fetch.py:15-24 | a missing ledger becomes exactly the one entry line |
| Fetch.UpdateLedgerIdempotent | src/seafront/fetch.py:21-22 | updating twice with the same file and digest gives the ledger of updating once |
| Fetch.DropRecordsOf | src/seafront/fetch.py:21 | the filtering comprehension keeps exactly the lines that do not record the file, in order |
| Fetch.WriteLines | src/seafront/fetch.py:23-24 | `writelines` writes the concatenation of the lines |
| Fetch.UpdateMentionedLine | src/seafront/fetch.py:19-24 | a one-line ledger that records the file is replaced by the new entry alone |
| Fetch.KeepOthersOfOne | src/seafront/fetch.py:21 | a line is kept exactly when it does not record the file |
| Fetch.UnterminatedLastLineIsJoined | src/seafront/fetch.py:19-24 | a ledger whose last line lacks a newline gets the entry glued onto that line |
| Fetch.JoinedLineIsDroppedNextTime | src/seafront/fetch.py:21-22 | such a glued line is dropped as a whole by the next identical update, so the two updates differ from one |
| Fetch.CacheFileNameSpec | src/seafront/fetch.py:35 | the cache name starts "adata_", ends ".h5ad", has no space when the id has none, and is never `.checksums` |
| Fetch.BinomialCacheName | src/seafront/fetch.py:26-35 | "Genus species" becomes `adata_genus_species_<id>.h5ad` |
| Fetch.MissingIdRejected | src/seafront/fetch.py:32-34 | a missing or empty dataset id raises ValueError with the directory untouched |
| Fetch.CacheHit | src/seafront/fetch.py:38-48 | a cached file is loaded when no checksum is given or the digest matches: no download, no ledger change |
| Fetch.StaleCacheRedownloadIsNotVerified | src/seafront/fetch.py:40-44 | on a digest mismatch the file is removed and downloaded again, its digest recorded, and the call succeeds without comparing against the checksum |
| Fetch.FreshDownload | src/seafront/fetch.py:49-68 | an uncached file is downloaded, written and its digest recorded; RuntimeError exactly when a given checksum differs, with file and entry kept |
| Fetch.SecondCallIsCached | src/seafront/fetch.py:38-49 | after a successful call the file is cached with the returned data; when no checksum is given or the data matches it, calling again downloads nothing and returns the same data |
| Fetch.CacheDir.UpdateChecksums | src/seafront/fetch.py:13-24 | the read-filter-append-write loop leaves the ledger equal to `UpdateLedger` of the old one, and nothing else changes |
| Fetch.CacheDir.FetchAndSaveData | src/seafront/fetch.py:51-71 | the new directory state and result are those of `FetchAndSave` |
| Fetch.CacheDir.Fetch | src/seafront/fetch.py:26-49 | the new directory state and result are those of `FetchCellxgene` |
| Meta.FilterExperimentsErrors | src/seafront/meta.py:48 | a missing `experiment` or `raw_sum` column raises KeyError; text in `raw_sum` raises TypeError |
| Meta.FilteredValid | src/seafront/meta.py:50 | the filtered table is well formed |
| Meta.FilterExperimentsSpec | src/seafront/meta.py:48-50 | the kept rows are exactly those, in order and unchanged, whose experiment is present and has median `raw_sum` at least the threshold |
| Meta.FilterKeepsWholeExperiments | src/seafront/meta.py:48-50 | rows of one experiment are all kept or all dropped |
| Meta.ThresholdIsInclusive | src/seafront/meta.py:47-49 | a row whose experiment's median equals the default threshold 3000 is kept |
| Meta.ExampleMedian | src/seafront/meta.py:48 | an experiment with `raw_sum` values 2000 and 4000 has median exactly 3000 |
| Meta.ThresholdExample | src/seafront/meta.py:47-49 | both rows of that experiment pass the default threshold |
| Meta.FilterExperimentsSummary | src/seafront/meta.py:51-52 | the summary is `summarize_obs` of the kept rows: each summarised dataset has a kept row and each kept id is summarised |
| Meta.DistinctNonMissing | src/seafront/meta.py:66 | `dropna().unique()` holds each non-missing value exactly once |
| Meta.SampleSpec | src/seafront/meta.py:66-70 | three distinct positions drawn from the distinct present ids give three distinct present ids |
| Meta.TooFewDatasetsRejected | src/seafront/meta.py:66-68 | fewer than three ids raise ValueError before any gene list is fetched or file written |
| Meta.CheckVarConsistencySpec | src/seafront/meta.py:70-91 | three distinct present ids are fetched, the first being the reference; the gene file is written exactly when both other lists equal it as ordered lists, and then holds it; otherwise no file changes |
| Meta.GeneFileLines | src/seafront/meta.py:84-88 | the gene file reads back as one line per gene, in order |
| Meta.WriteGenes | src/seafront/meta.py:86-88 | the write loop produces exactly the gene-file text, `<gene>\n` per gene in order |
| Meta.MetaDir.FetchGenes | src/seafront/meta.py:73-77 | returns the dataset's gene list and records the lookup |
| Meta.MetaDir.CheckVarConsistencyAndSave | src/seafront/meta.py:65-91 | the comparison loop and the line-writing loop give the state and result of `CheckVarConsistency` |
| Datasets.Download | src/seafront/datasets.py:18-22 | any name but "ainciburu2023" raises ValueError "Unknown dataset: <name>"; that one yields the combined, annotated cells |
| Datasets.H5FilesSpec | src/seafront/datasets.py:58-61 | the matrices read are exactly the listed `.h5` files, in ascending order |
| Datasets.SampleIdOfMatrixFile | src/seafront/datasets.py:65 | `<sid>_filtered_feature_bc_matrix.h5` has sample id `<sid>` when the suffix occurs only at the end |
| Datasets.SampleIdOfOtherFile | src/seafront/datasets.py:65 | a file name without the suffix is its own sample id |
| Datasets.ObsNameInjective | src/seafront/datasets.py:72 | `<barcode>_<sample>` determines barcode and sample when barcodes hold no `_` |
| Datasets.ObsNameDistinct | src/seafront/datasets.py:72 | different barcode or sample gives a different cell name |
| Datasets.CombinedOrigin | src/seafront/datasets.py:72-76 | every combined cell carries the sample id and batch index of the matrix it came from |
| Datasets.CombinedNamesDistinct | src/seafront/datasets.py:72-76 | distinct sample ids and distinct `_`-free barcodes per matrix give pairwise distinct cell names |
| Datasets.CombineSamples | src/seafront/datasets.py:62-76 | the loop over sorted `.h5` files yields the concatenation of the renamed cells of each matrix, in order |
| Datasets.PatientIdOfCell | src/seafront/datasets.py:93-96 | a cell's patient id is the lower-cased text after its sample id's last `_`, whatever the barcode, and holds no `_` |
| Datasets.PatientIdOfSample | src/seafront/datasets.py:93-96 | a sample `<prefix>_<patient>` gives patient id `lower(patient)` |
| Datasets.PatientAgeBounds | src/seafront/datasets.py:78-91 | every mapped age lies between 19 and 83 |
| Datasets.PatientAgeExample | src/seafront/datasets.py:78-97 | a cell of sample `<prefix>_MDS1` has age 71 |
| Datasets.MetadataKeyOfName | src/seafront/datasets.py:100-102 | the name `<bc>-1_<sample>` gives key `<bc>_<sample>`, the sample not lower-cased |
| Datasets.MetadataKeyMissing | src/seafront/datasets.py:101-102 | a name with no `-`, or whose first `-` is not followed by `1_`, has no key |
| Datasets.MetadataKeyShape | src/seafront/datasets.py:101-102 | every key found is `<barcode>_<patient>` for a name `<barcode>-1_<patient>`, possibly followed by one newline |
| Datasets.AnnotateSpec | src/seafront/datasets.py:96-104 | annotation fails exactly when some cell's key is missing or unknown; otherwise one row per cell, in order, with its patient id, age, key and the key's cell type |

## Left out

- The floating-point representation is not modelled. Cells are integers, strings or missing. Medians are exact rationals, while pandas averages the two middle values in float64. `raw_mean_nnz` and `raw_variance_nnz` are floats in the census, and float cells are not modelled.
- I/O is replaced by explicit state or parameters:
  - the census client (`open_soma`, `get_anndata`);
  - `ad.read_h5ad` and `adata.write`;
  - parquet caching in `load_census_obs` (src/seafront/meta.py:35-45);
  - `get_var_names_for_dataset` (src/seafront/meta.py:55-63);
  - all `print` logging.
- `_file_checksum` (src/seafront/fetch.py:6-11) is a SHA-256 digest (FIPS 180-4) of the file bytes. It is the parameter `hash`, and its block loop only bounds memory.
- `get_cellxgene_paper_reference` (src/seafront/meta.py:11-32) is an HTTP request to an external API and is not part of this model.
- `random.sample` (src/seafront/meta.py:70) is the caller's draw of three distinct positions.
- The unresolved name `seafront` at src/seafront/meta.py:51 would raise NameError, because the module never imports it. The model performs the evidently intended `summarize_obs` call instead.
- Meta.FilterExperimentsByMedianRawSum: pandas' object-dtype median is modelled as raising TypeError whenever any `raw_sum` cell is text. pandas may raise it in other shapes, or coerce some mixed columns.
- The tar and gzip extraction, the metadata-table reads, `read_10x_h5`, the `.h5ad` write and the warnings filter are not modelled (src/seafront/datasets.py:9-15, 28-56, 68, 108). The metadata cell types are a parameter: one label per key. A duplicated metadata index is not modelled.
- `var_names_make_unique` and its assertion (src/seafront/datasets.py:69-70) are an anndata library routine on the gene axis. The model follows only the cell axis.
- `ad.concat` and `pd.concat` of an empty list raise in the libraries. The model combines no matrices into no cells.
- `str.lower` and the regular expression `\d` cover ASCII only. `readlines` splits at `\n` only; universal newlines are not modelled.
- `summarize_obs` uses `observed=False` (src/seafront/standardize.py:26). For a categorical `dataset_id`, this would add rows for unused categories. Keys are plain values here, so every key occurs.
- An aggregation dictionary with no entries arises for a table holding only `dataset_id` and the join ids. pandas may raise on it; the model gives the key column alone.
- Standardize.FilterObsWithAgeIntSpec: `age_int` is an unbounded integer. The source casts it with `.astype('Int64')` (src/seafront/standardize.py:71). When some stage maps to None, the mapped column is float64 first, so an age of 2^53 or more is rounded; an age beyond the 64-bit range makes the cast raise. Neither is modelled.
- Fetch.UpdateLedgerIdempotent: proved only for a ledger that is missing, empty or ends with a newline. A ledger whose last line lacks a newline has the entry glued onto that line (Fetch.UnterminatedLastLineIsJoined). The next identical update then drops the glued line, so twice differs from once (Fetch.JoinedLineIsDroppedNextTime). The source's own writes always end with a newline.
- Standardize.TextCountCellFails: pandas casts an object column holding only integers and numeric text to float for the median, so a group like `[1, "5"]` gets 3.0. The model treats any grouped text cell in a count-like column as raising TypeError.
- Standardize.SummarizeErrors: for the same reason, a group that mixes integers with numeric text is counted as an error here, while pandas returns its float median.
- Standardize.SummarizeRaisesOnText: for the same reason, the raise is promised for every grouped text cell, including numeric text mixed with integers, which pandas would average.
- Fetch.FetchCellxgene: the download and the file writes always succeed. A failing download or write is not modelled. Neither is the state a failure leaves behind: after a checksum mismatch the stale file is already removed, so a failed re-download leaves no cached file.
- Meta.CheckVarConsistencySpec: writing `meta/census_var.txt` fails in the source when the `meta` directory does not exist. The model has no directories under `meta/` and always writes.
