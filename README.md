# Moroccan economic indicators ETL — a Dafny model

This project models the three stages of a small ETL pipeline for World Bank
indicators about Morocco. Each stage is modelled over in-memory values.

- **Collection** (`collector.dfy`, module `Collector`). The collector requests
  twenty-one indicators, one by one. Each response is shaped into observation
  records, and null values are dropped. Any failure empties that indicator
  only. The records are then routed by display name into eight buckets:
  - four buckets are overwritten (`pib_total`, `taux_croissance`,
    `inflation`, `taux_chomage`);
  - three are extended (`commerce_exterieur`, `secteur_bancaire`,
    `dette_publique`);
  - every other name extends `pib_secteur`.

  A metadata block is added last. The routing loop is a method, `Dispatch`,
  whose invariant ties the bucket map to a specification function,
  `Snapshot`.
- **Conversion** (`conversion.dfy`, module `Conversion`). The sector-share and
  public-debt rows become monetary amounts: `valeur * G / 100`, where `G` is
  the GDP of the first `pib_total` row with the same year. Nulls are filled
  with 0 first. The converter also names the output file (`.json` becomes
  `_conv.json`) and stamps the document with `date_conversion`.
- **Loading** (`loader.dfy`, module `Loader`). A `Warehouse` class holds the
  year dimension, the sector dimension and the fact table. Its methods:
  - insert the years and sectors that are not yet present, in one batch each,
    with auto-increment keys;
  - then append one fact per (GDP row, sector) pair, with the surrogate keys
    resolved and the rate values looked up first-match-or-zero.

Shared types live in `document.dfy` (module `IndicatorDocument`: observation
records, the eight buckets, the document) and `wrappers.dfy` (`Option`,
`Result`).

Values are Dafny `real`, an exact idealisation of the source's floats. The HTTP
request is an oracle parameter `fetch`. The database tables are sequences
held by the `Warehouse` object. Timestamps are string parameters.

A document whose `dette_publique` list is empty does not convert:
`pd.DataFrame([])` has no `valeur` column, so `conversion.py:37` raises
`KeyError` and the conversion fails.
`Conversion.EmptyDebtFails` states this outcome.

## Model

| member | source | states |
|---|---|---|
| IndicatorDocument.FirstYearIndex | conversion.py:42 | the position returned holds the year and no earlier row does; None exactly when no row holds it |
| Collector.Keep | collect_hcp_data.py:36-42 | every kept record has a value, the given unit, `pays = "Maroc"` and the given indicator name; never more records than entries |
| Collector.GetWorldBankData | collect_hcp_data.py:31-45 | records carry the unit, country and name; a non-empty result implies the request succeeded, element `[1]` was a list, and every non-null entry parsed |
| Collector.KeepAppend | collect_hcp_data.py:36-42 | shaping commutes with concatenation, so records come out in input order |
| Collector.KeepComplete | collect_hcp_data.py:36-42 | every entry with a non-null value yields its record |
| Collector.KeepSound | collect_hcp_data.py:36-42 | every record comes from an entry with a non-null value |
| Collector.WorldBankDataOutcome | collect_hcp_data.py:35-45 | for a well-formed body, the result is exactly the shaped non-null entries; one unparsable non-null entry empties the indicator |
| Collector.RouteOf | collect_hcp_data.py:162-179 | a route is an assignment exactly when its bucket is one of the four 1:1 buckets |
| Collector.Dispatch | collect_hcp_data.py:159-179 | after the loop, the bucket map equals the walk specification `Snapshot` over the whole catalogue |
| Collector.GetIndicateurs | collect_hcp_data.py:148-188 | the result is present and has exactly the eight bucket keys, metadata with source "Banque Mondiale", and no `date_conversion`; each 1:1 bucket equals its indicator's records; each extended bucket is its group's records concatenated in catalogue order; the total record count equals the sum of per-indicator counts |
| Collector.MainOutcome | collect_hcp_data.py:210-215 | saves exactly when a document was collected, and saves that document |
| Collector.CollectAndSave | collect_hcp_data.py:204-215 | every run reaches the save step, and the document saved is the collected one: the eight buckets with the contents `GetIndicateurs` states, metadata from "Banque Mondiale" stamped with the collection time, no conversion stamp |
| Collector.SnapshotStart | collect_hcp_data.py:148-157 | before the walk, all eight buckets are empty |
| Collector.SnapshotAssign | collect_hcp_data.py:162-169 | an assigned indicator replaces its bucket and leaves the other seven unchanged |
| Collector.SnapshotExtend | collect_hcp_data.py:170-179 | an extending indicator appends to its bucket and leaves the other seven unchanged |
| Collector.CatalogueTracked | collect_hcp_data.py:159-179 | after the catalogue walk, each bucket holds its group's records and nothing is lost or duplicated in the total count |
| Collector.CatalogueCollected | collect_hcp_data.py:159-188 | the document built from the walk over the whole catalogue, with the run's metadata and no conversion stamp, is the collected one |
| Collector.ExpectedStep | collect_hcp_data.py:162-179 | one step of the walk overwrites, extends or leaves a bucket, according to the indicator's route |
| Collector.GatheredAppend | collect_hcp_data.py:170-179 | an extended bucket's content splits over a split of the catalogue |
| Collector.CountAppend | collect_hcp_data.py:159-179 | record counts add up over a split of the catalogue |
| Collector.FlatCount | collect_hcp_data.py:159-179 | the concatenated records number the summed counts |
| Collector.GatheredAll | collect_hcp_data.py:170-179 | a segment routed wholly to a bucket contributes all its records in order |
| Collector.GatheredNone | collect_hcp_data.py:170-179 | a segment with nothing routed to a bucket contributes nothing to it |
| Collector.LatestSkip | collect_hcp_data.py:162-169 | indicators not assigned to a bucket leave its content unchanged |
| Collector.CountOne | collect_hcp_data.py:159-160 | one indicator contributes its own record count |
| Collector.CoreRoutes | collect_hcp_data.py:162-169 | each of the four 1:1 indicators is assigned to its own bucket |
| Collector.SectorSharesRoute | collect_hcp_data.py:178-179 | Agriculture, Industrie and Services fall through to `pib_secteur` |
| Collector.TradeRoute | collect_hcp_data.py:170-171 | the four trade indicators extend `commerce_exterieur` |
| Collector.BankingRoute | collect_hcp_data.py:172-175 | the six banking indicators extend `secteur_bancaire` |
| Collector.DebtRoute | collect_hcp_data.py:176-177 | the three public-debt codes and the debt service extend `dette_publique` |
| Collector.CatalogueRoutes | collect_hcp_data.py:53-145 | every catalogue group is routed as a whole: the core is assigned and each other group extends its own bucket |
| Collector.LatestCore | collect_hcp_data.py:162-169 | after the four core indicators, each 1:1 bucket holds its own indicator's records |
| Collector.LayoutAssigned | collect_hcp_data.py:162-169 | the extended groups after the core leave the 1:1 buckets unchanged |
| Collector.LayoutExtended | collect_hcp_data.py:170-179 | an extended bucket collects the core's, then each group's contribution, in catalogue order |
| Collector.LayoutCount | collect_hcp_data.py:159-179 | the eight bucket sizes add up to the catalogue's record count |
| Collector.CatalogueAssigned | collect_hcp_data.py:55-70 | each 1:1 bucket equals its single catalogue indicator's records |
| Collector.CatalogueSectorTrade | collect_hcp_data.py:71-100 | `pib_secteur` and `commerce_exterieur` are their groups' records in catalogue order |
| Collector.CatalogueBankingDebt | collect_hcp_data.py:102-144 | `secteur_bancaire` and `dette_publique` are their groups' records in catalogue order |
| Collector.SectorGathered | collect_hcp_data.py:178-179 | only the sector-share group lands in `pib_secteur` |
| Collector.TradeGathered | collect_hcp_data.py:170-171 | only the trade group lands in `commerce_exterieur` |
| Collector.BankingGathered | collect_hcp_data.py:172-175 | only the banking group lands in `secteur_bancaire` |
| Collector.DebtGathered | collect_hcp_data.py:176-177 | only the debt group lands in `dette_publique` |
| Conversion.GdpFor | conversion.py:42 | the GDP is present exactly when some GDP row has the year; it is then the filled value of the first such row |
| Conversion.ConvertRow | conversion.py:34-55 | year, country and indicator are kept; unit becomes "USD"; the value is null-filled; the monetary value is value × G / 100; a null row gives 0 and 0 |
| Conversion.ConvertRows | conversion.py:41-51 | succeeds exactly when every row's year has a GDP row; then every row is converted in order; otherwise it reports the first row without one |
| Conversion.ConvertSectorsAndDebt | conversion.py:28-62 | succeeds exactly when the three lists exist, are non-empty, and all their years are known; only `pib_secteur` and `dette_publique` change, each converted row by row; every error names a missing key, an empty list, or a year with no GDP row |
| Conversion.ConvertRowStable | conversion.py:41-55 | converting a converted row again changes nothing |
| Conversion.ConvertRowsStable | conversion.py:41-51 | converting converted rows again gives the same rows |
| Conversion.ConvertTwice | conversion.py:28-62 | a converted document fed back to the converter comes out unchanged |
| Conversion.ConvertExample | conversion.py:41-55 | with a GDP of 1000, a 10 % share gives 100 USD, a 60 % debt gives 600 USD, and a null share gives 0 |
| Conversion.EmptyDebtFails | conversion.py:32-37 | an empty `dette_publique` list makes the conversion fail |
| Conversion.MissingYearFails | conversion.py:42 | a sector row whose year has no GDP row makes the conversion fail |
| Conversion.ReplaceAllNoOccurrence | conversion.py:88 | a string with no occurrence of the pattern is returned unchanged |
| Conversion.ReplaceAllCopies | conversion.py:88 | before the first occurrence of the pattern, the text is copied unchanged |
| Conversion.ReplaceAllFirst | conversion.py:88 | the first occurrence of the pattern is replaced, the text before it is kept, and replacement goes on after it: every occurrence found left to right is replaced |
| Conversion.ReplaceAllSuffix | conversion.py:88 | replacing `.json` in a name ending in `.json` yields a name ending in the replacement |
| Conversion.OutputName | conversion.py:85-88 | a name already ending in `_conv.json` is kept; any other has every `.json` replaced by `_conv.json` (with `ReplaceAllFirst`, left to right); every `.json` name maps to a name ending in `_conv.json`; a name containing no `.json` is kept unchanged |
| Conversion.OutputNameEveryOccurrence | conversion.py:88 | every `.json` in a name is replaced, not only the last: `a.json.json` is written to `a_conv.json_conv.json` |
| Conversion.OutputNameIdempotent | conversion.py:85-88 | for `.json` names, applying the rule twice equals applying it once |
| Conversion.StampConversion | conversion.py:20 | saving adds exactly the key `date_conversion`, set to the saving time, and changes nothing else |
| Conversion.ConvertFile | conversion.py:74-93 | a file is written exactly when its conversion succeeds, under the output name (ending in `_conv.json` for a `.json` file), with `date_conversion` among its keys and no other key added |
| Loader.SelectNew | BD_add.py:39 | the chosen years are distinct and are exactly the candidates not already present; none when all are present |
| Loader.NewRows | BD_add.py:45-49 | a batch insert appends one row per key, with consecutive surrogate keys in batch order |
| Loader.AppendRows | BD_add.py:45-49 | appending a batch adds exactly its keys, keeps surrogate keys increasing, and keeps natural keys unique when the batch is distinct and new |
| Loader.FirstRow | BD_add.py:83 | the row returned has the key and no earlier row does; None exactly when no row has the key |
| Loader.CandidateYears | BD_add.py:30 | the candidate years are exactly the years of the GDP rows |
| Loader.Missing | BD_add.py:64 | the names kept are exactly those not already present; the result is duplicate-free when the list is |
| Loader.AppendMissing | BD_add.py:64-74 | inserting the missing names makes every name present, inserts nothing when none is missing, and keeps keys unique and surrogate keys increasing |
| Loader.MissingAppend | BD_add.py:64 | the filter keeps list order: it distributes over concatenation |
| Loader.FirstValeurOr0 | BD_add.py:89-92 | the value of the first row of that year, or 0 when no row has the year |
| Loader.PibValueFound | BD_add.py:89 | a fact's GDP value is always found: it is never the default |
| Loader.SectorFactsShareValues | BD_add.py:85-102 | the three sector facts of a GDP row differ only in their sector key |
| Loader.RepeatedYearDuplicates | BD_add.py:82-102 | two GDP rows of the same year give identical facts, so a repeated year duplicates fact rows |
| Loader.OnlyBucketsFault | BD_add.py:81-92 | once every year and sector is registered, key resolution cannot fail; only a missing rate bucket can |
| Loader.AssemblyOutcome | BD_add.py:81-107 | with every year and sector registered, assembly succeeds exactly when there are no GDP rows or all three rate buckets are present |
| Loader.Warehouse.AddNewYears | BD_add.py:30-52 | the inserted years are distinct and are exactly the GDP years not yet present; they are appended with fresh keys; afterwards every GDP year is present; nothing is inserted when the difference is empty; unique keys and increasing surrogate keys are preserved |
| Loader.Warehouse.AddNewSectors | BD_add.py:54-77 | the inserted sectors are the fixed list minus those present, in list order; afterwards all three are present; nothing is inserted when none is new; unique keys and increasing surrogate keys are preserved |
| Loader.Warehouse.AssembleFacts | BD_add.py:81-102 | fails on a missing `pib_total`; otherwise succeeds exactly when no (GDP row, sector) step faults; on success holds 3 facts per GDP row, the fact of step (i, j) at position 3i + j; on failure reports the first faulting step's error |
| Loader.Warehouse.Load | BD_add.py:30-107 | keeps the dimension tables valid (increasing surrogate keys, no natural key twice); a missing `pib_total` changes nothing; otherwise the old dimension rows are kept unchanged and followed by fresh rows for exactly the new GDP years and the missing sectors, so every GDP year and every sector ends up present, and nothing is inserted when nothing is new; success exactly when there are no GDP rows or all rate buckets exist; on success the facts are appended after the old ones, 3 per GDP row, the fact of step (i, j) at position 3i + j; on failure the fact table is unchanged |
| Loader.Warehouse.LoadTwice | BD_add.py:30-107 | loading the same document twice: both runs succeed exactly when one run does; the dimension tables end as one run leaves them, so the second run inserts no year and no sector; on success the second run appends the same facts as the first again, and on failure the fact table is unchanged |
| Loader.FactsUpToUnique | BD_add.py:81-107 | the facts assembled are determined by the document and the dimension tables |
| Loader.RerunFacts | BD_add.py:104-107 | two appends of a whole assembly against the same dimension tables leave the old rows followed by the same block twice |

## Left out

- The HTTP session, retries, timeouts and URL building are not modelled. The response of each request is the oracle `fetch`, from indicator code to `Failed` or the parsed top-level JSON list.
- The `print` calls and logging are not modelled.
- File and directory I/O is not modelled: reading and writing JSON, `os.makedirs`, `os.listdir`, `os.remove` and existence checks. Only the output-name rule and the added `date_conversion` key are kept. `ConvertFile` models one pass of the directory loop. A failing file, which aborts the whole loop in the code, is an `Err` result here.
- The database engine is not modelled. `read_sql`, `to_sql` and the SQL strings become sequences held by `Loader.Warehouse`. A SELECT without ORDER BY is modelled as returning rows in insertion order, and surrogate keys as an auto-increment counter.
- `datetime.now()` is not modelled: the timestamps are string parameters.
- Floating-point rounding and pandas dtype coercion are not modelled: values are exact `real`s.
- `indicateurs.py` is not part of this model. It is an HTML scraper, downloader and Excel preview, all I/O.
- The script structure of `BD_add.py` is not modelled. Lines 81-109 sit outside the `else` of the existence check, so a missing file ends in `NameError`. The model starts from a loaded document.
- Top-level keys other than the eight buckets, `metadata` and `date_conversion` are not representable. Each bucket is a `Bucket` value.
- The in-place mutation of the caller's dict by the converter and by `save_json` is not modelled. Both are functions returning the updated document, so aliasing is not captured.
- The position of `date_conversion` in the written JSON object is not modelled. Keys are a set.
- Loader.Warehouse.AddNewYears: the order in which Python iterates the year set is not specified. The model picks each next year by an arbitrary choice and states only what holds for every order.
- Loader.Warehouse.Load: a run with no GDP rows appends an empty frame. The model treats that as appending nothing.
- Collector.GetIndicateurs: the top-level `except` that returns None is unreachable once every per-indicator failure is absorbed. The model always returns a document and states so.
