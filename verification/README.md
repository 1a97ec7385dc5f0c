# Verified model of the data pipeline

This project models the algorithmic core of a platform that moves geodata from a source, through a
staging table, to a published table, and proves what that core promises. It is written in Dafny 4.11;
`dafny verify dfyconfig.toml` checks all of it.

## What is modelled

- **The transformation compiler** (`Models`, `Sql`, `SqlTransform`, `TransformMeaning`, `RowConservation`,
  `OutputNames`, `StagingPreview`, `DataDatabase`, `PreviewRefinesRun`). A saved configuration of columns,
  filters, a join and a geometry is compiled into one SELECT. The SELECT has a syntax tree and a meaning over
  rows; the configuration has a meaning of its own, with no SQL in it; the main theorem is that they agree.
  Around it: how many rows there are, when names clash, what the preview shows of what a run writes, what the
  preview with excluded columns adds, and when the prediction made before a run is right.
- **LIKE** (`Like`, `FilterSql`, `RunIds`). One engine, used for escaped user filters and for unescaped run-id
  patterns.
- **Two paging loops** (`IntegrityLinks`, `AirflowClient`). A listing that filters after the query and still
  pages exactly, and a loop that drains the runs of a DAG by querying again.
- **Table transfer** (`DefinitionJson`, `TableTransfer`). One JSON line, then rows, under any chunking.
- **Two state machines with failing steps** (`GeoServerAcl`, `DataSharing`, `DataIds`, `MoveDataset`). External
  systems are classes whose methods may fail at any call.
- **Printers and tree edits** (`ConnectionString`, `TableNames`, `XmlPaths`, `Metadata`). What is printed is read
  back by a parser written from the standard; XML edits are proved from the laws of a lens.

`DataSchemas`, `Text`, `Sequences` and `Wrappers` hold what the other modules share.

Code that updates variables or fields is modelled by methods with loops and by classes, each proved against a
function; the theorems are about those functions.

## Hypotheses

- Rows are sequences in one fixed order. SQL promises multisets, so a statement about order is relative to one
  order of the stored rows, the same for the run and the preview.
- The functions of PostgreSQL and PostGIS (text and number conversion, `ST_SetSRID`, `ST_MakePoint`,
  `ST_AsText`, `ST_AsGeoJSON`) are parameters. `ST_AsGeoJSON` gives a non-empty text.
- Case folding is per character, fixes `\`, `%` and `_`, and maps nothing else onto them; for run ids it also
  fixes the characters of a UUID.
- `strip`, `upper`, `lower` and `\d` are modelled on ASCII. Unicode NFKD is not modelled: `SanitizeName` starts
  from the decomposed name.
- A listing is frozen while it is paged, ties of `created_at` included, and so are the tables that exist.
- While Airflow runs are drained they may end or disappear, and none appears or becomes active again. The server
  refuses a fixed set of runs.
- Run ids follow the four conventions, with 36-character dataset ids of hexadecimal digits and hyphens.
- gzip is lossless. Data after the end of the gzip stream is detected only when it comes in a later read.
- A dictionary built from a record with a repeated label keeps the last value, and repeated labels reach PostgreSQL
  as they are: SQLAlchemy may render a later duplicate of a label under a suffixed name, which is not modelled.
- A text that `ST_SetSRID` is given reads as a geometry.
- Output labels have at most 63 bytes, so that PostgreSQL truncates none of them.
- External systems fail in two ways: a call fails for a reason of the system's own, which is recorded, or it is
  refused for a reason the model knows. An error is always traced back to one or the other.

## Where the code does less than its documentation says

- `geom` is always emitted under its own name while the clash list uses its new name, so a renamed geometry gives
  two columns called `geom`, or a preview that does not build (`RenamedGeomClashes`, `LabelsDistinctExactly`,
  `RenamedGeomBreaksThePreview`, `RevealBuildsExactly`).
- A geometry is referred to by the bare name of its table, which is ambiguous when both tables share it
  (`ResolutionIsExact`, `SharedNameIsRejected`). Staging tables get names made from fresh UUIDs
  (apps/backend/src/api/routes/ingestion/staging.py:67-73), so this takes a joined table that was given that
  same name: a limit of the compiler rather than something its users meet.
- A kept column called `id_datafeeder` makes the run fail on its primary key (`IdColumnBreaksTheRun`,
  `RunSucceedsExactly`), and so does a column called `geom` that holds texts, on its spatial index
  (`TextGeomBreaksTheRun`).
- The prediction of a geographic result is wrong when the saved columns leave `geom` out, or list it both kept and
  excluded (`OmittedGeomIsPredicted`, `PredictionIsRightExactly`).
- The identifier pattern ends with `$`, which in Python also matches before a final newline (`NewlineIsAccepted`,
  `ValidatedExactly`).
- The drain loop gives up on a page full of refused runs (`ScheduledRunIsLeft`, `DrainIsCompleteExactly`).
- A definition line whose newline comes after the allowed size is accepted or not depending on the chunks
  (`LongLineDependsOnTheCut`, `SplitIgnoresChunkingExactly`).
- When there is nothing to move, the datastore of the target workspace is not checked (`UncheckedDatastore`,
  `CheckedExactly`).
- Workspace and layer names are sanitized on creation only, so names that are not identifiers, or that end with an
  underscore, are recorded differently (`TitleCutAfterUnderscore`, `RecordedLayerExactly`). For the same reason the
  datastore of such a workspace is never found again, and publishing there a second time under another schema
  overwrites it, although an existing datastore is said never to be repointed. This takes two publications of an
  organization like `acme_` with `USE_ORG_SCHEMA` turned on in between (`SettingChangeRepoints`, `RepointedExactly`).
- Adding online resources may create empty containers without setting the flag that triggers the upload
  (`BareDistributionChanges`, `EmptyContainersExactly`, `UnsentChangeExactly`).

## Model

| member | source | states |
|---|---|---|
| SqlTransform.BuildTransformationSelect | libs/data_manipulation/src/data_manipulation/transformation/sql_transform.py:247-353 | The compiler: for every configuration, staging table and joined table it returns the SELECT (or the first error, in the order of the checks) that the later theorems give a meaning to |
| SqlTransform.AppendStagingColumns | libs/data_manipulation/src/data_manipulation/transformation/sql_transform.py:315-329 | The loop over the kept columns: SELECT items, WHERE clauses, property names and the geometry found, in column order |
| SqlTransform.AppendJoinColumns | libs/data_manipulation/src/data_manipulation/transformation/sql_transform.py:331-339 | The loop over the joined columns: unrenamed, the geometry by bare table name |
| SqlTransform.DetectedSridReadsBack | libs/data_manipulation/src/data_manipulation/transformation/sql_transform.py:75-90 | A projection written `EPSG:` and a number parses back to that number exactly when it has four to six digits |
| SqlTransform.KeptMembers | libs/data_manipulation/src/data_manipulation/transformation/sql_transform.py:285-295 | A column is kept exactly when it is listed, not excluded, present in the table and not a geometry that a point replaces |
| SqlTransform.JoinErrorExactly | libs/data_manipulation/src/data_manipulation/transformation/sql_transform.py:216-239 | What is wrong with a join: a missing key, the staging table first, then all the columns that are unknown, then all those whose name is taken; nothing exactly when none of these holds |
| TransformMeaning.CompiledSelectMeansConfig | libs/data_manipulation/src/data_manipulation/transformation/sql_transform.py:247-353 | For every configuration that builds and resolves, evaluating the SELECT over all rows gives exactly the row-wise meaning: filter on raw values, left-join on text keys, cast, relabel, add the geometry; the meaning shares no function of values with the query |
| TransformMeaning.FilteringCommutesWithJoin | libs/data_manipulation/src/data_manipulation/transformation/sql_transform.py:331-351 | WHERE after the LEFT JOIN selects the same rows, in the same order, as filtering the staging table first |
| TransformMeaning.WhereMeansPasses | libs/data_manipulation/src/data_manipulation/transformation/sql_transform.py:315-329 | The conjunction of WHERE clauses is true, in three-valued logic, exactly on rows whose raw values pass every kept column's filter |
| TransformMeaning.ItemsMean | libs/data_manipulation/src/data_manipulation/transformation/sql_transform.py:315-347 | Every SELECT item evaluates to the cell that the configuration means, geometry and point included |
| TransformMeaning.KeptIsWanted | libs/data_manipulation/src/data_manipulation/transformation/sql_transform.py:285-304 | The kept columns are the saved ones, or all as they are when none is saved, that are neither excluded nor missing nor a geometry that a point replaces, in their order; the join counts when it adds a column |
| TransformMeaning.BooleanColumnExactly | libs/data_manipulation/src/data_manipulation/transformation/sql_transform.py:72-73 | A boolean column is true exactly when the raw text without the blanks around it is, in any case, true, 1, yes, on, t or y, false exactly for false, 0, no, off, f or n, and NULL otherwise |
| TransformMeaning.SridExactly | libs/data_manipulation/src/data_manipulation/transformation/sql_transform.py:75-90 | A forced projection is a number of four to six digits, with or without `EPSG:` in any case, with blanks around it |
| Sql.LeftJoinIsInnerPlusUnmatched | libs/data_manipulation/src/data_manipulation/transformation/sql_transform.py:241-244 | The join used here is the LEFT OUTER JOIN of section 7.2.1.1 of the PostgreSQL documentation: the inner join plus one NULL-extended row per unmatched row, as multisets |
| RowConservation.EveryRowHasItsBlock | libs/data_manipulation/src/data_manipulation/transformation/sql_transform.py:241-244 | Each staging row has its own block of the output: max(1, partners) rows when it passes the filters, none otherwise, and nothing else is in the output |
| RowConservation.RowsAreConserved | libs/data_manipulation/src/data_manipulation/transformation/sql_transform.py:435-449 | The number of output rows is the sum of max(1, partners) over the passing rows |
| RowConservation.DistinctKeysKeepTheCount | libs/data_manipulation/src/data_manipulation/transformation/sql_transform.py:241-244 | With pairwise distinct target keys the output has one row per passing staging row |
| RowConservation.NullKeysMatchNothing | libs/data_manipulation/src/data_manipulation/transformation/sql_transform.py:241-243 | A NULL key on either side joins with nothing |
| RowConservation.ResolutionIsExact | libs/data_manipulation/src/data_manipulation/transformation/sql_transform.py:175-192 | A built query fails to resolve exactly when it refers to a geometry by a table name that both tables share |
| RowConservation.SharedNameIsRejected | libs/data_manipulation/src/data_manipulation/transformation/sql_transform.py:175-192 | A kept geometry and a joined table of the same bare name: the query builds and cannot be resolved |
| FilterSql.SequentialEscapeIsOnePass | libs/data_manipulation/src/data_manipulation/transformation/filter_sql.py:21-31 | The three replacements in a row equal one escape per special character: nothing is escaped twice |
| FilterSql.EscapingIsExact | libs/data_manipulation/src/data_manipulation/transformation/filter_sql.py:34-56 | For all texts and values the EXACTLY, CONTAINS and STARTS_WITH patterns match under ILIKE if and only if the folded value equals, is inside, or starts the folded text |
| Like.MatchLiterals | libs/data_manipulation/src/data_manipulation/transformation/filter_sql.py:21-56 | A run of literal tokens consumes exactly that prefix of the text (section 8.5 of ISO/IEC 9075-2) |
| DataDatabase.Database.TransformStagingToFinal | libs/data_manipulation/src/data_manipulation/transformation/sql_transform.py:361-449 | The run: in one transaction the final table becomes exactly the rows of the query, with identifiers and spatial index, and its row count is returned; on any error no table changes |
| DataDatabase.Database.CreateFinal | libs/data_manipulation/src/data_manipulation/transformation/sql_transform.py:410-433 | The final table as created: labels and rows of the query, index on the geometry, identifier column; or the error of a repeated or reserved column name, or of an index on a column that is no geometry |
| DataDatabase.Database.ReadTransformedPreview | libs/data_manipulation/src/data_manipulation/transformation/sql_transform.py:513-567 | The preview of the same query: limited rows, geometry as text, features |
| DataDatabase.CollectPreview | libs/data_manipulation/src/data_manipulation/transformation/sql_transform.py:541-564 | The loop over the records: one dictionary per record, one feature per record with a geometry, in order |
| PreviewRefinesRun.PreparedExactly | libs/data_manipulation/src/data_manipulation/transformation/sql_transform.py:389-398 | A run or a preview gets as far as its query exactly when the tables are there, the joined one under valid names, the compiler accepts the configuration and the database the query |
| PreviewRefinesRun.RunWritesTheMeaning | libs/data_manipulation/src/data_manipulation/transformation/sql_transform.py:395-449 | A run that succeeds wrote the meaning of its configuration under the output labels, identifier last; its count is the conserved sum; it is indexed exactly when geographic, on a column that is a geometry |
| PreviewRefinesRun.RunSucceedsExactly | libs/data_manipulation/src/data_manipulation/transformation/sql_transform.py:410-433 | A run of an accepted configuration whose query was prepared ends well if and only if its names are valid, it writes to a table it does not read, no joined column repeats, no two columns end up called `geom`, no kept or joined column takes a reserved name, and the geometry is of that type, built, or given a projection |
| PreviewRefinesRun.ItemTypesExactly | libs/data_manipulation/src/data_manipulation/transformation/sql_transform.py:140-192 | An output column is a geometry when PostGIS makes it, or when it is a column of that type that is not cast |
| PreviewRefinesRun.IdColumnBreaksTheRun | libs/data_manipulation/src/data_manipulation/transformation/sql_transform.py:424-433 | Any staging table with a column `id_datafeeder`, copied as it is, makes the run fail |
| PreviewRefinesRun.TextGeomBreaksTheRun | libs/data_manipulation/src/data_manipulation/transformation/sql_transform.py:416-422 | Any staging table whose column `geom` is not of type geometry, copied as it is, makes the run fail |
| PreviewRefinesRun.PreviewLosesNothingExactly | libs/data_manipulation/src/data_manipulation/transformation/sql_transform.py:547-552 | A previewed dictionary has one entry per cell exactly when the labels are distinct and, for a geographic result, none is `__geojson__` |
| PreviewRefinesRun.DictionaryKeepsEveryCell | libs/data_manipulation/src/data_manipulation/transformation/sql_transform.py:547-551 | A dictionary made from a record keeps every cell if and only if no label repeats |
| PreviewRefinesRun.PreviewShowsWhatTheRunWrites | libs/data_manipulation/src/data_manipulation/transformation/sql_transform.py:513-567 | The preview with a limit n > 0 shows the first n rows of what the run writes, or all when there are fewer, and any other limit all of them, value for value, identifier aside; its features are the shown rows with a non-NULL geometry, in order |
| OutputNames.CheckColumnNames | apps/backend/src/api/routes/ingestion/staging.py:985-1005 | The save-time check accepts exactly the lists whose effective names are non-blank and pairwise distinct, and reports the first offender |
| OutputNames.BlankExactly | apps/backend/src/api/routes/ingestion/staging.py:985-1005 | A name is blank exactly when all its characters are white space |
| OutputNames.LabelsDistinctExactly | libs/data_manipulation/src/data_manipulation/transformation/sql_transform.py:285-353 | The output labels of an accepted configuration are distinct if and only if no joined column repeats and no two columns end up called `geom` |
| OutputNames.LabelExactly | libs/data_manipulation/src/data_manipulation/transformation/sql_transform.py:315-347 | The output labels are the names of the kept columns, those of the joined columns, and `geom` for a point, and no other |
| OutputNames.PlainGeomNeverClashes | libs/data_manipulation/src/data_manipulation/transformation/sql_transform.py:304-317 | With `geom` neither renamed nor a rename target only a repeated joined column clashes, and `geom` is a label exactly when the query reports a geometry column |
| OutputNames.PropertiesAreTheOtherLabels | libs/data_manipulation/src/data_manipulation/transformation/sql_transform.py:315-353 | With `geom` neither renamed nor a rename target, the property columns are the output labels but `geom`, in order |
| OutputNames.GeomLabelExactly | libs/data_manipulation/src/data_manipulation/transformation/sql_transform.py:315-347 | `geom` is an output label exactly when the query reports a geometry or some other column was renamed to it |
| OutputNames.NoJoinedIdColumn | libs/data_manipulation/src/data_manipulation/transformation/sql_transform.py:304-308 | No joined column is `id_datafeeder` |
| OutputNames.RenamedGeomClashes | libs/data_manipulation/src/data_manipulation/transformation/sql_transform.py:305-324 | An accepted configuration with a renamed geometry that builds and has two columns called `geom` |
| OutputNames.PredictionIsRightExactly | apps/backend/src/api/routes/ingestion/process.py:56-71 | The prediction `is_geographic` agrees with the compiled query if and only if something else brings a geometry, the table has none, or the columns say one thing about `geom` |
| OutputNames.PredictionIsRight | apps/backend/src/api/routes/ingestion/process.py:188-204 | When the saved columns list every staging column once the prediction is right |
| OutputNames.OmittedGeomIsPredicted | apps/backend/src/api/routes/ingestion/process.py:188-204 | Saved columns that leave the staging geometry out are predicted geographic and compile to a query without a geometry |
| StagingPreview.RevealBuildsExactly | apps/backend/src/api/routes/ingestion/staging.py:1149-1166 | When the saved configuration builds, the rewritten one builds unless an excluded `geom` was renamed to a joined column, and then it does not |
| StagingPreview.RevealedExactly | apps/backend/src/api/routes/ingestion/staging.py:1147-1166 | An excluded column is previewed as it is stored, under the name it would have, unless a joined column has that name; any other column is as saved |
| StagingPreview.IncludeExcludedIsConservative | apps/backend/src/api/routes/ingestion/staging.py:1129-1166 | When the saved query resolves, the rewritten one builds; it resolves if and only if it reveals no geometry under a name both tables share; and its rows, restricted to the saved labels, are exactly the saved rows |
| StagingPreview.RenamedGeomBreaksThePreview | apps/backend/src/api/routes/ingestion/staging.py:1149-1166 | Every configuration of the failing family builds while its rewritten form does not |
| StagingPreview.PreviewMapExactly | apps/backend/src/api/routes/ingestion/staging.py:1137-1145 | The map of the preview agrees with the saved configuration if and only if the excluded geometry is not replaced by a built point or kept twice |
| TableNames.ValidatedExactly | libs/data_manipulation/src/data_manipulation/validators.py:39-55 | What the identifier rule accepts: identifiers within the length, and also one of them followed by a newline |
| Text.AsciiExactly | libs/data_manipulation/src/data_manipulation/utils.py:49-69 | White space, digits and the two cases of letters, by their codes |
| TableNames.NewlineIsAccepted | libs/data_manipulation/src/data_manipulation/validators.py:39-55 | Any identifier with a newline behind it is accepted within the length |
| TableNames.SanitizedIsIdentifier | libs/data_manipulation/src/data_manipulation/utils.py:49-69 | Every title sanitizes to the empty string or to an identifier within the length |
| TableNames.SanitizedCharByChar | libs/data_manipulation/src/data_manipulation/utils.py:49-69 | Each character of a title: a blank or hyphen becomes an underscore, a capital is lowered, and what is neither a letter, a digit nor an underscore goes |
| TableNames.SanitizedNameExactly | libs/data_manipulation/src/data_manipulation/utils.py:59-69 | Then the underscores around it go, a digit in front gets the prefix `layer_`, and the length is cut |
| TableNames.SanitizeFixesExactly | libs/data_manipulation/src/data_manipulation/utils.py:49-69 | Sanitizing leaves a name alone exactly when it is an identifier within the length that does not end with an underscore |
| TableNames.GetAvailableTableName | libs/data_manipulation/src/data_manipulation/database.py:94-113 | The result is the first free candidate, and there is none exactly when all 20 are taken |
| TableNames.CandidateExactly | libs/data_manipulation/src/data_manipulation/database.py:94-106 | The candidates are the first 54 characters, then the first 51 with an underscore and a number |
| TableNames.CandidatesAreValid | libs/data_manipulation/src/data_manipulation/constants.py:13-19 | Every candidate from an identifier passes the rule within 54 characters, and its spatial index name fits in 63 |
| TableNames.SuffixedCandidatesDiffer | libs/data_manipulation/src/data_manipulation/database.py:101-106 | Suffixed candidates are pairwise distinct |
| TableNames.TitleGivesValidName | libs/data_manipulation/src/data_manipulation/utils.py:49-69 | From any title every candidate of a non-empty base is accepted by the final check |
| IntegrityLinks.CheckFinalExistence | apps/backend/src/api/routes/ingestion/integrity_links.py:75-97 | Grouping candidates by schema finds exactly the (schema, table) pairs of the batch that exist |
| IntegrityLinks.CheckStagingExistence | apps/backend/src/api/routes/ingestion/integrity_links.py:59-72 | The staging tables of the batch that exist |
| IntegrityLinks.ListednessIgnoresTheBatch | apps/backend/src/api/routes/ingestion/integrity_links.py:100-113 | A link is listed or not whatever batch its existence checks ran on |
| IntegrityLinks.ListLinks | apps/backend/src/api/routes/ingestion/integrity_links.py:238-284 | One page: of the rows from the offset to the next one, exactly those of datasets that need no table, or have their staging table, or their final table in the schema of their organization; 100 of them if there is more; `next_offset` is the row of the 101st, the total comes on the first page only; the fetch loop ends |
| IntegrityLinks.CountLinks | apps/backend/src/api/routes/ingestion/integrity_links.py:116-132 | The count over one snapshot is the number of rows that need no table or have one |
| IntegrityLinks.FollowPages | apps/backend/src/api/routes/ingestion/integrity_links.py:242-284 | A caller following the offsets ends and collects the items of all the pages |
| IntegrityLinks.PagingIsExact | apps/backend/src/api/routes/ingestion/integrity_links.py:238-284 | Following the offsets from 0 shows, once and in row order, exactly the rows that need no table or have one; every page but the last has 100, and the announced total is the number of items |
| IntegrityLinks.CountIsNumberOfEntries | apps/backend/src/api/routes/ingestion/integrity_links.py:116-132 | Counting all at once agrees with accumulating by pages |
| RunIds.ExtractInvertsEveryShape | apps/backend/src/core/run_ids.py:33-55 | The dataset id is read back from each of the four shapes of run id |
| RunIds.ManualShapeExactly | apps/backend/src/core/run_ids.py:48-50 | A run id is taken for manual exactly when a user started it |
| RunIds.StagingLikeExactly | apps/backend/src/core/run_ids.py:71-73 | The staging pattern matches the run ids of its own dataset and of no other |
| RunIds.ProcessLikeExactly | apps/backend/src/core/run_ids.py:76-78 | The process pattern, whose underscore is a wildcard, matches no run of another dataset |
| RunIds.PrefixesExactly | apps/backend/src/core/run_ids.py:58-68 | The prefixes checked on the client select what the patterns select |
| RunIds.AsciiFoldingIsOne | apps/backend/src/services/airflow_client.py:157-161 | What is assumed of case folding and of ids holds of ASCII lower-casing and of a UUID |
| AirflowClient.ForEachDagRun | apps/backend/src/services/airflow_client.py:149-178 | The drain loop ends, and returns with nothing left to act upon when fewer than 100 matching runs are refused; it raises only because of a targeted run that the server refuses to change, and asks only about runs that matched and that the action takes; on a quiet server the outcome is exactly `Drained` |
| AirflowClient.DrainIsCompleteExactly | apps/backend/src/services/airflow_client.py:157-178 | The loop leaves nothing to act upon if and only if no such run comes after 100 matching runs that the action refuses |
| AirflowClient.ScheduledRunIsLeft | apps/backend/src/services/airflow_client.py:174-178 | A hundred active manual runs hide the scheduled run behind them: it is left running |
| AirflowClient.PageKeepsOutcome | apps/backend/src/services/airflow_client.py:174-178 | Acting on a page, or part of one, never changes what the whole loop leaves |
| AirflowClient.IdlePageIsTheEnd | apps/backend/src/services/airflow_client.py:177-178 | A page without progress means the loop would reach nothing more |
| AirflowClient.LaterMatchesLess | apps/backend/src/services/airflow_client.py:157-161 | As runs end by themselves, fewer match, so the loop's measure never grows |
| AirflowClient.ForceFailDagRuns | apps/backend/src/services/airflow_client.py:181-208 | Force-failing through the loop: only runs under the prefix, checked again, and never a spared manual run are asked about, whoever else acts on the server |
| AirflowClient.CancelSelectsExactly | apps/backend/src/services/airflow_client.py:181-208 | The query of a cancellation selects a run that matches its prefix exactly when the run is queued or running |
| AirflowClient.CancelDatasetRuns | apps/backend/src/services/airflow_client.py:211-221 | When it returns, every run of the dataset has succeeded or failed, in its own DAG and in the shared ones; it raises only because of a queued or running run of the dataset that cannot be changed, and asks about no other dataset |
| AirflowClient.CancelScheduledRuns | apps/backend/src/services/airflow_client.py:224-238 | With fewer than 100 active manual runs every process run of the dataset but the manual ones has succeeded or failed; no request is ever made about a manual run, a staging run or another dataset, whoever else acts on the server |
| AirflowClient.DeleteDagRuns | apps/backend/src/services/airflow_client.py:241-260 | Only runs the server refuses to delete are left, unless 100 runs of the dataset in that DAG are refused; no other dataset is asked about |
| AirflowClient.PurgeDatasetDagRuns | apps/backend/src/services/airflow_client.py:263-271 | In each shared DAG the history of the dataset is gone but for runs that cannot be deleted, unless 100 of them are in that DAG; no other dataset is asked about |
| DefinitionJson.PrintedReadsBack | apps/backend/src/services/table_transfer.py:104-105 | Every table definition reads back from its JSON line, whatever its names and types contain |
| DefinitionJson.PrintedIsOneLine | apps/backend/src/services/table_transfer.py:104-105 | The JSON line of a definition holds no raw newline, nor any other control character (section 7 of RFC 8259) |
| DefinitionJson.PlainField | apps/backend/src/services/table_transfer.py:104-105 | A name that needs no escape stands between quotes as it is |
| DefinitionJson.ColumnLine | apps/backend/src/services/table_transfer.py:41-44 | The keys of a column in the line |
| DefinitionJson.PrintedLine | apps/backend/src/services/table_transfer.py:47-51 | The keys of the definition in the line |
| TableTransfer.ChunkSource.Next | apps/backend/src/services/table_transfer.py:117-128 | The chunk generator: skips empty pieces, and tells truncation, corruption and data after the end apart |
| TableTransfer.ChunksExactly | apps/backend/src/services/table_transfer.py:117-128 | Every byte up to the piece that ends the stream is yielded, in chunks that are not empty; a stream that does not end is truncated, a corrupt piece and one after the end are errors |
| TableTransfer.RunsOutExactly | apps/backend/src/services/table_transfer.py:131-147 | The chunks run out without a definition exactly when they hold no newline and at most 1048576 bytes |
| TableTransfer.SplitIgnoresChunking | apps/backend/src/services/table_transfer.py:131-147 | With the first newline at most at the allowed size, the line and the bytes after it do not depend on the chunk boundaries |
| TableTransfer.SplitIgnoresChunkingExactly | apps/backend/src/services/table_transfer.py:136-147 | Every stream with a newline is split by some cutting, and by every cutting if and only if its first newline comes within the allowed size |
| TableTransfer.LongLineDependsOnTheCut | apps/backend/src/services/table_transfer.py:136-147 | A definition line one byte too long is accepted in one piece and refused when cut before its newline |
| TableTransfer.Database.DumpTable | apps/backend/src/services/table_transfer.py:91-114 | The stream written is the definition line followed by the rows, however COPY cuts them |
| TableTransfer.Database.SplitDefinition | apps/backend/src/services/table_transfer.py:131-147 | The growing buffer computes exactly the split, each error in its case |
| TableTransfer.Database.RestoreTable | apps/backend/src/services/table_transfer.py:208-248 | A restore creates exactly the table of the stream and counts its rows, or changes nothing and raises the error of the first failing step |
| TableTransfer.DefinitionErrorExactly | apps/backend/src/services/table_transfer.py:150-173 | A definition passes exactly when its columns differ, the columns of its indexes exist and its types are accepted; the first of these that fails is the error |
| TableTransfer.RestoredIsSound | apps/backend/src/services/table_transfer.py:208-248 | Whatever is restored is a new table with such a definition |
| TableTransfer.DumpThenRestore | apps/backend/src/services/table_transfer.py:91-248 | Dump then restore gives back definition and rows byte for byte for every cutting of the stream, on a platform whose reader reads the line |
| TableTransfer.DumpThenRestoreWithRead | apps/backend/src/services/table_transfer.py:91-248 | The same with `DefinitionJson.Read` as the reader, which leaves nothing to assume of the line but its size |
| ConnectionString.QuotedReadsBack | libs/data_manipulation/src/data_manipulation/ingestion.py:57-59 | A quoted value reads back with its spaces, quotes and backslashes |
| ConnectionString.ConnectionStringReadsBack | libs/data_manipulation/src/data_manipulation/ingestion.py:47-72 | Parsing the string with the keyword/value grammar of libpq gives exactly the components that are present, each under its own keyword, and the port, by default 5432 |
| GeoServerAcl.RoleMappingIsIdempotent | apps/backend/src/services/geoserver.py:469-482 | Mapping a role twice is mapping it once, and only the wildcard stays the wildcard |
| GeoServerAcl.RoleIs | apps/backend/src/services/geoserver.py:469-482 | A role is stripped, put in upper case, and given the prefix `ROLE_` unless it has it |
| GeoServerAcl.SetRule | apps/backend/src/services/geoserver.py:656-676 | Insert or replace: exactly one rule changes, or nothing on error, and an error means that a request failed |
| GeoServerAcl.SyncLayerAcl | apps/backend/src/services/geoserver.py:484-530 | A synchronization that succeeds leaves the layer in sync with its privileges, and touches no other rule, whether it succeeds or fails |
| GeoServerAcl.SyncedIsInSync | apps/backend/src/services/geoserver.py:505-522 | The read rule joins the mapped roles of all privileges in order, the write rule those of the WRITE privileges, without any there is no rule, and other keys are as before |
| GeoServerAcl.WritersAreReaders | apps/backend/src/services/geoserver.py:505-507 | Every writer is a reader, and the readers are exactly the mapped roles |
| GeoServerAcl.WriteRolesExactly | apps/backend/src/services/geoserver.py:505-507 | The roles of the write rule are those with a WRITE privilege, and no other |
| GeoServerAcl.LayersHaveTheirOwnKeys | apps/backend/src/services/geoserver.py:559-570 | Rules of different layers have different keys when workspaces hold no dot |
| GeoServerAcl.RolesReadBackExactly | apps/backend/src/services/geoserver.py:572-591 | A rule reads back as the roles it was written with if and only if no role holds a comma |
| DataIds.DataIdReadsBack | apps/backend/src/models/integrity_link.py:65-73 | A data id splits back into its workspace and its table when the workspace holds no colon |
| DataSharing.Backend.SyncDataSharing | apps/backend/src/api/routes/ingestion/integrity_link.py:120-199 | When it succeeds every role was resolved, unless there is nothing to publish, and the layer follows the DATA rules of the session; it fails only after a failing request or an unresolved role; rules of other layers never change |
| DataSharing.Backend.Apply | apps/backend/src/api/routes/ingestion/integrity_link.py:333-436 | Each operation commits exactly the requested rules with the layer naming exactly the roles they grant, or leaves the committed rules as they were; it is rolled back only after a failing request, a role that cannot be resolved or a failing commit, which leaves the layer with the rules that were asked for; METADATA rules never reach GeoServer |
| DataSharing.Backend.ApplyAll | apps/backend/src/api/routes/ingestion/integrity_link.py:603-642 | Over any sequence of operations the committed rules go step by step as requested, and the layer follows them whenever some operation on DATA was committed and none rolled back after it: a commit repairs what a rollback left |
| DataSharing.LayerFollowsExactly | apps/backend/src/api/routes/ingestion/integrity_link.py:120-199 | A layer that follows the rules, in terms of the rules alone: it has a read rule exactly when there is a DATA rule, a write rule exactly when one of them is WRITE, and these name exactly the roles granted |
| DataSharing.LayerOfExactly | apps/backend/src/api/routes/ingestion/integrity_link.py:178-186 | The layer is that of the data id for a prefilled dataset that has one of two parts, else the final table in the workspace of the organization |
| DataSharing.RefusedExactly | apps/backend/src/api/routes/ingestion/integrity_link.py:410-414 | Refused are the deletion of a rule that is not there or belongs to another dataset, and publication without a layer |
| DataSharing.UpsertedExactly | apps/backend/src/api/routes/ingestion/integrity_link.py:344-390 | An upsert changes the value of the first rule of the group, or adds one, and leaves every other rule |
| DataSharing.DeletedExactly | apps/backend/src/api/routes/ingestion/integrity_link.py:410-418 | A deletion takes that rule away and leaves the others |
| DataSharing.UnpublishedExactly | apps/backend/src/api/routes/ingestion/integrity_link.py:614-625 | Unpublishing takes away the READ rules of everyone on the data of the dataset, and no other rule |
| DataSharing.PublicationExactly | apps/backend/src/api/routes/ingestion/integrity_link.py:605-627 | Publishing makes everyone a reader; after unpublishing everyone reads only through a WRITE rule |
| DataSharing.MetadataUpsertKeepsData | apps/backend/src/api/routes/ingestion/integrity_link.py:353-371 | Changing a METADATA rule leaves the DATA rules as they were, so the layer need not be touched |
| DataSharing.MetadataDeleteKeepsData | apps/backend/src/api/routes/ingestion/integrity_link.py:416-436 | Deleting a METADATA rule leaves the DATA rules as they were |
| MoveDataset.MoveDataset | apps/backend/src/api/routes/ingestion/integrity_link_admin.py:605-686 | A move ends in one of three ways: stopped with nothing changed, by a failing call or by a check; nothing to move; or carried out to the end, under Airflow only once the runs of the dataset are cancelled |
| MoveDataset.MoveIsAllOrNothing | apps/backend/src/api/routes/ingestion/integrity_link_admin.py:605-686 | An error leaves table, organization and data id as before, unless the move back was tried and refused; success leaves the one table in the new schema and its layer in the new workspace, where none of that name was and whose datastore reads that schema; no other table or layer changes, and no datastore is repointed unless GeoServer does not keep the name of the workspace and the datastore under the kept name reads another schema; under Airflow no table moves before the runs are cancelled |
| MoveDataset.MoveSucceedsExactly | apps/backend/src/api/routes/ingestion/integrity_link_admin.py:622-641 | When no call fails, a move raises if and only if the table is nowhere, or the datastore of the new workspace reads another schema, a table or a layer of that name is there, or a schema has no valid name |
| MoveDataset.CarryOut | apps/backend/src/api/routes/ingestion/integrity_link_admin.py:652-677 | The steps after the checks: every attempt to move the table is recorded, an error follows a failing call, and the table is stranded only after a refused move back |
| MoveDataset.PublishOrMoveBack | apps/backend/src/api/routes/ingestion/integrity_link_admin.py:657-677 | Publication first, then the old layer goes; when publication fails the table is moved back and the organization restored |
| MoveDataset.LocateFinalTable | apps/backend/src/api/routes/ingestion/integrity_link_admin.py:539-554 | The schema found is the first candidate that holds the table |
| MoveDataset.LocatedExactly | apps/backend/src/api/routes/ingestion/integrity_link_admin.py:545-553 | The candidates, in order: the schema the datastore reads, that of the organization, the shared one, the workspace |
| MoveDataset.CurrentWorkspaceExactly | apps/backend/src/api/routes/ingestion/integrity_link_admin.py:618-619 | The workspace is that of the data id when there is one of two parts, else that of the organization, in lower case |
| MoveDataset.MoveTable | apps/backend/src/api/routes/ingestion/integrity_link_admin.py:528-536 | The table alone changes schema, or nothing changes for one of the reasons listed; every attempt is recorded with its outcome |
| MoveDataset.PublishTable | apps/backend/src/services/layer_publication.py:49-101 | On success the layer exists, the data id names it, and the datastores are those before, plus one that reads the schema when there was none; a failure leaves the data id |
| MoveDataset.RepointedExactly | apps/backend/src/services/layer_publication.py:60-83 | A publication touches one datastore at most, and repoints one if and only if it finds none in the workspace while the one under the name GeoServer keeps reads another schema |
| MoveDataset.SettingChangeRepoints | apps/backend/src/services/layer_publication.py:68-76 | An organization like `acme_` published in the shared schema, then in its own: the second publication overwrites the datastore of the first |
| MoveDataset.CheckTarget | apps/backend/src/api/routes/ingestion/integrity_link_admin.py:633-641 | The checks pass only when the datastore reads the schema and the names are free, and refuse only otherwise or on a failing call |
| MoveDataset.UncheckedDatastore | apps/backend/src/api/routes/ingestion/integrity_link_admin.py:630-633 | A dataset with nothing to move whose target datastore reads another schema |
| MoveDataset.CheckedExactly | apps/backend/src/api/routes/ingestion/integrity_link_admin.py:630-633 | With nothing to move, the target datastore reads the schema of the table if and only if it reads none or one that holds the table |
| MoveDataset.RecordedLayerExactly | libs/data_manipulation/src/data_manipulation/geoserver.py:51-53 | The layer created is the one recorded if and only if both names are identifiers of at most 63 characters that do not end with an underscore |
| MoveDataset.TitleCutAfterUnderscore | libs/data_manipulation/src/data_manipulation/utils.py:59-69 | A 55-character title cut right after an underscore gives a valid table name that GeoServer does not keep |
| XmlPaths.PutGet | apps/backend/src/services/metadata_schema_19115_3.py:42-50 | Nodes written along a path are the nodes read back along it |
| XmlPaths.PutPut | apps/backend/src/services/metadata_schema_19115_3.py:42-50 | Of two writes along a path the last one wins |
| XmlPaths.GetPut | apps/backend/src/services/metadata_schema.py:69-74 | Writing back what was read changes nothing |
| XmlPaths.PutElsewhere | apps/backend/src/services/metadata_schema.py:69-81 | Writing along one path leaves the nodes of a path that starts apart from it |
| XmlPaths.PutsCommute | apps/backend/src/services/metadata_schema_19115_3.py:33-167 | Writes along paths that start apart can be done in either order |
| XmlPaths.TailsExactly | apps/backend/src/services/metadata_schema_19115_3.py:122-135 | The text nodes of an element are its text and the texts that are not empty behind its children |
| Metadata.RevisionIsFirst | apps/backend/src/services/metadata_schema_19115_3.py:42-61 | After a revision the first revision date of a citation is the date given, added when there was none, and no other date changed |
| Metadata.RevisionEntryIs | apps/backend/src/services/metadata_schema_19115_3.py:47-61 | The entry of a new revision date, element by element |
| Metadata.LastRevisionWins | apps/backend/src/services/metadata_schema_19115_3.py:33-63 | Updating the revision date twice equals the last update, on every record |
| Metadata.ReplacedExactly | apps/backend/src/services/metadata_schema.py:69-82 | A resource of the old layer gets the new name, keeps its protocols, and gets the new address exactly when its first protocol is served and it has a linkage |
| Metadata.OnlyOldLinksChange | apps/backend/src/services/metadata_schema.py:54-83 | Replacing changes the resources under the old name and no other resource, and no citation |
| Metadata.OldNameIsGoneExactly | apps/backend/src/services/metadata_schema.py:69-83 | No resource is left under the old name if and only if the name did change or no resource carried it |
| Metadata.ReplacingAgainChangesNothing | apps/backend/src/services/metadata_schema_19115_3.py:80-90 | Replacing the same old name again changes nothing |
| Metadata.AdvertisedExactly | apps/backend/src/services/metadata_schema_19115_3.py:122-166 | After adding, the protocols advertised are those there before and those of the services available, no more |
| Metadata.ServicesExactly | apps/backend/src/services/metadata_schema.py:54-83 | A layer can be served by three protocols, each at the address under its key, if there is one |
| Metadata.AddingAgainChangesNothing | apps/backend/src/services/metadata_schema_19115_3.py:92-167 | Adding online resources twice equals once, also with other addresses for the same services |
| Metadata.NoChangeExactly | apps/backend/src/services/metadata_schema_19115_3.py:100-143 | Adding leaves a record unchanged if and only if it has no distribution, or its containers exist and nothing is new |
| Metadata.EmptyContainersExactly | apps/backend/src/services/metadata_schema_19115_3.py:104-120 | When nothing is new, the record still changes exactly when a container was missing, a change the flag does not report |
| Metadata.BareDistributionChanges | apps/backend/src/services/metadata_schema_19115_3.py:104-120 | A distribution without transfer options gets empty containers from a layer without services |
| Metadata.AddedLinksFollowTheLayer | apps/backend/src/services/metadata_schema_19115_3.py:137-165 | A link added for a layer is recognized when that layer is replaced and becomes the link of the new layer |
| Metadata.NewLinkIs | apps/backend/src/services/metadata_schema_19115_3.py:137-165 | An added link, element by element: its description is the title of the record, or the name of the layer when there is none |
| Metadata.EditsAreApart | apps/backend/src/services/metadata_schema_19115_3.py:33-167 | Revising dates touches no online resource, and links touch no citation |
| Metadata.MetadataRecord.UpdateRevisionDate | apps/backend/src/services/metadata_schema_19115_3.py:33-63 | The loop over the citations in place: the record becomes `Revised`, the flag is set exactly when there is a citation |
| Metadata.MetadataRecord.ReplaceLayerOnlineResources | apps/backend/src/services/metadata_schema.py:54-83 | The loop over the resources in place: the flag is set exactly when one carried the old name |
| Metadata.MetadataRecord.AddOnlineResources | apps/backend/src/services/metadata_schema_19115_3.py:92-167 | The record becomes `LinksAdded`; the flag is set exactly when a link was appended |
| Metadata.MetadataRecord.Refresh | apps/backend/src/api/routes/ingestion/process.py:332-344 | The edits after a run in sequence, on a fresh record: what is sent is `Refreshed`, the value the theorems are about |
| Metadata.RefreshesDoNotPileUp | apps/backend/src/services/metadata_schema.py:89-100 | Refreshing the record that was sent sends exactly what refreshing the first one at the later date would have sent, so nothing piles up run after run; without a citation the links are sent once |
| Metadata.UnsentChangeExactly | apps/backend/src/services/metadata_schema.py:97-100 | What changed without being sent: a record changes and is not uploaded if and only if it has no citation, nothing to add, and a distribution without containers |
| Metadata.RevisingAndAddingCommute | apps/backend/src/services/metadata_schema_19115_3.py:33-167 | Revising the dates and adding the links can be done in either order |

## Left out

- TransformMeaning.CompiledSelectMeansConfig: assumes that the query resolves, since a reference by a shared table name is rejected by PostgreSQL before any row is read; `ResolutionIsExact` says when.
- OutputNames.LabelsDistinctExactly: labels are compared in full; PostgreSQL truncates identifiers after 63 bytes, which is not modelled.
- PreviewRefinesRun.RunSucceedsExactly: two labels that are equal after 63 bytes also make the run fail, and so does a text that ST_SetSRID cannot read; neither is modelled.
- PreviewRefinesRun.PreviewShowsWhatTheRunWrites: assumes no column called `__geojson__`, which the preview overwrites; `PreviewLosesNothingExactly` says exactly when a value is lost.
- TableNames.GetAvailableTableName: does not claim 20 distinct candidates, because a long base can equal one of its suffixed forms.
- AirflowClient.ForEachDagRun: errors of the API other than a missing DAG or run, and a refused action, are not modelled.
- TableTransfer.DumpThenRestore: the reader of the JSON line is a parameter of the target platform; `DumpThenRestoreWithRead` takes the one of this model, not the parser of Python.
- ConnectionString.ConnectionStringReadsBack: the NUL character, which libpq cannot carry, is not singled out.
- GeoServerAcl.SyncLayerAcl: says nothing of the two rules of the layer when it fails, because the code rolls back only the database.
- DataSharing.Backend.ApplyAll: one rule per group is not claimed, because the code does not keep it.
- MoveDataset.MoveDataset: does not model the commit by the caller, nor the best-effort clean-up of rules, sharing and record links after the move.
- MoveDataset.PublishTable: the creation of a workspace is modelled as creating the datastore or, where there is one, setting its schema; a client that refuses there would only make the promise stronger.
- Metadata.MetadataRecord.ReplaceLayerOnlineResources: the tree is a value that the object reassigns, so aliasing between nodes is not captured; a path step is taken by element name, comments are left out.
- The ISO 19139 form of the same edits, and the change of resource descriptions when a title changes: the same laws over other names.
- ogr2ogr, character set detection, downloads, zlib, gzip and pgcrypto: foreign code.
- The COPY row format, `to_regtype`, PostGIS functions and number parsing: parameters.
- HTTP routes, sessions, API clients, authentication, access levels, logging: plumbing.
- Airflow scheduling and trigger rules, and the DAG files.
- The frontend, the generated API client, migrations, settings, recurrence presets and `parse_db_uri`.
- Publication of metadata rules to GeoNetwork, and the stability of `final_table_name` under overlapping runs.
