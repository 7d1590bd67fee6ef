# gridflow table-transform core in Dafny

gridflow is a utility meter-data pipeline. Two utilities export service
points (premises), meters and interval readings in different layouts. The
pipeline maps both layouts onto one canonical schema and reconciles the
combined rows. It then joins readings to their meters and service points into
a usage table, redacts address data for external consumers, and summarises
usage per service point and day. This project models those four stages and
proves what they promise:

- `Standardized` (`standardized.dfy`) is the standardizer and reconciler.
  It covers column-name normalisation and the per-utility field mappers. It
  also covers first-wins duplicate removal on composite keys, the id-prefix
  fallback for a missing `utility_id`, the derived `interval_end_ts`, and the
  left join that gives utility 2 readings their service point.
- `Product` (`product.dfy`) is the fact joiner. It does two left merges with
  suffixes on clashing columns, fills a null tag with `UNKNOWN_UTILITY`, and
  puts the columns in a fixed order.
- `Security` (`security.dfy`) is the access filter `mask_pii` and
  `get_pii_columns`.
- `Experience` (`experience.dfy`) is the window aggregator. It fills null
  keys, drops unparsable timestamps and puts rows into daily buckets. Per
  group it computes the total and count and the first-occurrence peak and pit,
  then merges them on the group key.
- The supporting modules hold shared vocabulary. `Frames` has cells, rows,
  tables and pandas' coercions. `Relational` has first-wins `drop_duplicates`,
  filtering and the left join, with their general lemmas. `Strings` and
  `Wrappers` hold the rest.

A cell is `Null` (pandas `None`/`NaN`), text, an integer or a timestamp in
whole seconds since the epoch (UTC). Standardized entities are records of
cells. The joiner, the filter and the aggregator work on any columns, so they
work on a generic table: a list of column names plus rows mapping names to
cells. A missing column that the source reads with `df[...]` is a `KeyError`,
modelled as `Err(column)`. A column read with `df.get(...)` becomes nulls.

The standardizer takes each mapper's constant tag (`UTILITY1`/`UTILITY2`) as
a parameter. The source assigns that constant to an empty DataFrame before
any other column exists. pandas then re-indexes the column to nulls once the
first Series column arrives. `AsWritten` passes null tags, which is what the
code produces. `Intended` passes the constants the code evidently means. The
findings below compare the two, and the rest of the model uses `Intended`.

Four behaviours of the code that a reader might not expect:

- The interval duplicate key has no `channel`, so two channels at one instant
  collapse into one reading.
- The joiner does not call the access filter and takes no access level.
- `interval_count` counts non-null values, not rows.
- External masking is not idempotent on short ZIP codes.

## Model

| member | source | states |
|---|---|---|
| Standardized.NormalizeName | gridflow/io_standardized.py:10 | a normalised name is the stripped name lower-cased character for character; so it has no upper-case letter, no leading or trailing blank, and is no longer than the original |
| Strings.Strip | gridflow/io_standardized.py:10 | `strip` returns a slice of its input with only blanks cut off at either end, and the result neither starts nor ends with a blank |
| Strings.Lower | gridflow/io_standardized.py:10 | `lower` keeps the length and lowers every character, so no upper-case letter is left and every other character is kept |
| Standardized.NormalizeNameIdempotent | gridflow/io_standardized.py:7-11 | normalising a normalised name changes nothing |
| Standardized.NormalizeColumns | gridflow/io_standardized.py:7-11 | the rows are untouched; column count and order are kept, and each name is replaced by its normalised form |
| Standardized.NormalizeColumnsIdempotent | gridflow/io_standardized.py:7-11 | normalising the columns twice equals normalising them once |
| Standardized.ColumnIndex | gridflow/io_standardized.py:31 | finds the first position holding the name, and finds one exactly when the name is a column |
| Standardized.Field | gridflow/io_standardized.py:29-42 | a column read gives the row's cell under the first occurrence of the name (null when the row is shorter), and `df.get` of an absent column gives null |
| Standardized.FirstMissing | gridflow/io_standardized.py:31-38 | reports a required column that is absent, and reports nothing exactly when all are present |
| Standardized.MapRows | gridflow/io_standardized.py:27-43 | a mapper fails exactly when a required column is missing, naming it; otherwise it emits one record per input row, built from the normalised table |
| Standardized.StandardizeUtility1ServicePoints | gridflow/io_standardized.py:18-44 | fails exactly when a `df[...]` column is missing; otherwise one record per row with the given tag, the id copied from `service_point_id`, and `house_num`/`house_supp` null |
| Standardized.StandardizeUtility2ServicePoints | gridflow/io_standardized.py:47-72 | fails exactly when a `df[...]` column is missing; otherwise one record per row with the id copied from `premise_id`, and `service_point_number`, `installed_at`, `removed_at`, `updated_at` null |
| Standardized.ServicePointTag | gridflow/io_standardized.py:86-90 | the fallback tag is always UTILITY1 or UTILITY2, and UTILITY1 exactly when the id's string form starts with `SP-` |
| Standardized.CombineServicePoints | gridflow/io_standardized.py:82-90 | the result is the first-wins deduplication of utility 1 rows followed by utility 2 rows, with only the tag changed; a present tag is kept, a null one becomes the prefix tag, and no tag is left null |
| Standardized.BuildStandardizedServicePoints | gridflow/io_standardized.py:75-92 | succeeds exactly when both mappers succeed, and then no service point has a null tag |
| Standardized.CombinedServicePointsUnique | gridflow/io_standardized.py:82-90 | when all tags are present or all are null, no `(utility_id, service_point_id)` occurs twice after reconciliation |
| Standardized.StandardizedServicePointsUnique | tests/test_service_points_unique.py:13-14 | the reconciled service points are unique on `(utility_id, service_point_id)`, whether the mappers' tags are present or null |
| Standardized.ServicePointIdsCollapseAsWritten | gridflow/io_standardized.py:29-31 | with the tags as written, no two reconciled service points share an id, even across utilities |
| Standardized.SharedIdScenarioAsWritten | gridflow/io_standardized.py:82-90 | with the tags as written, utility 1 `SP-1` and utility 2 `SP-1` reconcile to the single row `SP-1` tagged UTILITY1 |
| Standardized.SharedIdScenario | gridflow/io_standardized.py:82-83 | with tags present, utility 1 `SP-1` and utility 2 `SP-1` both survive, each with its own tag |
| Standardized.CombineTaggedServicePoints | gridflow/io_standardized.py:82-90 | when every service point already has a tag, reconciliation is plain first-wins deduplication |
| Standardized.TaggedKeysDisjoint | gridflow/io_standardized.py:82-83 | rows tagged UTILITY1 and rows tagged UTILITY2 share no `(utility_id, service_point_id)` key |
| Standardized.CrossUtilityIdsKept | gridflow/io_standardized.py:82-83 | with the intended tags, the reconciled service points are utility 1's deduplicated rows followed by utility 2's, so no premise is lost to a utility 1 id |
| Standardized.StandardizeUtility1Meters | gridflow/io_standardized.py:114-127 | fails exactly when `meter_id` is missing; otherwise one meter per row with `serial_number` equal to `meter_id` and a null service point |
| Standardized.StandardizeUtility2Meters | gridflow/io_standardized.py:129-141 | fails exactly when a `df[...]` column is missing; otherwise one meter per row whose service point is the row's `premise_id` |
| Standardized.IdPrefixTag | gridflow/io_standardized.py:147-154 | the fallback tests the service point id, or the meter id when that is null; the tag is UTILITY1 exactly when that id starts with `SP-` or `MTR-` |
| Standardized.CombineMeters | gridflow/io_standardized.py:143-154 | first-wins deduplication on `(utility_id, meter_id)` over utility 1 then utility 2 meters; only the tag changes, a present tag is kept, and no tag is left null |
| Standardized.StandardizeMeters | gridflow/io_standardized.py:99-156 | succeeds exactly when both mappers succeed, and then no meter has a null tag |
| Standardized.CombineTaggedMeters | gridflow/io_standardized.py:147-154 | when every meter already has a tag, the fallback changes nothing |
| Standardized.StandardizedMetersUnique | gridflow/io_standardized.py:143-144 | with the intended tags, the meters are exactly the first row of every `(utility_id, meter_id)`, utility 1 first, and no key repeats |
| Standardized.CombinedMetersUnique | gridflow/io_standardized.py:143-154 | when all tags are present or all are null, no `(utility_id, meter_id)` occurs twice after reconciliation |
| Standardized.StandardizedMetersUniqueEitherPolicy | gridflow/io_standardized.py:99-156 | the reconciled meters are unique on `(utility_id, meter_id)`, whether the mappers' tags are present or null |
| Standardized.AddIntervalEnd | gridflow/io_standardized.py:163-170 | only start and end change; the start is the parsed timestamp; with a numeric or null duration, end = start + duration, end = start for a null duration, and end is null for a null start |
| Standardized.AddEnds | gridflow/io_standardized.py:163-170 | the end column is added to every reading, one for one and in order |
| Standardized.StandardizeUtility1Intervals | gridflow/io_standardized.py:190-204 | fails exactly when a `df[...]` column is missing; otherwise one reading per row, in order, with the tag, its service point and meter copied, the parsed start, `to_numeric` of the row's duration and value, and a consistent end |
| Standardized.Utility2Meters | gridflow/io_standardized.py:220-222 | keeps exactly the meters tagged UTILITY2, and keeps their keys unique |
| Standardized.LinkServicePoints | gridflow/io_standardized.py:223-227 | the left join has at least as many readings as it is given |
| Standardized.LinkedReadings | gridflow/io_standardized.py:220-227 | every reading comes out with the service point of a UTILITY2 meter of its `(utility_id, meter_id)`, or unlinked when there is none; every output reading is one of these |
| Standardized.Utility2ReadingsInheritServicePoint | gridflow/io_standardized.py:219-229 | with meters unique on their key, readings are kept one for one and in order; each takes the service point of the UTILITY2 meter with its `(utility_id, meter_id)`, or null when there is none; nothing else changes |
| Standardized.Utility2ReadingsUnlinkedAsWritten | gridflow/io_standardized.py:208-210 | readings with a null tag match no UTILITY2 meter, so every one keeps a null service point |
| Standardized.Utility2Base | gridflow/io_standardized.py:207-217 | fails exactly when a `df[...]` column is missing; otherwise one reading per row, in order, with the mapper's tag, no service point, the row's `meter_id`, `timestamp`, `quality` and `channel`, and `to_numeric` of its `duration` and `value` |
| Standardized.StandardizeUtility2Intervals | gridflow/io_standardized.py:206-229 | fails exactly when a `df[...]` column is missing; otherwise at least as many readings as raw rows, each carrying the mapper's tag and a consistent end |
| Standardized.Utility2IntervalsFromRows | gridflow/io_standardized.py:206-229 | with meters unique on their key, one reading per raw row, in order, with the tag, the row's meter id, parsed start, `to_numeric` duration and value, quality, channel, a consistent end, and the matching UTILITY2 meter's service point or null |
| Standardized.LinkKeepsTagAndDuration | gridflow/io_standardized.py:223-229 | the meter join changes neither a reading's tag nor its numeric-or-null duration |
| Standardized.CombineIntervals | gridflow/io_standardized.py:231-244 | first-wins deduplication on `(utility_id, service_point_id, meter_id, interval_start_ts)` over utility 1 then utility 2 readings; only the tag changes, a present tag is kept, and no tag is left null |
| Standardized.StandardizeIntervals | gridflow/io_standardized.py:173-246 | succeeds exactly when the meters, the utility 1 readings and the utility 2 readings all standardize; the result is then the reconciliation of the two reading sets, and no reading has a null tag |
| Standardized.CombinedEndConsistent | gridflow/io_standardized.py:231-244 | reconciliation keeps every reading's derived end consistent |
| Standardized.StandardizedIntervalsEndConsistent | gridflow/io_standardized.py:163-170 | every standardized reading has end = start + duration, end = start for a null duration, and a null end for a null start |
| Standardized.CombinedIntervalsUnique | gridflow/io_standardized.py:231-244 | when all tags are present or all are null, no `(utility_id, service_point_id, meter_id, interval_start_ts)` occurs twice after reconciliation |
| Standardized.StandardizedIntervalsUnique | gridflow/io_standardized.py:173-246 | the standardized readings are unique on `(utility_id, service_point_id, meter_id, interval_start_ts)`, whether the mappers' tags are present or null |
| Standardized.CombineTaggedIntervals | gridflow/io_standardized.py:236-244 | when every reading already has a tag, reconciliation is plain first-wins deduplication |
| Standardized.TaggedIntervalKeysDisjoint | gridflow/io_standardized.py:231-234 | readings tagged UTILITY1 and readings tagged UTILITY2 share no key |
| Standardized.StandardizedReadingsKept | gridflow/io_standardized.py:173-246 | with the intended tags, the meters are unique, each utility's readings are its raw rows one for one, and the result is utility 1's deduplicated readings followed by utility 2's |
| Standardized.ChannelsCollapse | gridflow/io_standardized.py:232-234 | two channels of one meter at the same instant collapse into the first reading |
| Relational.Dedup | gridflow/io_standardized.py:83 | `drop_duplicates` is no longer than its input, keeps only input rows, repeats no key and loses no key |
| Relational.DedupIsFirstOccurrences | gridflow/io_standardized.py:144 | deduplication keeps exactly the first row of every key, in input order |
| Relational.DedupDisjoint | gridflow/io_standardized.py:82-83 | deduplicating two parts with disjoint keys is deduplicating each part, one after the other |
| Relational.Filter | gridflow/io_standardized.py:220 | boolean row selection keeps only input rows that satisfy the condition, and keeps every such row |
| Relational.Positions | gridflow/io_standardized.py:220 | the positions of the rows that satisfy the condition are in range, strictly increasing, and each satisfies it |
| Relational.PositionsComplete | gridflow/io_standardized.py:220 | every position whose row satisfies the condition is among them |
| Relational.FilterInOrder | gridflow/io_standardized.py:220 | row selection is exactly the rows at the satisfying positions, in input order and with their multiplicity |
| Relational.FilterUnique | gridflow/io_standardized.py:220-222 | row selection keeps keys unique |
| Relational.Lookup | gridflow/io_product.py:21-26 | finds a right row with the key exactly when some right row has it |
| Relational.LeftJoin | gridflow/io_product.py:21-26 | a left merge has at least one output row per left row |
| Relational.LeftJoinNoMatches | gridflow/io_standardized.py:223-227 | when no key matches, each left row comes out once, alone |
| Relational.LookupOfUnique | gridflow/io_experience.py:82-86 | with unique right keys, looking up a right row's own key finds that row |
| Relational.LeftJoinOfUnique | gridflow/io_experience.py:82-86 | with unique right keys, a left merge keeps the left rows one for one and in order |
| Relational.MatchesEmpty | gridflow/io_product.py:21-26 | a left row has no matching right row exactly when its key is not among the right keys |
| Relational.JoinOneFrom | gridflow/io_product.py:21-26 | a left row yields at least one output row, each either combined with a right row of its key or, when no right row has its key, kept alone |
| Relational.LeftJoinComplete | gridflow/io_product.py:21-26 | every left row yields an output row: combined with a right row of its key, or alone when no right row has its key |
| Relational.LeftJoinSound | gridflow/io_product.py:21-26 | every output row comes from some left row, combined with a right row of its key or alone when no right row has its key |
| Frames.ToNumeric | gridflow/io_standardized.py:197 | `pd.to_numeric(errors="coerce")` yields a number or null, keeps numbers, and keeps nulls null |
| Frames.ToDatetime | gridflow/io_standardized.py:166 | `pd.to_datetime(errors="coerce")` yields a timestamp or null, keeps timestamps, and keeps nulls null |
| Frames.Assign | gridflow/io_product.py:21-34 | writing cells under distinct names sets exactly those cells and leaves the others |
| Product.KeyOf | gridflow/io_product.py:23 | a row's merge key is its cells under the key columns, in key order |
| Product.Carried | gridflow/io_product.py:21-34 | the right table brings along only its non-key columns, and all of them |
| Product.CarriedInOrder | gridflow/io_product.py:21-34 | the carried columns are the right table's non-key columns in their own order |
| Product.Renamed | gridflow/io_product.py:25 | a carried column that clashes with a left column takes the suffix; any other keeps its name |
| Product.MergedColumns | gridflow/io_product.py:21-34 | the left columns come first, unchanged, followed by the carried columns in order, each renamed: every non-clashing right column is present, and every clashing one under its suffixed name |
| Product.Merge | gridflow/io_product.py:21-34 | fails exactly when a key column is missing or the merged names repeat; otherwise it has the merged columns, at least one row per left row, and keeps rows well formed |
| Product.MergeRowsWellFormed | gridflow/io_product.py:21-34 | every merged row has exactly the merged columns |
| Product.JoinedMerged | gridflow/io_product.py:21-34 | a row the left join combines is the left row extended by the matched right row's carried cells, or by nulls when no right row has its key |
| Product.MergeComplete | gridflow/io_product.py:21-34 | every left row appears in the merge, its own cells kept and extended by a right row of its key, or by nulls when there is none |
| Product.MergeSound | gridflow/io_product.py:21-34 | every merged row is some left row so extended |
| Product.MergedFromKeeps | gridflow/io_product.py:21-34 | a merged row keeps every cell of its left row |
| Product.MergeOfUnique | gridflow/io_product.py:21-34 | with unique right keys, each left row comes out once and in order, its own cells unchanged, gaining the matching right row's cells or nulls |
| Product.FillUtility | gridflow/io_product.py:37 | a null tag becomes `UNKNOWN_UTILITY`, a present tag is kept, and no other cell changes |
| Product.OrderColumns | gridflow/io_product.py:39-57 | the output columns are exactly the joined columns, none repeated, ordered base columns first, then location columns, then the rest in their own order |
| Product.OrderColumnsRanked | gridflow/io_product.py:53-56 | the fixed columns present followed by the extra columns are in rank order |
| Product.FixedColumnsDistinct | gridflow/io_product.py:39-51 | no column is both a base and a location column |
| Product.Joined | gridflow/io_product.py:21-34 | after both merges, every interval column is still present, there are at least as many rows as interval rows, and rows stay well formed |
| Product.Finish | gridflow/io_product.py:37-57 | the tag fill and the reordering keep the row count, put the columns in the fixed order of `OrderColumns`, and leave no null tag |
| Product.BuildCustomerUsageInterval | gridflow/io_product.py:6-59 | succeeds exactly when both merges do; then there are at least as many rows as interval rows, no tag is null, the columns are the joined columns in the fixed order, and rows stay well formed |
| Product.KeepsThroughMerges | gridflow/io_product.py:21-37 | an interval row carried through both merges and the tag fill keeps its cells, with a null tag filled |
| Product.UsageRowsCoverIntervals | gridflow/io_product.py:21-59 | every interval row has a usage row that keeps its cells (a null tag becomes `UNKNOWN_UTILITY`) |
| Product.UsageRowsFromIntervals | gridflow/io_product.py:21-59 | every usage row keeps the cells of some interval row |
| Product.CarriedCells | gridflow/io_product.py:21-34 | after a merge, every carried column shows the cell of the right row with the left row's key, or null, under its own name when it does not clash and under the suffixed name when it does |
| Product.BuildIsFinishOfMerges | gridflow/io_product.py:21-37 | the built table is the two merges followed by the tag fill, row by row |
| Product.UsageRowOfMerges | gridflow/io_product.py:21-37 | one interval row passed through both merges and the fill is that interval's usage row |
| Product.UsageRowsOneToOne | gridflow/io_product.py:21-34 | with unique meter and service point keys, there is exactly one usage row per interval, in order; it keeps the interval's cells and shows every carried cell of the matching meter and service point, or nulls, under its own name or, on a clash, under its `_meter` or `_sp` name (so the meter's `service_point_id` as `service_point_id_meter`, and the service point's `installed_at`, `removed_at`, `created_at` and `updated_at` as `…_sp`); the service point join uses the interval's own `service_point_id` |
| Product.MeterServicePointRenamed | gridflow/io_product.py:21-26 | when intervals have `service_point_id` in second place and meters have one too, the meter's becomes `service_point_id_meter` and the interval's keeps its name |
| Product.StandardizedColumnsClash | gridflow/io_standardized.py:192-194 | the standardized intervals have `service_point_id` in second place, and the standardized meters have one too |
| Product.StandardizedFramesUnique | gridflow/io_standardized.py:83 | standardized records unique on their keys give tables unique on the merge keys |
| Product.MeterKeyOfRow | gridflow/io_product.py:23 | a meter row's merge key is the meter's reconciliation key |
| Product.ServicePointKeyOfRow | gridflow/io_product.py:31 | a service point row's merge key is the service point's reconciliation key |
| Product.ServicePointTableWellFormed | gridflow/io_standardized.py:29-43 | the standardized service point table has distinct columns and every row has exactly them |
| Product.MeterTableWellFormed | gridflow/io_standardized.py:116-127 | the standardized meter table has distinct columns and every row has exactly them |
| Product.IntervalTableWellFormed | gridflow/io_standardized.py:192-202 | the standardized interval table has distinct columns and every row has exactly them |
| Security.MaskAddress | gridflow/io_security.py:24-26 | null stays null, and anything else becomes `***MASKED***` |
| Security.Zip3 | gridflow/io_security.py:30-32 | null stays null; anything else becomes the first three characters of its string form (fewer if shorter) followed by `**` |
| Security.MaskRow | gridflow/io_security.py:20-32 | masking a row keeps its columns |
| Security.ApplyRow | gridflow/io_security.py:24 | `apply` on one column rewrites that cell only and keeps the row's columns |
| Security.MaskPii | gridflow/io_security.py:10-34 | the loop computes `Masked`: the input itself for `internal`, otherwise the same columns and rows with each cell rewritten per column |
| Security.ApplyColumn | gridflow/io_security.py:24 | rewriting one column keeps the columns and the row count, and rewrites every row by `ApplyRow` |
| Security.GetPiiColumns | gridflow/io_security.py:37-39 | the address columns followed by the ZIP column |
| Security.InternalUnchanged | gridflow/io_security.py:17-18 | the internal level returns the table unchanged |
| Security.MaskedCells | gridflow/io_security.py:20-32 | any other level keeps columns and row count, leaves non-PII and absent columns alone, keeps nulls, and redacts non-null address cells |
| Security.Zip3Idempotent | gridflow/io_security.py:31 | coarsening a ZIP twice equals once exactly when it is null or its string form has at least three characters |
| Security.ShortZipCounterexample | gridflow/io_security.py:31 | `12` becomes `12**` and then `12***` |
| Security.MaskRowIdempotentIff | gridflow/io_security.py:22-32 | masking a row twice equals masking it once exactly when its ZIP is long enough; its address cells are always idempotent |
| Security.MaskIdempotentIff | gridflow/io_security.py:22-32 | masking twice equals masking once exactly when every ZIP is long enough; the address columns are always idempotent |
| Experience.Fill | gridflow/io_experience.py:17-18 | the filled cell is never null, and a present cell is kept |
| Experience.Reparse | gridflow/io_experience.py:21-25 | a null never parses, and a timestamp parses to itself |
| Experience.KeptRows | gridflow/io_experience.py:14-26 | no more rows than the input, none with a null key; nothing is kept exactly when no start parses |
| Experience.KeptRowsInOrder | gridflow/io_experience.py:14-26 | exactly one kept row per row whose start parses, in input order, each that row with its keys filled and its parsed start |
| Experience.KeptRowsComplete | gridflow/io_experience.py:21-26 | every row whose start parses is kept, with its keys filled |
| Experience.KeptRowsSound | gridflow/io_experience.py:14-26 | every kept row is some input row whose start parses to the kept time, with its keys filled |
| Experience.BucketStart | gridflow/io_experience.py:48-49 | the bucket start is a midnight, at most the timestamp and less than a day before it |
| Experience.KeyOfKept | gridflow/io_experience.py:48-52 | bucket start ≤ timestamp ≤ bucket end < bucket start + one day |
| Experience.GroupKeys | gridflow/io_experience.py:52 | the group keys are distinct, every kept row's key is among them, and each comes from some kept row |
| Experience.Members | gridflow/io_experience.py:56 | a group holds only kept rows with its key, and all of them |
| Experience.MembersInOrder | gridflow/io_experience.py:56 | a group is exactly the kept rows with its key, in input order |
| Experience.Values | gridflow/io_experience.py:58-59 | the non-null values of a group: every present value is among them, and it is empty exactly when the group has none |
| Experience.ValuesInOrder | gridflow/io_experience.py:58-59 | there is exactly one value per row with a value, and they come in row order |
| Experience.PeakIndex | gridflow/io_experience.py:65 | `idxmax` finds the first row holding the largest value, and finds nothing exactly when there is no value |
| Experience.PitIndex | gridflow/io_experience.py:74 | `idxmin` finds the first row holding the smallest value, and finds nothing exactly when there is no value |
| Experience.BuildCustomerUsageSummary | gridflow/io_experience.py:6-88 | missing id or timestamp columns fail in source order; if no start parses the summary is empty; otherwise it succeeds exactly when there is a `value` column and every group has a value |
| Experience.SummaryRowKeys | gridflow/io_experience.py:28-42 | a summary row has exactly the ten summary columns |
| Experience.SummaryTable | gridflow/io_experience.py:28-42 | the summary always has the ten summary columns in their fixed order, one row per summary, so an empty summary is the empty schema |
| Experience.ExpectedDescribes | gridflow/io_experience.py:55-80 | a group's summary has its key, the sum and count of its values, and the largest and smallest value each with the start time of the first row holding it |
| Experience.SummaryIsExpected | gridflow/io_experience.py:82-86 | both merges are on the unique group key, so there is one summary per group, in group order |
| Experience.SummaryPerGroup | gridflow/io_experience.py:52-86 | each summary row describes its group: key, total, count, first-occurrence peak and pit, and pit ≤ every value ≤ peak |
| Experience.EachRowInOneGroup | gridflow/io_experience.py:52-62 | no two summary rows share a key, and every kept row's group is described by one of them |
| Experience.DescribedInBucket | gridflow/io_experience.py:48-80 | a described row's bucket is one day from midnight, and its peak and pit times lie inside it |
| Experience.SummaryTimesInBucket | gridflow/io_experience.py:48-80 | every summary row's bucket is one day from midnight, with its peak and pit times inside it |
| Experience.TableRowsSummarized | gridflow/io_experience.py:14-86 | on the joined table, the summary rows have distinct keys and lie in their buckets, and every row whose start parses has its group described |
| Experience.SingleGroupSummary | gridflow/io_experience.py:82-86 | a table of one group gives exactly one summary row, that group's expected one |
| Experience.ExampleGroups | gridflow/io_experience.py:52 | two readings with one key form a single group |
| Experience.ExampleMembers | gridflow/io_experience.py:56 | that group holds both readings, in order |
| Experience.ExampleExtremes | gridflow/io_experience.py:58-80 | for 10 then 30, the values are `[10, 30]`, the peak is the second and the pit the first |
| Experience.ExampleTotal | gridflow/io_experience.py:58-62 | for 10 and 30 the total is 40 over 2 readings |
| Experience.ExamplePeakAndPit | gridflow/io_experience.py:64-80 | for 10 at 08:00 then 30 at 14:00 the peak is 30 at 14:00 and the pit 10 at 08:00 |
| Experience.ExampleExpected | gridflow/io_experience.py:55-80 | the expected summary of 10 at 08:00 and 30 at 14:00 is total 40, count 2, peak 30 at 14:00, pit 10 at 08:00 |
| Experience.WorkedExample | gridflow/io_experience.py:55-86 | values 10 at 08:00 and 30 at 14:00 for one service point on one day give one row: total 40, count 2, peak 30 at 14:00, pit 10 at 08:00 |

## Left out

- Reading the CSV exports (`gridflow/io_landing.py`) is not part of this model. The raw tables are inputs.
- The pipeline scripts under `gridflow/pipelines/` only orchestrate and print counts, including the orphan-set display. They are not part of this model.
- pandas' text parsing (`to_numeric`, `to_datetime` on strings) is the `Parsers` parameter. An integer given to `to_datetime` is read as nanoseconds and truncated to seconds.
- `astype(str)` renders numbers and timestamps as decimal seconds. pandas' own rendering of timestamps and floats is not modelled.
- Standardized.NormalizeName: strip and lower-case cover ASCII blanks and letters only. Python's Unicode rules are not modelled.
- Values and durations are integers. Floating point, NaN arithmetic and float rendering are not modelled.
- Standardized.AddIntervalEnd: timestamps and durations are unbounded whole seconds. pandas' datetime64[ns] range (about 1677-09-21 to 2262-04-11) is not modelled, nor the OutOfBoundsTimedelta and int64 OverflowError that `start + pd.to_timedelta(duration, unit="s")` at gridflow/io_standardized.py:169 raises outside it; for such inputs the model returns an end and the standardize stages succeed where the source raises.
- A non-numeric cell in `value` counts as a missing value in the aggregator.
- pandas index labels and dtypes are not modelled. Rows are kept in order and addressed by position.
- pandas merges match null keys with null keys. The model does the same by comparing cells, null included.
- Product.Merge fails when the merged column names repeat. pandas only raises for some of these clashes.
- Product.Joined: the exact column list of the joined standardized tables is not proved. Only the meter's `service_point_id` rename is (Product.MeterServicePointRenamed).
- Security.MaskPii: for `internal` the source returns the very same DataFrame object. The model returns an equal value, so aliasing is not captured.
- The source's test of masking passes a `pii_access_level` argument that `build_customer_usage_interval` does not take. The joiner does not mask, and the model follows it.
- The interval-linkage test depends on the data files. The model proves the linkage lemma instead (Standardized.Utility2ReadingsInheritServicePoint).
- Standardized.StandardizeUtility2Intervals: its own contract bounds the reading count from below. One reading per raw row, with its contents, needs unique meter keys and is stated by Standardized.Utility2IntervalsFromRows.
- Standardized.LinkServicePoints: its own contract bounds the reading count from below. Which reading comes out how is stated by Standardized.LinkedReadings, and one for one under unique meter keys by Standardized.Utility2ReadingsInheritServicePoint.
- Experience.KeptRows: its own contract states the bound and the empty case. Which rows are kept, once each and in order, is stated by Experience.KeptRowsInOrder.
- Standardized.StandardizeIntervals: its contract does not state the error order. The code returns the first failing stage: meters, then utility 1 readings, then utility 2 readings.
- Standardized.ColumnIndex: when two raw columns normalise to the same name, the model reads the first. pandas would return both.
- Only the daily window is modelled. Bucket end is start + 86399 s, because whole seconds stand in for pandas' end-of-day nanosecond.
- Groups come out in order of first appearance. pandas' `groupby` sorts them.
- Experience.BuildCustomerUsageSummary: a group with no numeric value is an error here. pandas' `idxmax` either raises or yields a label that `.loc` rejects, depending on the version.
- Experience.BuildCustomerUsageSummary: its contract states the failures and the empty case. The per-group contents are stated by Experience.TableRowsSummarized and Experience.SummaryPerGroup.
- Relational.Filter: its own contract states membership both ways. Order and multiplicity are stated by Relational.FilterInOrder, kept in a separate lemma so that proofs about callers do not unfold the selection.
- Experience.Members: its own contract states membership both ways. Order and multiplicity are stated by Experience.MembersInOrder.
- Experience.Values: its own contract states membership and emptiness. Count and order are stated by Experience.ValuesInOrder.
- Product.Carried: its own contract states membership both ways. Order is stated by Product.CarriedInOrder.
- Relational.LeftJoin: its own contract bounds the row count from below. Which output row comes from which left row is stated by Relational.LeftJoinComplete and Relational.LeftJoinSound.
- Product.Merge: its own contract bounds the row count from below. The rows themselves are stated by Product.MergeComplete and Product.MergeSound.
- Product.Joined: its own contract bounds the row count from below. The rows are stated through the two merges (Product.MergeComplete, Product.MergeSound).
- Product.BuildCustomerUsageInterval: its own contract bounds the row count from below. The rows are stated by Product.UsageRowsCoverIntervals and Product.UsageRowsFromIntervals, and exactly one per interval under unique keys by Product.UsageRowsOneToOne.

## Findings

| source | as written | input that shows it | evidently intended | confidence | as-written member | corrected member |
|---|---|---|---|---|---|---|
| gridflow/io_standardized.py:29-31, 57-59, 83 (likewise 116-118, 131-133, 144) | the constant tag is set on an empty DataFrame, so pandas re-indexes it to null; the duplicate key is then the id alone, and the fallback tags rows only after deduplication | utility 1 service point `SP-1` and utility 2 premise `SP-1` reconcile to one row tagged UTILITY1 | every row carries its utility's tag before deduplication, so both rows survive | high for the pandas rule; not executed | Standardized.SharedIdScenarioAsWritten | Standardized.SharedIdScenario |
| gridflow/io_standardized.py:83 | with null tags, a utility 2 premise is dropped whenever a utility 1 service point has the same id | utility 1 service points `SP-1`, `SP-2` and utility 2 premise `SP-2`: the premise is dropped | deduplicate within each utility | high; not executed | Standardized.ServicePointIdsCollapseAsWritten | Standardized.CrossUtilityIdsKept |
| gridflow/io_standardized.py:208-210, 220-227 | utility 2 readings reach the meter merge with a null tag, but every meter they are merged against is tagged UTILITY2, so none matches | any utility 2 reading whose meter exists | readings tagged UTILITY2 take the service point of their meter | high; not executed | Standardized.Utility2ReadingsUnlinkedAsWritten | Standardized.Utility2ReadingsInheritServicePoint |
