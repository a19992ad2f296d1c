# Personal health ledger — verified model of the consolidation and comparison core

The personal health ledger collects body-weight readings exported by a smart scale in two
formats: monthly CSV files and FIT files. It merges them into one canonical, de-duplicated
list of measurements, and it reports how well the two formats agree.

This project models the part of the ledger that decides what ends up in that list and in
the report, and proves properties of it:

- **Timestamp matching.** Two readings match when their instants are at most the tolerance
  apart (`TimezoneUtils`).
- **Record identifiers.** The instant is rounded down to the rounding interval. The
  configured fragments (rounded instant, weight, source kinds) are joined with `|` and
  hashed (`Hashing`).
- **Field merge.** For one field, CSV and FIT values are combined with the absent, equal
  within tolerance, and conflict cases, and with the per-field source preference
  (`Consolidation.MergeField`).
- **Record merge.** One CSV group and the FIT records absorbed into it become one canonical
  measurement, with lineage, field provenance, the conflict list and the audit readings
  (`Consolidation.MergeRecords`). The model also covers the failure when the weight is
  missing.
- **Consolidation of a batch.** Records are grouped by exact timestamp. CSV groups absorb
  every FIT group within tolerance, and unmatched FIT groups stand alone. Any failure aborts
  the batch, and the result is sorted by timestamp (`ConsolidationBatch.Consolidate`,
  `ConsolidationFacts`).
- **File pairing for the comparison report.** Month and year are read from a file name
  such as `Peso 1-2024 Huawei Health.csv`. CSV and FIT files with the same month are
  paired, and unpaired files are listed after the pairs (`ComparisonPairing`).
- **Pair comparison.** Each CSV reading is matched with its first FIT reading within
  tolerance. The report counts CSV-only, FIT-only and both, the per-field mismatches above
  the numeric tolerance, the timestamp ranges and the mean absolute weight difference
  (`Comparison`).
- **CSV text rules.** The model covers the delimiter choice, the renaming of headers to the
  canonical schema, and comma-decimal numbers that yield None instead of an error
  (`CsvParser`).

Modelling choices:

- **Instants.** Instants are whole seconds (`Timestamp = int`).
- **Readings.** Numeric readings are `real`. A record's fields are a `map<Field, real>`, in
  which a missing key is Python's `None`.
- **Dictionaries.** Python dictionaries whose insertion order matters are a key sequence
  plus a map. The generic `Grouping.GroupBy` is the `defaultdict(list)` grouping loop.
- **Library routines.** The routines the code calls from the standard library are
  parameters: `isoformat`, `"{:.3f}"`, `hashlib` and `float(str)`.
- **Methods and specifications.** Every loop of the source is a method proved equal to a
  specification function. The properties of the method are proved about that function.

## Model

| member | source | states |
|---|---|---|
| TimezoneUtils.MatchWindow | src/personal_health_ledger/utils/timezone_utils.py:62-77 | two instants match exactly when each lies within the tolerance window of the other |
| TimezoneUtils.MatchSymmetric | src/personal_health_ledger/utils/timezone_utils.py:76-77 | matching does not depend on argument order |
| TimezoneUtils.MatchReflexive | src/personal_health_ledger/utils/timezone_utils.py:76-77 | with a non-negative tolerance an instant matches itself |
| TimezoneUtils.MatchMonotone | src/personal_health_ledger/utils/timezone_utils.py:76-77 | widening the tolerance never loses a match |
| TimezoneUtils.NegativeToleranceNeverMatches | src/personal_health_ledger/utils/timezone_utils.py:76-77 | a negative tolerance matches nothing |
| Weight.FieldNameInjective | src/personal_health_ledger/domain/weight.py:128-152 | distinct fields have distinct attribute names, so name-keyed tables are well defined |
| Weight.AllFieldsTable | src/personal_health_ledger/services/consolidation.py:132-218 | the merge table lists all 14 fields, each once |
| Hashing.FloorDiv | src/personal_health_ledger/utils/hashing.py:26 | Python `//`: the quotient is the floor for positive divisors and the matching bound for negative ones |
| Hashing.RoundTimestamp | src/personal_health_ledger/utils/hashing.py:14-27 | Python floor division: for a positive interval the rounded instant lies at most one interval below the instant and never above it (mirrored for a negative interval); with `RoundTimestampIsMultiple` and `RoundTimestampIsFloor` it is the largest multiple not above the instant |
| Hashing.RoundTimestampIsMultiple | src/personal_health_ledger/utils/hashing.py:25-27 | the rounded instant is a multiple of the interval |
| Hashing.RoundTimestampIsFloor | src/personal_health_ledger/utils/hashing.py:25-27 | every multiple not above the instant is at most the rounded instant |
| Hashing.RoundTimestampIdempotent | src/personal_health_ledger/utils/hashing.py:14-27 | rounding twice equals rounding once |
| Hashing.SameBucketSameRounding | src/personal_health_ledger/utils/hashing.py:14-27 | instants in the same bucket round to the same bucket start |
| Hashing.SortedTypeValues | src/personal_health_ledger/utils/hashing.py:58-61 | the source-kind values in strictly ascending order, exactly one per kind present |
| Hashing.GenerateRecordId | src/personal_health_ledger/utils/hashing.py:30-68 | fails with a zero-interval error exactly when the rounding interval is zero |
| Hashing.SameBucketSameId | src/personal_health_ledger/utils/hashing.py:48-68 | readings in the same rounding bucket with equal weight and kinds get the same identifier |
| Hashing.IncludeFieldsOrderIrrelevant | src/personal_health_ledger/utils/hashing.py:52-61 | only which names `include_fields` contains matters, not their order or repetitions |
| Hashing.SourceTypeFragmentSingle | src/personal_health_ledger/utils/hashing.py:58-61 | the kinds fragment is "", "csv" or "fit" for no kind or one kind |
| Hashing.SourceTypeFragmentBoth | src/personal_health_ledger/utils/hashing.py:58-61 | both kinds give "csv,fit" |
| Hashing.HashStringDeterminesFragments | src/personal_health_ledger/utils/hashing.py:63 | when no fragment contains `\|`, splitting the hashed string recovers the fragments |
| PyText.Strip | src/personal_health_ledger/infrastructure/parsers/csv_parser.py:99 | `str.strip`: the result has no whitespace at either end and is no longer than the input |
| PyText.StripRemovesPadding | src/personal_health_ledger/infrastructure/parsers/csv_parser.py:99 | stripping removes exactly the surrounding whitespace of an unpadded core |
| PyText.JoinSplit | src/personal_health_ledger/services/comparison.py:112 | joining the pieces of a split with the separator gives the string back |
| PyText.SplitJoin | src/personal_health_ledger/utils/hashing.py:61-63 | splitting a join of separator-free parts gives the parts back |
| PyText.ContainsIff | src/personal_health_ledger/infrastructure/parsers/csv_parser.py:79 | the substring test holds exactly when the needle occurs at some position |
| PyText.ReplaceChar | src/personal_health_ledger/infrastructure/parsers/csv_parser.py:126 | `replace` maps each occurrence and leaves every other character, so none of the old character remains |
| PyText.ParseIntOfDecimal | src/personal_health_ledger/services/comparison.py:113-114 | `int` of a number's decimal text gives the number back |
| Grouping.GroupBy | src/personal_health_ledger/services/comparison.py:135-141 | keys in first-seen order without repeats, and each group holds exactly the records with that key, in input order |
| Grouping.Dedup | src/personal_health_ledger/services/consolidation.py:286-292 | first-occurrence key order: no repeats, same members |
| Grouping.SelectPresent | src/personal_health_ledger/services/consolidation.py:286-292 | a key that occurs has a non-empty group headed by a record with that key |
| Consolidation.MergeField | src/personal_health_ledger/services/consolidation.py:64-102 | the merged value is absent exactly when both inputs are |
| Consolidation.MergeFieldOutcome | src/personal_health_ledger/services/consolidation.py:81-102 | all branches: the source tag, the conflict flag (both present and more than the tolerance apart), and the value chosen by the preference |
| Consolidation.MergeFields | src/personal_health_ledger/services/consolidation.py:132-218 | the field loop yields the merged values, provenance tags and conflict list of the field table |
| Consolidation.MergeRecords | src/personal_health_ledger/services/consolidation.py:104-265 | the merge method returns exactly `MergeSpec`, failures included; what `MergeSpec` guarantees is stated by `MissingWeightExactly`, `MergeLineage`, `MergeValues`, `ConflictAudit` and `ConflictList` |
| Consolidation.ConflictOrder | src/personal_health_ledger/services/consolidation.py:137-146 | only weight and body fat are reported as conflicts, weight first |
| Consolidation.MissingWeightExactly | src/personal_health_ledger/services/consolidation.py:220-221 | the merge fails for a missing weight exactly when neither representative has a weight |
| Consolidation.MergeFailureCauses | src/personal_health_ledger/services/consolidation.py:119-124 | no records is the empty-input failure; an identifier failure comes from `generate_record_id` |
| Consolidation.MergeLineage | src/personal_health_ledger/services/consolidation.py:119-124 | the measurement takes the first record's instant, all file names and ids in order, and the union of kinds |
| Consolidation.MergeValues | src/personal_health_ledger/services/consolidation.py:126-218 | each field's value and tag are the field merge of the first CSV and first FIT record |
| Consolidation.ConflictAudit | src/personal_health_ledger/services/consolidation.py:257-263 | a conflict is listed exactly when both values disagree, and only then are both readings kept for audit |
| Consolidation.ConflictList | src/personal_health_ledger/services/consolidation.py:137-146 | the conflict list is weight then body fat, each present only if in conflict |
| Consolidation.SourceTypesOf | src/personal_health_ledger/services/consolidation.py:124 | exactly the kinds of the given records |
| ConsolidationBatch.FindMatchingRecords | src/personal_health_ledger/services/consolidation.py:42-62 | groups by (instant, kind): distinct keys, and each group holds exactly the records with that key |
| ConsolidationBatch.AbsorbedFit | src/personal_health_ledger/services/consolidation.py:300-304 | the FIT records absorbed by a CSV instant are exactly those within tolerance |
| ConsolidationBatch.Leftovers | src/personal_health_ledger/services/consolidation.py:310-311 | the leftover FIT instants are exactly those no CSV instant matched |
| ConsolidationBatch.CollectMatchingFit | src/personal_health_ledger/services/consolidation.py:298-305 | the inner loop collects the absorbed records and the matched FIT instants |
| ConsolidationBatch.MergeCsvGroups | src/personal_health_ledger/services/consolidation.py:297-308 | the CSV loop merges the CSV groups in order, stopping at the first failure |
| ConsolidationBatch.MergeLeftoverFit | src/personal_health_ledger/services/consolidation.py:310-313 | the leftover loop appends the merge of each unmatched FIT group |
| ConsolidationBatch.Consolidate | src/personal_health_ledger/services/consolidation.py:267-321 | the batch method returns exactly `ConsolidateSpec`, whose outcome, order, count and instants are stated in `ConsolidationFacts` |
| ConsolidationBatch.MergeAllSuccess | src/personal_health_ledger/services/consolidation.py:297-313 | the batch succeeds exactly when every group merges, keeping each group's result in place |
| ConsolidationBatch.MergeAllFirstFailure | src/personal_health_ledger/services/consolidation.py:320-321 | a failed batch reports the error of the first group that failed |
| ConsolidationBatch.InsertSorted | src/personal_health_ledger/services/consolidation.py:315 | inserting into a sorted list keeps it sorted |
| ConsolidationBatch.SortByTimestampSpec | src/personal_health_ledger/services/consolidation.py:315 | the sort is ordered by instant and stable: the readings of each instant keep their order |
| ConsolidationBatch.SortByTimestamp | src/personal_health_ledger/services/consolidation.py:315 | the sort is a permutation |
| ConsolidationFacts.MatchedIffNear | src/personal_health_ledger/services/consolidation.py:300-305 | a FIT instant is matched exactly when some CSV reading lies within tolerance |
| ConsolidationFacts.LeftoversAreUnmatched | src/personal_health_ledger/services/consolidation.py:310-313 | the standalone FIT instants are distinct and exactly the unmatched ones |
| ConsolidationFacts.PlanSize | src/personal_health_ledger/services/consolidation.py:286-313 | one group per distinct CSV instant plus one per unmatched FIT instant |
| ConsolidationFacts.CsvPlacement | src/personal_health_ledger/services/consolidation.py:286-308 | every CSV reading lands in the group of its own instant, and only there |
| ConsolidationFacts.FitPlacement | src/personal_health_ledger/services/consolidation.py:300-313 | a FIT reading joins every CSV group within tolerance, and stands alone exactly once when no CSV reading is near |
| ConsolidationFacts.PlanGroupsNonEmpty | src/personal_health_ledger/services/consolidation.py:307-312 | no group handed to the merge is empty |
| ConsolidationFacts.ConsolidateOutcome | src/personal_health_ledger/services/consolidation.py:267-321 | the batch succeeds exactly when every group merges; otherwise it fails with the first failing group's error |
| ConsolidationFacts.NeverNoRecords | src/personal_health_ledger/services/consolidation.py:307-312 | the empty-group failure never happens inside a batch |
| ConsolidationFacts.WeightlessCsvAborts | src/personal_health_ledger/services/consolidation.py:220-221 | a CSV instant with no weight and no FIT reading near it aborts the whole batch |
| ConsolidationFacts.ConsolidateOrdered | src/personal_health_ledger/services/consolidation.py:315-318 | the output is sorted, a permutation of the merged groups, and stable per instant |
| ConsolidationFacts.ConsolidateCount | src/personal_health_ledger/services/consolidation.py:294-318 | the output has one measurement per CSV instant plus one per unmatched FIT instant |
| ConsolidationFacts.ConsolidateTimestamps | src/personal_health_ledger/services/consolidation.py:294-318 | the output instants are exactly the CSV instants and the unmatched FIT instants |
| ComparisonPairing.ExtractFromName | src/personal_health_ledger/services/comparison.py:94-120 | a name whose second word is `<m>-<yyyy>` yields (m, yyyy) |
| ComparisonPairing.ExtractExample | src/personal_health_ledger/services/comparison.py:98 | "Peso 1-2024 Huawei Health.csv" yields (1, 2024) |
| ComparisonPairing.LatestByKey | src/personal_health_ledger/services/comparison.py:143-153 | the month index holds exactly the months some name yields, each mapped to a name with that month |
| ComparisonPairing.LatestWins | src/personal_health_ledger/services/comparison.py:146-147 | when two names share a month, the later name wins |
| ComparisonPairing.IndexByMonthYear | src/personal_health_ledger/services/comparison.py:143-153 | the indexing loop builds the month order and the latest-name index |
| ComparisonPairing.MatchedNames | src/personal_health_ledger/services/comparison.py:157-160 | one pair per CSV month also present among FIT months, in CSV month order |
| ComparisonPairing.FitOnlyNames | src/personal_health_ledger/services/comparison.py:168-171 | every entry is an unpaired FIT file alone |
| ComparisonPairing.CsvOnlyNames | src/personal_health_ledger/services/comparison.py:173-176 | every entry is an unpaired CSV file alone |
| ComparisonPairing.UnpairedPresent | src/personal_health_ledger/services/comparison.py:168-176 | every unpaired file is listed alone |
| ComparisonPairing.CsvNameCoverage | src/personal_health_ledger/services/comparison.py:122-178 | every CSV file appears in exactly one pair |
| ComparisonPairing.FitNameCoverage | src/personal_health_ledger/services/comparison.py:122-178 | every FIT file appears in exactly one pair |
| ComparisonPairing.PairOrder | src/personal_health_ledger/services/comparison.py:155-176 | same-month pairs first, then FIT-only, then CSV-only; no pair is empty on both sides |
| ComparisonPairing.BothSidesShareKey | src/personal_health_ledger/services/comparison.py:157-160 | a two-sided pair joins the latest CSV and latest FIT file of one month |
| ComparisonPairing.EarlierCsvUnpaired | src/personal_health_ledger/services/comparison.py:143-147 | a CSV file overwritten in the month index by a later one is reported alone |
| ComparisonPairing.EarlierFitUnpaired | src/personal_health_ledger/services/comparison.py:149-153 | a FIT file overwritten in the month index by a later one is reported alone |
| ComparisonPairing.CsvRecordCoverage | src/personal_health_ledger/services/comparison.py:135-178 | every CSV record is in exactly one pair, together with all records of its file |
| ComparisonPairing.FitRecordCoverage | src/personal_health_ledger/services/comparison.py:139-178 | every FIT record is in exactly one pair, together with all records of its file |
| ComparisonPairing.FindFilePairs | src/personal_health_ledger/services/comparison.py:122-178 | the pairing method returns exactly `FilePairs`, whose coverage and order are stated by `CsvRecordCoverage`, `FitRecordCoverage` and `PairOrder` |
| ComparisonPairing.SameKeyRecordPairs | src/personal_health_ledger/services/comparison.py:157-160 | the same-month loop yields the record lists of the matched names |
| ComparisonPairing.FitOnlyRecordPairs | src/personal_health_ledger/services/comparison.py:168-171 | the FIT-only loop yields the records of each unpaired FIT file |
| ComparisonPairing.CsvOnlyRecordPairs | src/personal_health_ledger/services/comparison.py:173-176 | the CSV-only loop yields the records of each unpaired CSV file |
| Comparison.FirstMatch | src/personal_health_ledger/services/comparison.py:217-247 | the first FIT index within tolerance, with none earlier; None when no FIT reading matches |
| Comparison.MatchedPairsAreFirstMatches | src/personal_health_ledger/services/comparison.py:217-225 | every matched pair is a CSV reading with its first matching FIT reading |
| Comparison.CsvOnlyExactly | src/personal_health_ledger/services/comparison.py:249-250 | the CSV-only readings are exactly those with no FIT reading within tolerance |
| Comparison.MatchedOrCsvOnly | src/personal_health_ledger/services/comparison.py:214-250 | every CSV reading is counted once, as both or as CSV-only |
| Comparison.FirstMatchIsMatched | src/personal_health_ledger/services/comparison.py:224 | the first match of every CSV reading is recorded as matched |
| Comparison.MatchedIsFirstMatch | src/personal_health_ledger/services/comparison.py:224 | only first matches are recorded as matched |
| Comparison.MatchedIndicesBound | src/personal_health_ledger/services/comparison.py:210-225 | matched indices are valid FIT indices, no more than the matched pairs |
| Comparison.FitOnlyOrMatched | src/personal_health_ledger/services/comparison.py:252-254 | every FIT reading is counted once, as matched or as FIT-only |
| Comparison.PairMismatchesExactly | src/personal_health_ledger/services/comparison.py:227-245 | a matched pair counts a field exactly when it disagrees beyond the tolerance (weight: both truthy; the others: both present), each field once |
| Comparison.BumpAllCount | src/personal_health_ledger/services/comparison.py:232-245 | adding a pair's mismatches raises each listed field's count by one |
| Comparison.MismatchesCount | src/personal_health_ledger/services/comparison.py:214-250 | each field's count is the number of matched pairs that disagree on it, and only positive counts appear |
| Comparison.MismatchesBound | src/personal_health_ledger/services/comparison.py:227-245 | only weight and the four compared fields are counted, each at most once per pair |
| Comparison.NoMismatchOutsideCompared | src/personal_health_ledger/services/comparison.py:234-239 | fields outside the compared list are never counted |
| Comparison.MeanBounds | src/personal_health_ledger/services/comparison.py:256-257 | the mean exists exactly for a non-empty list and lies within the bounds of its items |
| Comparison.MinTimestampIsLeast | src/personal_health_ledger/services/comparison.py:200-208 | the minimum exists exactly for non-empty input, is attained and is below every instant |
| Comparison.MaxTimestampIsGreatest | src/personal_health_ledger/services/comparison.py:200-208 | the maximum exists exactly for non-empty input, is attained and is above every instant |
| Comparison.ComparisonCounts | src/personal_health_ledger/services/comparison.py:180-259 | both + CSV-only = CSV readings; FIT-only + matched = FIT readings; mismatch counts are positive and at most both |
| Comparison.MaeBounds | src/personal_health_ledger/services/comparison.py:256-257 | the MAE exists exactly when some pair had two weights, and lies within the largest difference |
| Comparison.NothingToMatch | src/personal_health_ledger/services/comparison.py:193-208 | without FIT readings all CSV readings are CSV-only, there are no mismatches and no MAE, and the FIT side reads "N/A" |
| Comparison.MismatchExample | tests/test_comparison.py:140-205 | 75.5/18.2 against 76.0/18.5 at one instant: both 1, one weight and one body-fat mismatch, MAE 0.5 |
| Comparison.CsvOnlyExample | tests/test_comparison.py:74-137 | two CSV readings an hour apart against one FIT reading: both 1, CSV-only 1, FIT-only 0 |
| Comparison.CompareCsvRecord | src/personal_health_ledger/services/comparison.py:214-250 | one pass of the CSV loop: the first match is counted with its mismatches, or the reading is CSV-only |
| Comparison.CountMatchedPair | src/personal_health_ledger/services/comparison.py:227-245 | a matched pair adds its mismatches and weight difference |
| Comparison.CountFieldMismatches | src/personal_health_ledger/services/comparison.py:234-245 | the field loop adds the mismatches of the four compared fields |
| Comparison.ComparePair | src/personal_health_ledger/services/comparison.py:180-259 | the pair comparison returns exactly `ComparisonOf`, whose counts, mismatch tallies and MAE are stated by `ComparisonCounts`, `MismatchesCount` and `MaeBounds` |
| Comparison.Compare | src/personal_health_ledger/services/comparison.py:261-284 | one result per file pair, in pair order, each the comparison of that pair |
| CsvParser.FirstPresent | src/personal_health_ledger/infrastructure/parsers/csv_parser.py:78-81 | the first configured delimiter occurring in the line, with none earlier; None when none occurs |
| CsvParser.DetectDelimiter | src/personal_health_ledger/infrastructure/parsers/csv_parser.py:78-84 | returns the first configured delimiter occurring in the line, else "," |
| CsvParser.DelimiterOccurs | src/personal_health_ledger/infrastructure/parsers/csv_parser.py:79-81 | a chosen configured delimiter occurs at some position of the line |
| CsvParser.DelimiterOrder | src/personal_health_ledger/infrastructure/parsers/csv_parser.py:78-84 | configured order decides between delimiters that both occur; an absent delimiter is not chosen |
| CsvParser.RenameTable | src/personal_health_ledger/infrastructure/parsers/csv_parser.py:96-101 | the rename table holds every header whose stripped name is mapped, with its canonical name, and nothing else |
| CsvParser.NormalizeColumnNames | src/personal_health_ledger/infrastructure/parsers/csv_parser.py:96-107 | every header becomes its mapped name or stays as it was, position by position |
| CsvParser.RenamedIsMappedOrOriginal | src/personal_health_ledger/infrastructure/parsers/csv_parser.py:98-107 | a renamed header is a canonical name of the table; an unmapped header keeps its unstripped name |
| CsvParser.PaddedHeader | src/personal_health_ledger/infrastructure/parsers/csv_parser.py:99-101 | whitespace around a mapped header does not prevent renaming |
| CsvParser.RenamedUnpadded | src/personal_health_ledger/infrastructure/parsers/csv_parser.py:99-101 | a header without surrounding whitespace is looked up as it is |
| CsvParser.DecimalText | src/personal_health_ledger/infrastructure/parsers/csv_parser.py:126 | the text given to `float` has no comma and no surrounding whitespace |
| CsvParser.SafeFloat | src/personal_health_ledger/infrastructure/parsers/csv_parser.py:119-132 | missing and non-text, non-number cells give None; numbers pass through |
| CsvParser.DecimalTextIdempotent | src/personal_health_ledger/infrastructure/parsers/csv_parser.py:126 | normalising twice changes nothing |
| CsvParser.CommaDecimal | src/personal_health_ledger/infrastructure/parsers/csv_parser.py:125-128 | a padded `<int>,<frac>` cell reaches `float` as `<int>.<frac>` |
| CsvParser.CommaDecimalCell | src/personal_health_ledger/infrastructure/parsers/csv_parser.py:119-128 | a digits-comma-digits cell such as "75,5" is parsed as "75.5"; a missing cell gives None |

## Left out

- Reading files is I/O and is not modelled: encoding detection, `readline`, `pandas.read_csv`
  and the row loop of the CSV parser (csv_parser.py:42-62 and 134-213). The first line and
  the header list are parameters.
- Date and time parsing and time-zone attachment are not modelled. Instants arrive as whole
  seconds, and sub-second precision is not represented.
- `Hashing.GenerateRecordId`: the timestamp fragment is modelled as a function of the
  instant alone (`IdPrimitives.isoformat`). `rounded_ts.isoformat()` (hashing.py:27 and 55)
  also renders the zone offset of the input timestamp, so the model assumes one zone per
  source, and two readings of one instant in different zones get different ids only in the
  source.
- `isoformat`, `"{:.3f}".format`, `hashlib.new(...).hexdigest()` and `float(str)` are
  library routines. They are given as function parameters (`Hashing.IdPrimitives` and
  `parseFloat`), so digest values and float syntax (exponents, `inf`, underscores) are not
  modelled.
- Readings are mathematical reals, so float rounding is not modelled. For example, the MAE
  of 0.5 is exact here and approximate in the source.
- A float NaN cell counts as missing (`Cell.Missing`), as `pd.isna` decides. Booleans, being
  Python ints, fall under `Cell.Number`.
- Logging, the wall-clock `ingestion_timestamp`, and both `to_dict` serialisations are not
  modelled. They have no effect on any computed value.
- `ComparisonResult` and `WeightMeasurement` are values (datatypes). `_compare_pair` fills
  its result object only locally before returning it. The audit fields set after
  construction in `_merge_records` are a functional update.
- `ConsolidationBatch.FindMatchingRecords`: its tolerance parameter is unused in the source,
  and nothing calls it.
- The pairing lemmas (`CsvNameCoverage`, `PairOrder` and the others) are stated for any
  month-extraction function. `FindFilePairs` uses `ExtractMonthYear`.
- The `_extract_month_year` model covers ASCII digits, an optional sign and underscores in
  `int()`. Other Unicode digits accepted by Python's `int` are not modelled.
- Python's `except Exception` around `consolidate` is modelled only for the failures that
  can arise in the modelled code: an empty group, a missing weight, and the identifier
  errors from a zero interval or an unknown algorithm.
- A group whose merged weight is absent is not skipped. `_merge_records` raises
  `ConsolidationError` (consolidation.py:220-221), and `consolidate` turns that into a
  failure of the whole batch (consolidation.py:320-321). `ConsolidationFacts.WeightlessCsvAborts`
  states this.
- The docstring and the code differ on rounding. `round_timestamp` is documented as rounding
  to the nearest interval, but the code floors (hashing.py:26). The model follows the code:
  `Hashing.RoundTimestamp`.
