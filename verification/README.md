# AWS utilization reporter — a Dafny model of its core

The reporter is a scheduled script. It collects CPU, RAM and disk
utilization for EC2 instances and RDS databases, keeps a rolling 30-day
history, labels day-over-day trends and, once a month, recommends
rightsizing moves with their estimated monthly cost effect. This project
models the pure logic of that script. Cloud API calls, files, e-mail and
spreadsheets are left out. It proves what that logic promises.

Modules, one per concern of `aws_fixed_reporter.py`:

- `Text`: Python's `strip`, `split`, `split(sep, 1)` and `replace(c, '')`.
  Python's `float()` is a parameter of type `string -> FloatParse`, so the
  float grammar is not re-implemented.
- `SsmMetrics`: the parser of the in-guest command output. The command
  prints the memory line, up to five `device:NN%` lines, the average-disk
  line and up to three EFS lines. The EFS probe's `|| echo 'NO_EFS'` never
  fires, because its pipeline's status is that of `head`, which succeeds on
  empty input. The parser still reads the last of more than three lines as
  the EFS line and the one before it as the average. A host with two or
  more disks and no EFS is therefore misread (`TwoDisksWithoutEfs`).
- `Collector`: profile names read from the credentials file. Also the RAM
  and disk figures recorded when the in-guest command fails, and the memory
  and vCPU fallback for unknown EC2 types.
- `UtilStats`: the per-metric statistics:
  - mean, extremes and linear-interpolation 90th and 95th percentiles;
  - low-usage days (below 20%) and high-usage days (above 80%), with their
    percentages.
- `InstanceCatalog`: the downsize, upsize and memory-optimized type tables,
  the monthly price tables, and the savings and increase of a move.
- `Recommender`: the first-match chain of downsize, upsize, memory and
  storage guards.
- `MonthlyAnalysis`: the monthly analysis. Rows of the last 30 days are
  grouped by instance. An instance with at least seven rows gets one
  recommendation, and the recommendations are summarized.
- `History`: saving a day's rows into the history and the trend labels
  against the previous day. Saving drops the stored rows of that day, keeps
  30 days, and keeps the last row per (ID, date).
- `RealSeq`, `SeqUtil`, `Options`: sums and means of reals, pandas'
  order-preserving `unique()`, and an option type.

Dates are whole day numbers. "Now minus 30 days", "today" and "yesterday"
are parameters. A cell that pandas would hold as NaN, or that fails
`to_numeric`, is `None`.

## Model

| member | source | states |
|---|---|---|
| Text.Strip | aws_fixed_reporter.py:165-168 | The result is a contiguous slice of the input whose ends are not whitespace. |
| Text.StripRemovesOnlySpace | aws_fixed_reporter.py:165-168 | Everything `strip` removes, at either end, is whitespace. |
| Text.Split | aws_fixed_reporter.py:168 | The output splits into one more part than it has newlines, no part holds the separator, and joining the parts gives back the input. |
| Text.SplitFirst | aws_fixed_reporter.py:188 | The filesystem part holds no `:`, and filesystem, `:` and rest concatenate to the line. |
| Text.SplitFirstUnique | aws_fixed_reporter.py:188 | The cut is at the first `:`. A line written `a:b` with no `:` in `a` splits into exactly `a` and `b`. |
| Text.RemoveChar | aws_fixed_reporter.py:189 | `replace('%', '')` removes every `%` and keeps every other character. A string without `%` is unchanged. |
| Text.CommandLines | aws_fixed_reporter.py:165-168 | Every line handed to the parser is non-blank, stripped and free of newlines. |
| Text.NonBlankStripped | aws_fixed_reporter.py:168 | Every kept line is non-empty and stripped, there are no more lines than pieces, and newline-free pieces give newline-free lines. |
| Text.NonBlankStrippedAppend | aws_fixed_reporter.py:168 | The comprehension goes piece by piece: the lines of a concatenation are the lines of each part, in order. |
| Text.NonBlankStrippedOfOne | aws_fixed_reporter.py:168 | One piece gives its strip when that is not empty, and nothing otherwise. |
| Text.NonBlankStrippedOfLines | aws_fixed_reporter.py:168 | Pieces already non-blank and stripped come through unchanged. |
| Text.SplitOfJoin | aws_fixed_reporter.py:168 | Splitting a join of separator-free parts gives back the parts. |
| Text.StripTrailingNewline | aws_fixed_reporter.py:165 | Stripping drops a final newline after stripped text. |
| Text.CommandLinesOfPrintedLines | aws_fixed_reporter.py:165-168 | Output printed one stripped, non-blank line at a time, with or without a final newline, gives back exactly those lines, in order. |
| SsmMetrics.MemoryReading | aws_fixed_reporter.py:172-180 | There is a memory reading exactly when the first line parses to a number in [0, 100]. The reading is that number. |
| SsmMetrics.DiskLines | aws_fixed_reporter.py:183-185 | The filesystem lines run from index 1 up to two before the end (one before the end with three or fewer lines). There are none with two lines or fewer. |
| SsmMetrics.ParseDiskLine | aws_fixed_reporter.py:186-197 | A line is accepted exactly when it holds `:` and the text after the first `:`, less its `%` signs, parses into [0, 100]. It then yields the text before the `:` and that number. |
| SsmMetrics.RejectedLineSkipped | aws_fixed_reporter.py:186-197 | A rejected line contributes nothing, and the lines on either side are still parsed. |
| SsmMetrics.AcceptedLineKept | aws_fixed_reporter.py:185-195 | An accepted line contributes its entry in its position among the others. |
| SsmMetrics.DiskEntriesInRange | aws_fixed_reporter.py:190-195 | Every recorded filesystem usage is within [0, 100]. |
| SsmMetrics.Extract | aws_fixed_reporter.py:118-234 | Success and memory depend on the first line alone. The filesystem entries are those of the middle lines. The average is taken from its line when in range and is 0 when that line parses out of range. Only when that line does not parse at all is it the mean of the accepted entries. EFS is attached according to the last of more than three lines. An attached line has details exactly when it has four or more `:` fields, and the details are its first four fields. All percentages are in [0, 100]. |
| SsmMetrics.EfsAttachedIff | aws_fixed_reporter.py:214-234 | On well-formed lines, EFS is attached exactly when there are more than three lines and the last is not `NO_EFS`. |
| SsmMetrics.MetricsFromOutput | aws_fixed_reporter.py:164-234 | An output that strips to nothing leaves the initial record. Any other output is parsed from its stripped non-blank lines. EFS is then attached exactly when the last of more than three such lines is not `NO_EFS`. |
| SsmMetrics.MetricsOfPrintedLines | aws_fixed_reporter.py:164-234 | Output printed one line per item, with or without a final newline, is parsed as exactly those lines. |
| SsmMetrics.DiskLineOf | aws_fixed_reporter.py:186-195 | A `device:NN%` line with an in-range number is accepted with that device and that number. |
| SsmMetrics.OneDiskWithoutEfs | aws_fixed_reporter.py:128-234 | The three lines a one-disk host without EFS prints give its memory, its one filesystem, its average and no EFS. |
| SsmMetrics.TwoDisksWithoutEfs | aws_fixed_reporter.py:128-234 | The four lines a two-disk host without EFS prints are misread. Only the first filesystem is recorded. The second filesystem line is taken as the average, fails to parse, and the average becomes the first filesystem's figure. EFS is marked attached from the average line, without details. |
| SsmMetrics.SampleOutput | aws_fixed_reporter.py:172-234 | A four-line output ending in `NO_EFS` (a line the command does not print) yields 42.5% memory, one filesystem at 55%, a 30% average and no EFS. |
| SsmMetrics.OneDiskNoEfs | aws_fixed_reporter.py:172-234 | Memory line, one in-range `device:NN%` line, in-range average and `NO_EFS` yield exactly those figures. The parser handles the sentinel, though the command never prints it. |
| SsmMetrics.MemoryOnlyOutput | aws_fixed_reporter.py:172-212 | A single memory line yields that memory, no filesystems, a 0 average and no EFS. |
| SsmMetrics.OutOfRangeAverageHasNoFallback | aws_fixed_reporter.py:199-210 | An average line that parses but is out of range gives 0, not the mean of the filesystem lines. |
| SsmMetrics.AverageOfPercentages | aws_fixed_reporter.py:208-212 | The fallback mean of accepted percentages is itself a percentage. |
| Collector.ProfileHeaders | aws_fixed_reporter.py:78-88 | Every profile name comes from a line whose strip is `[name]`, and there are no more profiles than lines. |
| Collector.ProfilesOfHeaderLines | aws_fixed_reporter.py:85-88 | A file of one `[name]` line per name yields exactly those names, in order. |
| Collector.OtherLinesIgnored | aws_fixed_reporter.py:86-88 | A line that is not bracketed after stripping yields no profile. |
| Collector.FallbackRamEstimate | aws_fixed_reporter.py:372-378 | The estimate is between 25 and 80. It is 25 exactly for CPU up to 30%, and above 60 exactly for CPU above 70%. |
| Collector.FallbackRamMonotone | aws_fixed_reporter.py:372-378 | More CPU never gives a lower RAM estimate. |
| Collector.RecordedRamAndDisk | aws_fixed_reporter.py:366-381 | After a successful command the measured memory and disk are recorded. Otherwise the RAM is the CPU-based estimate, between 25 and 80, and the disk is 0. |
| Collector.RecordedFiguresArePercentages | aws_fixed_reporter.py:366-381 | Whatever the command printed, the recorded RAM and disk figures are within [0, 100]. |
| InstanceCatalog.FallbackMemoryGiB | aws_fixed_reporter.py:342-350 | A listed type gets its listed memory and an unlisted type gets 8 GiB. Either is positive. |
| InstanceCatalog.FallbackVcpus | aws_fixed_reporter.py:351 | At least one vCPU, and exactly one below 4 GiB. Otherwise it is the whole number of 4-GiB units in the memory. |
| InstanceCatalog.FallbackSizes | aws_fixed_reporter.py:342-351 | t3.nano gets 1 vCPU. An unlisted type gets 8 GiB and 2 vCPUs. m5.4xlarge gets 64 GiB and 16 vCPUs. |
| InstanceCatalog.SmallerType | aws_fixed_reporter.py:1263-1294 | A type different from the current one comes back exactly when the current type is in the downsize table. It is then the table's entry. |
| InstanceCatalog.LargerType | aws_fixed_reporter.py:1296-1328 | A different type comes back exactly when the current type is in the upsize table. It is then the table's entry. |
| InstanceCatalog.MemoryOptimizedType | aws_fixed_reporter.py:1330-1351 | A different type comes back exactly when the current type is in the memory-optimized table. It is then the table's entry. |
| InstanceCatalog.MonthlyCost | aws_fixed_reporter.py:1365-1390 | The listed price of a listed type, 50 (EC2) or 75 (RDS) for an unlisted one. Always positive. |
| InstanceCatalog.CostSavings | aws_fixed_reporter.py:1353-1357 | The savings are never negative and never below the price difference. When positive, they are exactly the price drop. |
| InstanceCatalog.CostIncrease | aws_fixed_reporter.py:1359-1363 | The increase is never negative and never below the price difference. When positive, it is exactly the price rise. |
| InstanceCatalog.SavingsAndIncreaseExclusive | aws_fixed_reporter.py:1353-1363 | A move never shows both savings and a cost increase. |
| InstanceCatalog.DownsizesAreCheaper | aws_fixed_reporter.py:1263-1294 | Every downsize entry, for both services, moves to a listed type with a strictly lower price. |
| InstanceCatalog.FamilyUpsizesAreDearer | aws_fixed_reporter.py:1296-1328 | Every upsize entry within a family moves to a listed type with a strictly higher price. |
| InstanceCatalog.TopBurstableUpsizesAreCheaper | aws_fixed_reporter.py:1296-1328 | The upsize of the largest burstable types moves to a general-purpose type that is cheaper. |
| InstanceCatalog.MemoryMovesAreDearer | aws_fixed_reporter.py:1330-1351 | Every memory-optimized entry moves to a listed type with a strictly higher price. |
| InstanceCatalog.DownsizeAlwaysSaves | aws_fixed_reporter.py:1168-1170 | Any downsize the table offers has positive savings. |
| InstanceCatalog.UpsizeIncreaseIffNotTopBurstable | aws_fixed_reporter.py:1185-1187 | An upsize has a positive cost increase exactly when the current type is not one of the largest burstable types. |
| InstanceCatalog.MemoryOptimizationAlwaysCosts | aws_fixed_reporter.py:1201-1203 | Any memory-optimized move the table offers has a positive cost increase. |
| InstanceCatalog.T3TwoXlargeUpsizeCostsNothing | aws_fixed_reporter.py:1296-1328 | t3.2xlarge upsizes to m5.xlarge with a reported increase of 0. |
| SeqUtil.Unique | aws_fixed_reporter.py:1078 | Each ID once, exactly the IDs present, no more values than rows. |
| SeqUtil.UniqueInFirstAppearanceOrder | aws_fixed_reporter.py:1078 | The IDs are listed in the order of their first appearance. |
| UtilStats.SortReals | aws_fixed_reporter.py:1130-1131 | The sorted values are ordered and a permutation of the input. |
| UtilStats.Quantile | aws_fixed_reporter.py:1130-1131 | A quantile of sorted values lies between the least and the greatest. |
| UtilStats.QuantileMonotone | aws_fixed_reporter.py:1130-1131 | A higher quantile level never gives a lower quantile, so p90 is at most p95. |
| UtilStats.LowAndHighDisjoint | aws_fixed_reporter.py:1132-1133 | Low-usage and high-usage days together number at most the days counted. |
| UtilStats.PercentagesOfDisjointParts | aws_fixed_reporter.py:1137-1138 | The low-usage and high-usage percentages add up to at most 100. |
| UtilStats.PercentageExtremes | aws_fixed_reporter.py:1137-1138 | A share is 100% exactly when it counts every day and 0% exactly when it counts none. |
| UtilStats.StatsFigures | aws_fixed_reporter.py:1126-1131 | The mean and both percentiles are those of the numeric values, and the day total is their number. |
| UtilStats.StatsOrder | aws_fixed_reporter.py:1126-1131 | The minimum and maximum are values of the column that bound all others. Mean, p90 and p95 lie between them, with p90 at most p95. |
| UtilStats.StatsDays | aws_fixed_reporter.py:1132-1138 | The low and high days are the values below 20 and above 80. They are disjoint, and their percentages are in [0, 100] and add up to at most 100. |
| UtilStats.Calculate | aws_fixed_reporter.py:1119-1140 | The short all-zero record comes back exactly when no cell is numeric. Otherwise the full record carries the figures, order and day counts of the numeric cells. |
| UtilStats.SharesAtTheExtremes | aws_fixed_reporter.py:1132-1138 | The low-usage share is 100% exactly when every value is below 20 and 0% exactly when none is. The same holds for the high-usage share and 80. |
| Recommender.Default | aws_fixed_reporter.py:1146-1162 | The starting record keeps monitoring at medium confidence and low priority, with no cost change and the same type. |
| Recommender.Classify | aws_fixed_reporter.py:1142-1222 | Each action is chosen exactly when its guard is the first that holds and, for type changes, the type is in the table. A monitoring decision is the untouched default, and the type changes exactly for the three resizing actions. A downsize moves to the downsize table's entry, with the savings of that move. An upsize or memory move goes to its table's entry, with the increase of that move. Savings only come with a downsize, an increase only with an upsize or a memory move, and neither is negative. |
| Recommender.ActionTerms | aws_fixed_reporter.py:1165-1211 | A downsize has positive savings, high confidence, and high priority exactly above 100. An upsize has high confidence and priority, and a positive increase exactly when the type is not a largest burstable one. A memory move has a positive increase and medium confidence and priority. A storage increase is medium and medium. |
| Recommender.DownsizeGuardAsWritten | aws_fixed_reporter.py:1165-1167 | The guard as written raises exactly when the CPU column had no numbers and the RAM tests pass. Otherwise it agrees with the corrected guard. |
| Recommender.ClassifyAsWritten | aws_fixed_reporter.py:1142-1222 | The decision as written fails exactly in that case and otherwise equals the corrected decision. |
| Recommender.EmptyCpuColumnFails | aws_fixed_reporter.py:1165-1167 | With CPU and RAM columns that hold no numbers, the as-written decision fails and the corrected one keeps monitoring. |
| MonthlyAnalysis.Recent | aws_fixed_reporter.py:1062-1064 | The kept rows are exactly the rows dated on or after the cutoff. |
| MonthlyAnalysis.InstanceRows | aws_fixed_reporter.py:1079 | The group is exactly the rows of that ID, and it is non-empty exactly when the ID occurs. |
| MonthlyAnalysis.Latest | aws_fixed_reporter.py:1085 | The latest row belongs to the group, and no row of the group is dated later. |
| MonthlyAnalysis.DiskStats | aws_fixed_reporter.py:1094-1099 | Disk statistics are absent exactly when no disk cell of the group holds a number. When present, they are the statistics of the group's disk column. |
| MonthlyAnalysis.RecommendFor | aws_fixed_reporter.py:1084-1105 | The recommendation carries the instance's ID and row count, and the name, type and service of its latest row. It is decided on the statistics of the group's CPU and RAM columns and the group's disk statistics. |
| MonthlyAnalysis.QualifyingIds | aws_fixed_reporter.py:1078-1082 | An ID qualifies exactly when it has at least seven rows, and distinct IDs stay distinct. |
| MonthlyAnalysis.OneRecommendationPerQualifyingInstance | aws_fixed_reporter.py:1078-1108 | An instance is recommended for exactly when it has at least seven recent rows. It is recommended for once, and with its own row count. |
| MonthlyAnalysis.RecommendationAt | aws_fixed_reporter.py:1078-1108 | The k-th recommendation is for the k-th qualifying ID in first-appearance order. It counts that instance's rows and uses the statistics of its CPU, RAM and disk columns. |
| MonthlyAnalysis.ServiceRowsAppend | aws_fixed_reporter.py:1239-1240 | Selecting a service's rows distributes over concatenation, so the selection keeps the rows' order and multiplicity. |
| MonthlyAnalysis.ServiceRowsOfOne | aws_fixed_reporter.py:1239-1240 | A single row is selected exactly when it belongs to the service. |
| MonthlyAnalysis.InstanceRowsAppend | aws_fixed_reporter.py:1079 | Selecting an instance's rows distributes over concatenation, so the group keeps the rows' order and multiplicity. |
| MonthlyAnalysis.InstanceRowsOfOne | aws_fixed_reporter.py:1079 | A single row is its own group when it carries the ID, and forms no group otherwise. |
| MonthlyAnalysis.QualifyingIdsAppend | aws_fixed_reporter.py:1078-1082 | Filtering the IDs distributes over concatenation, so qualifying IDs keep the order of the unique IDs. |
| MonthlyAnalysis.ActionCountsSum | aws_fixed_reporter.py:1232-1234 | The counts of the five actions add up to the number of recommendations. |
| MonthlyAnalysis.TotalsNonNegative | aws_fixed_reporter.py:1235-1236 | Totals of non-negative savings and increases are non-negative. |
| MonthlyAnalysis.ServiceAverage | aws_fixed_reporter.py:1253-1259 | A service average is reported exactly when the service has rows. It is NaN exactly when no cell is numeric. Otherwise it is the mean of the numeric cells and lies between the least and greatest of them. |
| MonthlyAnalysis.BreakdownAddsUp | aws_fixed_reporter.py:1232-1244 | A breakdown holding each present action with its count adds up to the number of recommendations. |
| MonthlyAnalysis.TallyRecommendations | aws_fixed_reporter.py:1228-1236 | The loop builds a breakdown holding exactly the actions that occur, each with its count. It also gives the non-monitor and high-priority counts and both money totals. |
| MonthlyAnalysis.Summarize | aws_fixed_reporter.py:1224-1261 | The summary holds the breakdown and counts of its recommendations and their totals, with net impact as savings minus increase. It also holds the distinct instances per service and each service's CPU and RAM averages. |
| MonthlyAnalysis.AnalyzeMonthlyTrends | aws_fixed_reporter.py:1047-1117 | There is no analysis exactly when no row is recent. Otherwise it gives one recommendation per qualifying instance and a summary of them, plus the counts of distinct instances, distinct days and recent rows. |
| History.NotOn | aws_fixed_reporter.py:615-619 | The kept rows are exactly the stored rows not dated today. |
| History.DropDuplicatesKeys | aws_fixed_reporter.py:632 | After de-duplication each (ID, date) key occurs once, and no key is lost. |
| History.DropDuplicatesKeepsLast | aws_fixed_reporter.py:632 | The rows kept are exactly the last row of each (ID, date) key. |
| History.DropDuplicatesOfDistinct | aws_fixed_reporter.py:632 | Rows whose keys are already distinct are left as they are. |
| History.SaveMerge | aws_fixed_reporter.py:607-641 | The first save stores the day's rows as given. Later saves keep the cutoff and hold one row per key, every row from today's data or from an earlier day of the history. No key of a recent row, old or new, is lost. |
| History.SaveMergeParts | aws_fixed_reporter.py:615-632 | A later save is the de-duplication of the recent stored rows not from today followed by today's recent rows. |
| History.FreshRowsWin | aws_fixed_reporter.py:625-632 | When today's data has a row for a key, the saved row for that key is today's. |
| History.SavingTwiceChangesNothing | aws_fixed_reporter.py:607-641 | Saving the same day's rows again leaves the history unchanged. |
| History.OnDay | aws_fixed_reporter.py:1792-1793 | The rows selected are exactly those dated on the given day. |
| History.SavedDayHasDistinctIds | aws_fixed_reporter.py:1792-1793 | Any one day of a saved history lists each instance once. |
| History.TrendSymmetry | aws_fixed_reporter.py:680-685 | A change is labelled increased exactly when its opposite is labelled decreased, and stable exactly within 5 points. A number is never labelled not available. |
| History.TrendMonotone | aws_fixed_reporter.py:680-685 | A larger change never gets a lower label. |
| History.Change | aws_fixed_reporter.py:665-666 | A change exists exactly when the current cell is numeric. It plus the previous value, with a missing one as 0, gives the current value. |
| History.Compare | aws_fixed_reporter.py:665-685 | The compared row is kept, and CPU and RAM always get a label. Disk gets one exactly when the previous rows have a disk column. |
| History.MergeRow | aws_fixed_reporter.py:658-663 | A current row yields at least one merged row. With at most one previous row of its ID, it yields exactly its comparison with that row. |
| History.LeftMerge | aws_fixed_reporter.py:658-663 | Every current row appears in the merge, every merged row comes from a current row, and the merge has at least as many rows as the current table. CPU and RAM are always labelled, and disk exactly when the previous rows have a disk column. |
| History.LeftMergeAppend | aws_fixed_reporter.py:658-663 | The merge goes row by row: merging a concatenation concatenates the merges, so each current row keeps its place. |
| History.MergeAligned | aws_fixed_reporter.py:658-663 | With distinct previous IDs the merge has one row per current row, in order, each compared with its instance's previous row. |
| History.CalculateTrends | aws_fixed_reporter.py:643-694 | Without previous rows every change is 0 and every label not available. With previous rows, CPU and RAM are always labelled, and disk exactly when there was a disk column. |
| History.TrendsAlignWithCurrent | aws_fixed_reporter.py:658-685 | With distinct previous IDs, the i-th trend row is the i-th current row. Its changes are taken against the same instance's previous figures, or against nothing (as 0) when the instance is new. |
| History.ComparedWithRow | aws_fixed_reporter.py:665-671 | Against a previous row, the changes are the differences, with a missing previous figure as 0. |
| History.ComparedWithNothing | aws_fixed_reporter.py:665-671 | Without a previous row, the changes are the current figures themselves. |

## Left out

- AWS API calls are not modelled, because they are I/O. That covers the
  account, region and instance enumeration, CloudWatch, the in-guest command
  submission and its 15-attempt polling with sleeps, EBS and EFS lookups,
  and the RDS estimators.
- Worker threads, pickle files, the spreadsheet, the HTML report, e-mail
  and logging are not modelled, because they are I/O.
- Clock readings are parameters: `datetime.now()`, today, yesterday and the
  30-day cutoff. Dates are day numbers, so unparsable dates (NaT) are not
  modelled.
- Python's `float()` grammar is an abstract parser parameter. Only its
  three outcomes matter to the code: an exception, a non-finite value, or a
  finite one.
- UtilStats.Calculate: figures are exact reals. The source rounds the mean,
  extremes and percentiles to 2 decimals and the percentages to 1 decimal,
  so a guard near a threshold can differ by that rounding.
- MonthlyAnalysis.Summarize: the money totals and service averages are not
  rounded to 2 decimals.
- All arithmetic is on exact reals, not IEEE doubles. That covers the
  trend differences compared against ±5 (aws_fixed_reporter.py:665-685),
  `cpu * 1.1` and `cpu * 1.3` in the RAM estimate (372-378), and the
  fallback disk mean (208-212). A difference that is exactly 5 in real
  arithmetic can land just above or below 5 in floating point.
- Collector.RecordedRamAndDisk: the recorded memory and disk figures are
  not rounded to 2 decimals as they are when the row is written
  (aws_fixed_reporter.py:414, 418).
- The free-text `reason` of a recommendation, the `collection_method`
  field, and `max`, `min` and `p90` inside the reasons are not modelled.
  They are text only.
- MonthlyAnalysis.Latest: when several rows share the latest date, the
  model picks the last one in row order. pandas' `sort_values` is not a
  stable sort by default, so the source may pick a different one. The
  contract states only that the row is latest.
- MonthlyAnalysis.Summarize: the breakdown is a map from action to count.
  The insertion order of the source's dictionary is not modelled.
- History.MergeAligned: the one-row-per-current-row alignment is proved
  only when the previous rows have distinct IDs. History.SavedDayHasDistinctIds
  shows that a saved history always provides this. With duplicates,
  History.LeftMerge states only that every current row appears, that no
  other row does, and (with History.LeftMergeAppend) that the rows stay in
  order. The exact number of copies of each row is not stated.
- History.CalculateTrends: whether the previous rows have a disk column is
  a boolean parameter. A current table lacking the disk column is not
  modelled, because the collector always writes it.
- Service names other than EC2 and RDS are not modelled. The source's
  `else` branches treat every other name as RDS.

## Findings

| source | as written | input that shows it | evidently intended | confidence | as-written member | corrected member |
|---|---|---|---|---|---|---|
| aws_fixed_reporter.py:1165-1167 | The downsize guard reads `cpu_stats['low_usage_percentage']`. The statistics of a column without numbers (lines 1123-1124) have no such key, so when that column's average and p95 are 0 and the RAM tests pass, the lookup raises `KeyError` and aborts the monthly analysis. | An instance with at least seven rows whose CPU and RAM cells hold no numbers. | Read the missing percentage as 0, so the guard fails and the instance keeps monitoring. | low; not executed | Recommender.ClassifyAsWritten | Recommender.Classify |

The downsize guard uses strict comparisons (`p95 < 30`, `p95 < 50`).

The upsize table sends the largest burstable types to a general-purpose
type that is cheaper, so for those upsizes the reported cost increase is
0 (InstanceCatalog.TopBurstableUpsizesAreCheaper,
InstanceCatalog.T3TwoXlargeUpsizeCostsNothing). This is modelled as
written.
