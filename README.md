# Unit-aware sizes and durations, and the aggregate-stats directive

This project models the quantity-parsing core of the Wrangler data-preparation
library in Dafny and proves properties of it:

- **UnitParser** (`unit_parser.dfy`) parses text such as `"2.5 KB"` or `"500ms"`
  into a count of bytes or nanoseconds. The text must fully match
  `digits[.digits] whitespace* [unit]`, with the unit drawn from a fixed table and
  matched without regard to case. The scaled value is truncated to a long.
  UnitParser also converts a count back into any unit of the tables.
  The regular expression is written out as a greedy matcher, `MatchQuantity`.
  It is proved sound and complete against the grammar, stated as the `Quantity`
  datatype and its spelling.
- **ByteSize** and **TimeDuration** (`byte_size.dfy`, `time_duration.dfy`) are two
  older token parsers built on `endsWith`, `replace` and `Long.parseLong`.
  Their 64-bit multiplication is modelled with its wrap-around.
  Lemmas pin down where each token parser agrees with UnitParser and where it
  does not.
- **AggregateStats** (`aggregate_stats.dfy`) is a directive with two phases.
  - `execute` folds a batch of rows into running totals kept in the executor
    context, a keyed store that lives across batches. It writes the totals back
    only once the whole batch has parsed.
  - `terminate` reads the totals back, optionally averages them, converts them
    to the display units and emits one row.
  - The directive is a class whose fields are set by `Initialize`. The context is
    a class holding a `map<string, int>`. The row loop of `execute` is a method,
    `Accumulate`, proved against the fold `Fold`.
- Java's own behaviour is modelled in support modules.
  - `java_text.dfy`: `String.trim`, ASCII case mapping, `endsWith` and
    `replace(target, "")`.
  - `java_numbers.dfy`: `Long.parseLong`, `Long.toString`, two's-complement
    wrap-around and the truncating `(long)` cast.
  - `results.dfy` holds the error kinds and the `Result`/`Option` types. A thrown
    exception is a `Failure`.

Doubles are modelled as exact reals, and every `(long)` cast truncates toward
zero. Where the documented behaviour and the code differ, the model follows the code:

- `terminate` calls `UnitParser.convertByteSize` and
  `UnitParser.convertTimeDuration`, which UnitParser does not define. They are
  modelled as `convertBytes` and `convertTime` followed by the cast to long
  (`ConvertedSize`, `ConvertedTime`). Displayed values are therefore whole
  numbers. Two rows of 500 ms and 1 s show as `"1s"` in seconds, not `"1.5s"`.
  Their average shows as `"0s"` (`ExampleTotal`, `ExampleAverage`).
- A unit outside the table fails the full match, so it raises the format error.
  The "unknown unit" error is never raised (`UnknownSuffixIsFormatError`,
  `SizeOfMatch`).
- The count defaults to 0 in `execute` but to 1 in `terminate`.
  - With no count stored, the totals are shown as they are.
  - With a stored count of 0 in average mode, 0 / 0.0 is NaN, which the cast turns
    into 0 (`SummaryWithoutRows`).

## Model

| member | source | states |
|---|---|---|
| UnitParser.TablesWellFormed | wrangler-core/src/main/antlr4/UnitConverter.java:14-18 | the unit and multiplier tables are parallel and equally long, the units of each are distinct, the multipliers strictly increase from 1, and each size multiplier is 1024 times the previous one |
| UnitParser.SizeMultiplierValues | wrangler-core/src/main/antlr4/UnitConverter.java:14-17 | B, KB, MB, GB and TB multiply by 1, 1024, 1024², 1024³ and 1024⁴ |
| UnitParser.TimeMultiplierValues | wrangler-core/src/main/antlr4/UnitConverter.java:15-18 | ns, us, ms, s, m and h multiply by 1, 10³, 10⁶, 10⁹, 60·10⁹ and 3600·10⁹ nanoseconds |
| UnitParser.IndexOf | wrangler-core/src/main/antlr4/UnitConverter.java:29-33 | the search loop over a unit table finds an index holding the unit, and finds none exactly when the unit is not in the table |
| UnitParser.MatchQuantity | wrangler-core/src/main/antlr4/UnitConverter.java:11-12 | whatever the matcher accepts is a well-formed quantity (digits, optional fraction, whitespace, optional table unit) whose spelling is the whole input |
| UnitParser.MatchComplete | wrangler-core/src/main/antlr4/UnitConverter.java:11-12 | every spelling of a well-formed quantity is accepted and read back as that same quantity, so the grammar is unambiguous |
| UnitParser.MatchIff | wrangler-core/src/main/antlr4/UnitConverter.java:11-12 | the matcher succeeds exactly on the inputs that fully match the pattern |
| UnitParser.ScaledTruncates | wrangler-core/src/main/antlr4/UnitConverter.java:26-31 | the integer computation of the count equals the exact product value × multiplier truncated toward zero |
| UnitParser.SizeOfMatch | wrangler-core/src/main/antlr4/UnitConverter.java:22-34 | after a match the count is non-negative, and the only failure is the format error for a failed match; the unknown-unit error is never produced |
| UnitParser.TimeOfMatch | wrangler-core/src/main/antlr4/UnitConverter.java:39-51 | after a match the count is non-negative, and the only failure is the format error for a failed match; the unknown-unit error is never produced |
| UnitParser.ParseByteSize | wrangler-core/src/main/antlr4/UnitConverter.java:20-35 | a parsed size is never negative, and every failure is the invalid-byte-size-format error |
| UnitParser.ParseByteSizeSucceedsIff | wrangler-core/src/main/antlr4/UnitConverter.java:21-24 | parseByteSize succeeds exactly when the trimmed, upper-cased input fully matches the size pattern |
| UnitParser.ParseByteSizeValue | wrangler-core/src/main/antlr4/UnitConverter.java:26-31 | a full match yields trunc(value × multiplier of group 2), group 2 defaulting to B |
| UnitParser.ParseTimeDuration | wrangler-core/src/main/antlr4/UnitConverter.java:37-52 | a parsed duration is never negative, and every failure is the invalid-time-duration-format error |
| UnitParser.ParseTimeDurationSucceedsIff | wrangler-core/src/main/antlr4/UnitConverter.java:38-41 | parseTimeDuration succeeds exactly when the trimmed, lower-cased input fully matches the time pattern |
| UnitParser.ParseTimeDurationValue | wrangler-core/src/main/antlr4/UnitConverter.java:43-48 | a full match yields trunc(value × multiplier of group 2), group 2 defaulting to ns |
| UnitParser.ParseByteSizeCaseInsensitive | wrangler-core/src/main/antlr4/UnitConverter.java:21 | two inputs that differ only in the case of ASCII letters parse to the same size |
| UnitParser.ParseTimeDurationCaseInsensitive | wrangler-core/src/main/antlr4/UnitConverter.java:38 | two inputs that differ only in the case of ASCII letters parse to the same duration |
| UnitParser.TimeUnitAnyCase | wrangler-core/src/main/antlr4/UnitConverter.java:38 | n followed by a time unit written in any case is n times that unit's multiplier |
| UnitParser.UpperCaseMinutes | wrangler-core/src/main/antlr4/UnitConverter.java:38 | "nM" is n minutes, n · 60·10⁹ nanoseconds, since the input is lower-cased first |
| UnitParser.PlainSize | wrangler-core/src/main/antlr4/UnitConverter.java:20-35 | the digits of n, any whitespace and a size unit parse to n times that unit's multiplier |
| UnitParser.PlainTime | wrangler-core/src/main/antlr4/UnitConverter.java:37-52 | the digits of n, any whitespace and a time unit parse to n times that unit's multiplier |
| UnitParser.MissingSizeUnit | wrangler-core/src/main/antlr4/UnitConverter.java:27 | a bare count "n" is n bytes |
| UnitParser.MissingTimeUnit | wrangler-core/src/main/antlr4/UnitConverter.java:44 | a bare count "n" is n nanoseconds |
| UnitParser.UnknownSuffixRejected | wrangler-core/src/main/antlr4/UnitConverter.java:11-12 | a count followed by a suffix that is not a table unit is not a full match |
| UnitParser.UnknownSuffixIsFormatError | wrangler-core/src/main/antlr4/UnitConverter.java:22-34 | "5ZB" and "5x" fail with the format error, not the unknown-unit error |
| UnitParser.NonNumericIsFormatError | wrangler-core/src/main/antlr4/UnitConverter.java:21-23 | "abcKB" fails with the format error |
| UnitParser.FractionalSize | wrangler-core/src/main/antlr4/UnitConverter.java:26-31 | "2.5 KB" is 2560 bytes |
| UnitParser.ConvertBytes | wrangler-core/src/main/antlr4/UnitConverter.java:54-62 | conversion succeeds exactly when the upper-cased unit is in the table, and the result times that unit's multiplier is the byte count; otherwise it fails naming the upper-cased unit |
| UnitParser.ConvertTime | wrangler-core/src/main/antlr4/UnitConverter.java:64-72 | conversion succeeds exactly when the lower-cased unit is in the table, and the result times that unit's multiplier is the nanosecond count; otherwise it fails naming the lower-cased unit |
| UnitParser.SizeRoundTrip | wrangler-core/src/main/antlr4/UnitConverter.java:20-62 | n written with a size unit parses to n × multiplier, and converting that count back to the same unit gives exactly n |
| UnitParser.TimeRoundTrip | wrangler-core/src/main/antlr4/UnitConverter.java:37-72 | n written with a time unit parses to n × multiplier, and converting that count back to the same unit gives exactly n |
| JavaNumbers.WrapMul | wrangler-api/src/main/java/io/cdap/wrangler/api/parser/ByteSize.java:13-15 | wrapping a long product to 64 bits after each factor gives the same long as wrapping the whole product once |
| JavaNumbers.ParseLong | wrangler-api/src/main/java/io/cdap/wrangler/api/parser/ByteSize.java:13-16 | a parsed value is a long whose text ends in a digit, and every failure is the number-format error |
| JavaNumbers.ParseLongToString | wrangler-api/src/main/java/io/cdap/wrangler/api/parser/ByteSize.java:16 | Long.parseLong reads back every long that Long.toString writes, and rejects the decimal text of every integer outside the long range with the number-format error |
| JavaNumbers.ParseLongPlus | wrangler-api/src/main/java/io/cdap/wrangler/api/parser/ByteSize.java:16 | an explicit "+" in front of the digits of a long is accepted |
| JavaNumbers.LongQuotient | wrangler-core/src/main/antlr4/AggregateStats.java:86-95 | for a non-zero count, the (long) of total / (double) count is the exact quotient truncated toward zero; for a zero count it is 0 when the total is 0 (NaN) and the long bound of the total's sign otherwise (an infinity) |
| JavaText.RemoveAll | wrangler-api/src/main/java/io/cdap/wrangler/api/parser/ByteSize.java:13-15 | replace(x, "") never makes the text longer |
| JavaText.RemoveAllFront | wrangler-api/src/main/java/io/cdap/wrangler/api/parser/ByteSize.java:13-15 | an occurrence of the removed text at the front is dropped and the scan goes on after it |
| JavaText.RemoveAllSkips | wrangler-api/src/main/java/io/cdap/wrangler/api/parser/TimeDuration.java:13-15 | a prefix that never holds the first character of the removed text passes through unchanged |
| JavaNumbers.TruncQuotient | wrangler-core/src/main/antlr4/AggregateStats.java:94-95 | the truncated exact quotient of a non-negative count by a positive divisor is integer division |
| ByteSizeToken.ParseByteSize | wrangler-api/src/main/java/io/cdap/wrangler/api/parser/ByteSize.java:11-17 | every parsed size is a long, and every failure is a number-format error |
| ByteSizeToken.NewByteSize | wrangler-api/src/main/java/io/cdap/wrangler/api/parser/ByteSize.java:4-21 | construction succeeds exactly when the value parses, and getBytes then returns the parsed count |
| ByteSizeToken.CaseInsensitive | wrangler-api/src/main/java/io/cdap/wrangler/api/parser/ByteSize.java:12 | upper- or lower-casing the input first does not change the result |
| ByteSizeToken.ScaleIsWrappedProduct | wrangler-api/src/main/java/io/cdap/wrangler/api/parser/ByteSize.java:13-15 | the chain of long multiplications by 1024 equals n · 1024^k wrapped to 64 bits |
| ByteSizeToken.SuffixValue | wrangler-api/src/main/java/io/cdap/wrangler/api/parser/ByteSize.java:13-15 | "nKB", "nMB" and "nGB" give n · 1024, n · 1024² and n · 1024³, wrapped to a long |
| ByteSizeToken.SuffixValueExact | wrangler-api/src/main/java/io/cdap/wrangler/api/parser/ByteSize.java:13-15 | when the product fits a long, "nKB", "nMB" and "nGB" give exactly n · 1024, n · 1024² and n · 1024³ |
| ByteSizeToken.PlainCount | wrangler-api/src/main/java/io/cdap/wrangler/api/parser/ByteSize.java:16 | a long written without a suffix is that many bytes |
| ByteSizeToken.BareBRejected | wrangler-api/src/main/java/io/cdap/wrangler/api/parser/ByteSize.java:13-16 | any input whose normalised form ends in "B" but not in "KB", "MB" or "GB" is a number-format error |
| ByteSizeToken.ByteAndTerabyteRejected | wrangler-api/src/main/java/io/cdap/wrangler/api/parser/ByteSize.java:13-16 | "nB" and "nTB" are number-format errors |
| ByteSizeToken.FractionRejected | wrangler-api/src/main/java/io/cdap/wrangler/api/parser/ByteSize.java:13 | "n.5KB" is a number-format error |
| ByteSizeToken.InnerSuffixRemoved | wrangler-api/src/main/java/io/cdap/wrangler/api/parser/ByteSize.java:13 | every occurrence of "KB" is stripped, so "aKBbKB" parses like "abKB" |
| ByteSizeToken.RepeatedSuffix | wrangler-api/src/main/java/io/cdap/wrangler/api/parser/ByteSize.java:13 | "1KB2KB" is 12 · 1024 bytes |
| ByteSizeToken.NegativeSize | wrangler-api/src/main/java/io/cdap/wrangler/api/parser/ByteSize.java:13 | "-5KB" is -5120 bytes |
| ByteSizeToken.AgreesWithUnitParser | wrangler-api/src/main/java/io/cdap/wrangler/api/parser/ByteSize.java:13-15 | on "nKB", "nMB" and "nGB", for a natural n whose product fits a long, the token and UnitParser give the same result |
| ByteSizeToken.DivergesFromUnitParser | wrangler-api/src/main/java/io/cdap/wrangler/api/parser/ByteSize.java:13-16 | on "nTB" and "nB" the token fails while UnitParser succeeds |
| TimeDurationToken.ParseTime | wrangler-api/src/main/java/io/cdap/wrangler/api/parser/TimeDuration.java:11-17 | every parsed duration is a long, and every failure is a number-format error |
| TimeDurationToken.NewTimeDuration | wrangler-api/src/main/java/io/cdap/wrangler/api/parser/TimeDuration.java:4-21 | construction succeeds exactly when the value parses, and getMillis then returns the parsed count |
| TimeDurationToken.CaseInsensitive | wrangler-api/src/main/java/io/cdap/wrangler/api/parser/TimeDuration.java:12 | upper- or lower-casing the input first does not change the result |
| TimeDurationToken.MillisValue | wrangler-api/src/main/java/io/cdap/wrangler/api/parser/TimeDuration.java:13 | "nms" is n milliseconds, not n · 1000: the "ms" test comes first |
| TimeDurationToken.SecondsValue | wrangler-api/src/main/java/io/cdap/wrangler/api/parser/TimeDuration.java:14 | n followed by "s" is n · 1000 milliseconds, wrapped to a long |
| TimeDurationToken.MinutesProduct | wrangler-api/src/main/java/io/cdap/wrangler/api/parser/TimeDuration.java:15 | multiplying by 60 and then by 1000 in long arithmetic is n · 60000 wrapped to a long |
| TimeDurationToken.MinutesValue | wrangler-api/src/main/java/io/cdap/wrangler/api/parser/TimeDuration.java:15 | n followed by "m" is n · 60000 milliseconds, wrapped to a long |
| TimeDurationToken.PlainMillis | wrangler-api/src/main/java/io/cdap/wrangler/api/parser/TimeDuration.java:16 | a long written without a suffix is that many milliseconds |
| TimeDurationToken.SuffixValueExact | wrangler-api/src/main/java/io/cdap/wrangler/api/parser/TimeDuration.java:13-15 | when the product fits a long, n followed by "ms", "s" or "m" gives exactly n, n · 1000 or n · 60000 |
| TimeDurationToken.HoursRejected | wrangler-api/src/main/java/io/cdap/wrangler/api/parser/TimeDuration.java:13-16 | "nh" is a number-format error |
| TimeDurationToken.SubMillisRejected | wrangler-api/src/main/java/io/cdap/wrangler/api/parser/TimeDuration.java:14 | "nus" and "nns" are number-format errors: stripping "s" leaves "nu" or "nn" |
| TimeDurationToken.AgreesWithUnitParser | wrangler-api/src/main/java/io/cdap/wrangler/api/parser/TimeDuration.java:13-15 | on n followed by "ms", "s" or "m", without overflow, UnitParser's nanoseconds are exactly 10⁶ times the token's milliseconds |
| TimeDurationToken.HoursDiverge | wrangler-api/src/main/java/io/cdap/wrangler/api/parser/TimeDuration.java:13-16 | on "nh" the token fails while UnitParser succeeds |
| TimeDurationToken.SubMillisDiverge | wrangler-api/src/main/java/io/cdap/wrangler/api/parser/TimeDuration.java:14 | on "nus" and "nns" the token fails while UnitParser succeeds |
| AggregateStatsDirective.GetValue | wrangler-core/src/main/antlr4/AggregateStats.java:59-60 | the value of the first column with the name, and no value exactly when no column has that name |
| AggregateStatsDirective.ExecutorContext.GetOrDefault | wrangler-core/src/main/antlr4/AggregateStats.java:54-56 | the stored value of the key, or the default when the key is absent |
| AggregateStatsDirective.ExecutorContext.Set | wrangler-core/src/main/antlr4/AggregateStats.java:70-72 | the key now maps to the value and no other entry changes |
| AggregateStatsDirective.Configure | wrangler-core/src/main/antlr4/AggregateStats.java:42-50 | the column names as given; the size unit upper-case (default "B"), the time unit and aggregation type lower-case (defaults "ns" and "total"), each equal to the argument up to case |
| AggregateStatsDirective.AggregateStats.Initialize | wrangler-core/src/main/antlr4/AggregateStats.java:42-50 | the seven fields now hold the configuration computed from the arguments |
| AggregateStatsDirective.ParseRow | wrangler-core/src/main/antlr4/AggregateStats.java:59-63 | a parsed row has a non-negative size and time |
| AggregateStatsDirective.ParseRowSucceedsIff | wrangler-core/src/main/antlr4/AggregateStats.java:59-63 | a row parses exactly when both columns are present and both values parse, to those two values; a missing size column is reported first |
| AggregateStatsDirective.Parses | wrangler-core/src/main/antlr4/AggregateStats.java:58-63 | one outcome per row, in order, each the row's parse, every success non-negative |
| AggregateStatsDirective.Fold | wrangler-core/src/main/antlr4/AggregateStats.java:58-68 | a successful fold adds one to the count per row; a failed fold carries the error of some failing row |
| AggregateStatsDirective.Accumulate | wrangler-core/src/main/antlr4/AggregateStats.java:54-68 | the row loop returns exactly the fold of the rows' outcomes from the loaded totals |
| AggregateStatsDirective.ExecuteStore | wrangler-core/src/main/antlr4/AggregateStats.java:53-75 | after a successful batch the stored count grew by the number of rows; a failure carries the error of some row of the batch |
| AggregateStatsDirective.AggregateStats.Execute | wrangler-core/src/main/antlr4/AggregateStats.java:53-75 | execute returns no rows and leaves the store of ExecuteStore, or returns the first row's error and leaves the store unchanged |
| AggregateStatsDirective.FoldIsSum | wrangler-core/src/main/antlr4/AggregateStats.java:65-67 | the fold succeeds exactly when every row parses, with the first failure's error otherwise, and adds the sums of sizes and times and the number of rows |
| AggregateStatsDirective.ExecuteIsSum | wrangler-core/src/main/antlr4/AggregateStats.java:54-72 | the new stored totals are the old ones (default 0) plus the sums over the batch |
| AggregateStatsDirective.FoldConcat | wrangler-core/src/main/antlr4/AggregateStats.java:58-68 | folding b1 ++ b2 is folding b1 and then b2 from its result, or b1's failure |
| AggregateStatsDirective.ExecuteConcat | wrangler-core/src/main/antlr4/AggregateStats.java:53-74 | executing b1 then b2 leaves the same store as executing b1 ++ b2; if b1 fails, so does b1 ++ b2, with the same error |
| AggregateStatsDirective.FoldMove | wrangler-core/src/main/antlr4/AggregateStats.java:58-68 | a parsed row can be taken out of the batch and added first without changing the fold's totals or the error it reports |
| AggregateStatsDirective.FoldFailsAt | wrangler-core/src/main/antlr4/AggregateStats.java:58-68 | a batch with a failing row anywhere in it fails |
| AggregateStatsDirective.FoldPermutation | wrangler-core/src/main/antlr4/AggregateStats.java:58-68 | any reordering of the rows (the same multiset) fails exactly when the original order fails, and otherwise reaches the same totals |
| AggregateStatsDirective.ExecutePermutation | wrangler-core/src/main/antlr4/AggregateStats.java:53-72 | executing any reordering of a batch fails exactly when the batch fails, and otherwise leaves the same store |
| AggregateStatsDirective.ExecuteSwap | wrangler-core/src/main/antlr4/AggregateStats.java:53-72 | executing b1 ++ b2 and b2 ++ b1 fail together, and otherwise leave the same store |
| AggregateStatsDirective.SavedKeepsOtherKeys | wrangler-core/src/main/antlr4/AggregateStats.java:70-72 | execute's writes keep every other key of the store |
| AggregateStatsDirective.FoldKeepsConsistent | wrangler-core/src/main/antlr4/AggregateStats.java:62-67 | a fold over non-negative samples keeps the totals non-negative and zero while the count is zero, and never lowers a total |
| AggregateStatsDirective.ExecuteKeepsConsistent | wrangler-core/src/main/antlr4/AggregateStats.java:54-72 | every successful execute keeps that invariant of the store and never lowers a stored total |
| AggregateStatsDirective.EmptyStoreConsistent | wrangler-core/src/main/antlr4/AggregateStats.java:54-56 | the empty store satisfies the invariant |
| AggregateStatsDirective.LongQuotientOfNat | wrangler-core/src/main/antlr4/AggregateStats.java:87-88 | the cast of total / (double) count is the integer quotient for a positive count |
| AggregateStatsDirective.ConvertedSize | wrangler-core/src/main/antlr4/AggregateStats.java:94 | the size conversion succeeds exactly for a table unit (up to case), and otherwise fails naming the upper-cased unit |
| AggregateStatsDirective.ConvertedTime | wrangler-core/src/main/antlr4/AggregateStats.java:95 | the time conversion succeeds exactly for a table unit (up to case), and otherwise fails naming the lower-cased unit |
| AggregateStatsDirective.ConvertedSizeValue | wrangler-core/src/main/antlr4/AggregateStats.java:94 | for a non-negative count the converted size is the count divided by the unit's multiplier |
| AggregateStatsDirective.ConvertedTimeValue | wrangler-core/src/main/antlr4/AggregateStats.java:95 | for a non-negative count the converted time is the count divided by the unit's multiplier |
| AggregateStatsDirective.Summary | wrangler-core/src/main/antlr4/AggregateStats.java:78-101 | terminate's row exists exactly when both display units are table units, the size unit's error coming first; the row has two columns, the target size and time columns, each value ending in its unit |
| AggregateStatsDirective.SummaryTotal | wrangler-core/src/main/antlr4/AggregateStats.java:79-99 | in total mode the row shows each stored total divided by its display unit's multiplier |
| AggregateStatsDirective.SummaryAverage | wrangler-core/src/main/antlr4/AggregateStats.java:79-99 | in average mode with rows counted, the row shows each total divided by the count, then by the unit's multiplier |
| AggregateStatsDirective.SummaryWithoutRows | wrangler-core/src/main/antlr4/AggregateStats.java:79-92 | with no rows counted the row shows 0 in each unit, in either mode |
| AggregateStatsDirective.EmptyBatchesCountNothing | wrangler-core/src/main/antlr4/AggregateStats.java:53-72 | any number of execute calls with empty batches, on a consistent store with no rows counted, succeed and leave it consistent with no rows counted |
| AggregateStatsDirective.EmptyRunShowsZero | wrangler-core/src/main/antlr4/AggregateStats.java:53-101 | from the empty store, a run of any number of execute calls whose batches are all empty (none at all included) succeeds, and terminate then shows 0 in each unit |
| AggregateStatsDirective.AggregateStats.Terminate | wrangler-core/src/main/antlr4/AggregateStats.java:78-102 | terminate emits exactly the one summary row, or fails with its error |
| AggregateStatsDirective.ExampleBatch | wrangler-core/src/main/antlr4/AggregateStats.java:58-72 | rows ("2KB", "500ms") and ("1MB", "1s") store 1026 KiB, 1.5·10⁹ ns and a count of 2 |
| AggregateStatsDirective.ExampleTotal | wrangler-core/src/main/antlr4/AggregateStats.java:86-99 | those totals show as "1026KB" and "1s" in total mode |
| AggregateStatsDirective.ExampleAverage | wrangler-core/src/main/antlr4/AggregateStats.java:86-99 | those totals show as "513KB" and "0s" in average mode |
| AggregateStatsDirective.ExampleRun | wrangler-core/src/main/antlr4/AggregateStats.java:53-101 | from an empty store, executing those two rows and terminating shows "1026KB"/"1s" in total mode and "513KB"/"0s" in average mode |

## Left out

- UnitParser.ParseByteSize: doubles are exact reals, so the rounding of `Double.parseDouble` and of the double product is not modelled. The `(long)` cast does not saturate, so a count beyond 2⁶³ − 1 is kept, not clamped.
- UnitParser.ParseTimeDuration: the same for durations, whose cast also does not saturate.
- UnitParser.ConvertBytes: the quotient is exact; double rounding of large counts is not modelled.
- UnitParser.ConvertTime: the quotient is exact; double rounding of large counts is not modelled.
- AggregateStatsDirective.AggregateStats.Execute: the running totals are unbounded integers. The silent long overflow of the totals and the 32-bit wrap of the `int` count are not modelled.
- AggregateStatsDirective.Summary: `total / (double) count` is an exact quotient. A zero count in average mode is modelled (NaN gives 0, an infinity saturates), but rounding of the double division is not.
- Case mapping covers ASCII letters only. Java's default-locale `toUpperCase`/`toLowerCase` of non-ASCII letters, and `Long.parseLong` of non-ASCII digits, are not modelled.
- The `Token` superclass and its `Type` tag are not part of this model. Only the parsed value a token keeps is modelled.
- The `@Directive` annotation, `define()` and its `UsageDefinition` are not modelled. The four arguments `define()` declares required are a precondition of `Initialize`, since the framework rejects a call without them.
- Row values are modelled as their `toString()` text. A missing column and a null value are the same error (the `NullPointerException` of `toString()`).
- Exception messages are not modelled. A failure keeps only its kind and, for the conversions, the offending unit.
- The unknown-unit branches of `parseByteSize` and `parseTimeDuration` are modelled, and proved unreachable.
