# Portfolio optimiser: a Dafny model of its core

The program reads daily closing prices for a set of stock tickers. It
turns them into weekly returns R, one column per stock. From R it builds
the covariance matrix C, scaled by 100, and the column means μ. It then
runs a Monte Carlo search for a minimum-variance portfolio, dropping one
stock per round until two remain:

- Each round draws random weight vectors and normalises them to sum to one.
- It keeps the vectors whose expected final capital reaches the target.
- It reports the kept vector with the smallest variance.
- A round with no feasible portfolio drops the stock with the lowest mean
  return.
- A feasible round records the best portfolio seen so far (strict
  improvement only). It then drops the stock with the smallest weight in
  that record.

A companion fetcher (getstock.cc) builds Quandl request URLs and database
file names, strips strings in place and collects HTTP response bodies. Two
small programs (cov.cc, cov-eigen.cc) hold the scalar and matrix
covariance routines and their drivers.

The model has one module per concern:

- `RealSeq` (real_seq.dfy): sums, dot products and `std::min_element` over
  sequences of reals. Doubles are `real`.
- `CText` (ctext.dfy): the C library string behaviour the code relies on:
  `isspace`, `toupper`, `strlen`, case-insensitive comparison, and the
  `upper` helpers. A `char const *` is the character sequence it points at;
  its C string is the part before the first NUL (`CStr`). A nullable
  pointer is an `Option`.
- `MatrixOps` (matrix_ops.dfy): `rmrow`, `rmcol` and `eigen_vector_erase`
  as methods on `Matrix`/`Vector` objects, and `index_remove`.
- `Statistics` (statistics.dfy): `weeklyReturns` and the matrix `cov`, plus
  the facts the elimination loop needs about erasing a column.
- `ScalarStats` (scalar_stats.dfy): `mean`, `var` and `cov` of cov.cc.
- `Simulation` (simulation.dfy): `run`, run sequentially. The caller's
  three result vectors form a `TrialLog` object. Each thread filters a
  supplied batch of random draws.
- `Elimination` (elimination.dfy): the loop at main.cc:703-755, as a method
  over R, C, μ, the tickers and the best-so-far record.
- `CsvText` (csv_text.dfy): `ticker_from_filename` and `indexOf`.
- `GetStock` (getstock.dfy): the getstock.cc helpers. A `std::string`
  changed through a pointer is a `StringBuffer` object.
- `Wrappers` (wrappers.dfy): `Option`.

The loop is modelled as the code is written. In particular, a round with
no feasible portfolio removes a column from R, C and μ but does not erase
a ticker (main.cc:726-731), so later tickers no longer line up with the
columns. The feasible branch takes the removal index from the best record's
weights rather than from this round's trial (main.cc:745). When that index
is past the end of `tickers`, `tickers.erase` is undefined behaviour; the
model ends the loop there with the outcome `TickerEraseOutOfRange`.

The comment above `weeklyReturns` (main.cc:311-321) describes one return
for each day 4 ≤ i < n, the change from day i − 4. The code (main.cc:322-333)
computes only n/5 of them, the changes starting at each of the first n/5
days. R is sized to n/5 rows (main.cc:695), so the code agrees with its
caller. The model follows the code (`WeeklyReturns`, `ReturnsAsWritten`).
The commented version is also modelled (`DocumentedReturns`,
`WeeklyReturnsDocumented`), and `ReturnsAsWrittenIsPrefix` and
`ReturnsAsWrittenCounterexample` relate the two.

## Model

| member | source | states |
|---|---|---|
| RealSeq.MinElement | main.cc:545-549 | `std::min_element`: an index at most the length, equal to it only for an empty range; otherwise the entry there is at most every entry and strictly below every earlier one (the first minimum) |
| RealSeq.SumAppend | main.cc:516-520 | the running sum over a concatenation is the sum of the sums of the parts |
| RealSeq.SumNonNegative | cov-eigen.cc:42-43 | a sum of non-negative terms is non-negative |
| RealSeq.SumDivided | main.cc:522-524 | dividing every entry by c divides the sum by c |
| RealSeq.SumShifted | cov.cc:29-32 | the deviations from m sum to the sum less n·m |
| CText.ToUpper | main.cc:75 | `toupper`: a lower-case ASCII letter maps to its upper-case letter (code minus 32), anything else is unchanged |
| CText.CStr | main.cc:71 | the C string of a buffer is the prefix before the first NUL, holds no NUL, and is followed by a NUL when shorter than the buffer |
| CText.Strlen | main.cc:71 | `strlen` returns the length of the C string |
| CText.UpperString | getstock.cc:98-106 | upper-casing keeps the length, leaves no lower-case letter and agrees with the input ignoring case |
| CText.UpperStringIdempotent | getstock.cc:98-106 | upper-casing an upper-cased string changes nothing |
| CText.Upper | getstock.cc:98-106 | `upper(std::string const &)`: the loop yields `toupper` of every character, at the same length |
| CText.UpperCStr | main.cc:69-78 | `upper(char const *)` (getstock.cc:107-116 is identical): `toupper` of every character of the C string, up to its `strlen` |
| CText.ContainsCIBasics | getstock.cc:183 | `strcasestr` finds the empty needle, the haystack itself and its upper-cased form |
| MatrixOps.Erase | main.cc:581-588 | erasing position i keeps length − 1; entry j comes from position j (j < i) or j + 1; the removed entry is the only multiset difference; an index at or past the last entry drops the last one |
| MatrixOps.EraseCol | main.cc:568-577 | every row loses the entry of column i, so the matrix keeps its rows and has one column less |
| MatrixOps.RemoveRow | main.cc:555-564 | `rmrow`: the rows below `rm` move up one and the last row goes; the column count is kept |
| MatrixOps.RemoveCol | main.cc:568-577 | `rmcol`: every row's entries right of `rm` move left one and the last column goes; the row count is kept |
| MatrixOps.VectorErase | main.cc:581-588 | `eigen_vector_erase`: the tail shifts down one and the vector shrinks by one |
| MatrixOps.IndexRemove | main.cc:57-64 | `index_remove` only rearranges: same length, partition point within it |
| MatrixOps.KeptPositions | main.cc:61-63 | the original positions the partition keeps are ascending, in range and not listed |
| MatrixOps.KeptPositionsComplete | main.cc:61-63 | every in-range position not listed in `ixrm` is kept |
| MatrixOps.IndexRemoveKeepsUnlisted | main.cc:176 | after `index_remove` and `erase(it, end)`, what remains is exactly the elements at unlisted positions, in original order, and the container was a permutation of the original |
| MatrixOps.PartitionKeeps | main.cc:61-63 | `stable_partition` keeps the unlisted elements in order and loses none |
| MatrixOps.PartitionOrder | main.cc:61-63 | the kept part is the elements at the kept positions, in order |
| MatrixOps.PartitionMultiset | main.cc:61-63 | kept and removed parts together are a permutation of the input |
| Statistics.WeeklyReturns | main.cc:322-333 | length n/5 (integer division); entry i is `(prices[i+4] − prices[i]) / prices[i]` and `i + 4` is in bounds; the result is `ReturnsAsWritten` |
| Statistics.ReturnsAsWritten | main.cc:322-333 | the returns the code computes: n/5 entries, the five-day change starting at each of the first n/5 days |
| Statistics.DocumentedReturns | main.cc:311-321 | the returns the comment describes: one for each day 4 ≤ i < n, the change from day i − 4 (none when n < 5) |
| Statistics.ReturnsAsWrittenIsPrefix | main.cc:311-333 | the computed returns are the first n/5 of the documented ones |
| Statistics.ReturnsAsWrittenCounterexample | main.cc:311-333 | for ten prices flat at 1 until the last, 2, the code gives [0, 0], while the documented returns number 6 and the last is 1 |
| Statistics.WeeklyReturnsDocumented | main.cc:311-321 | a loop computing the documented returns: entry i − 4 is `(p[i] − p[i−4]) / p[i−4]` for every 4 ≤ i < n |
| Statistics.ColMeans | main.cc:713 | `colwise().mean()`: one entry per column, the column's sum over the row count |
| Statistics.Cov | main.cc:334-380 | needs more than one row; ncol×ncol, symmetric, and every entry is the sample covariance of its two columns with divisor nrow − 1 |
| Statistics.UpperTriangle | cov-eigen.cc:40-46 | the first loop nest fills C(i,k), i ≤ k, with the deviation products summed and divided by nrow − 1 |
| Statistics.Mirror | cov-eigen.cc:51-55 | the second loop nest keeps the upper triangle and copies C(k,i) into C(i,k) below the diagonal |
| Statistics.SampleCovSymmetric | main.cc:370-378 | the covariance formula is symmetric in the two columns |
| Statistics.SampleVarianceNonNegative | cov-eigen.cc:40-46 | a diagonal entry is squared deviations over nrow − 1, hence ≥ 0 |
| Statistics.IdenticalColumnsCov | cov-eigen.cc:42-44 | two equal columns have as covariance the variance of that column |
| Statistics.ColumnAfterErase | main.cc:728 | erasing a column renumbers the others and leaves their contents |
| Statistics.SampleCovOfSameColumns | main.cc:365-367 | a mean or covariance depends only on the columns involved |
| Statistics.StatisticsAfterErase | main.cc:727-730 | the means and covariances of R with a column erased are the old ones at the shifted indices |
| Statistics.ExampleMeans | cov-eigen.cc:70 | the driver's 4×2 matrix has column means 0.5825 and 0.1325 |
| Statistics.CovExample | cov-eigen.cc:62-74 | the driver's matrix has variances 0.043225 and 0.014675/3 and covariance −0.008575, in both off-diagonal entries |
| ScalarStats.Mean | cov.cc:4-15 | `mean` accumulates the sum and returns it over the size |
| ScalarStats.Var | cov.cc:16-35 | `var` as written: the mean of `size` zeros followed by the `size` deviations, i.e. Σ(x − m)/(2·size), with m computed when the pointer is NULL |
| ScalarStats.VarAsWrittenAtMeanIsZero | cov.cc:25-33 | given the true mean, `var` as written is 0 for every input |
| ScalarStats.VarAsWrittenCounterexample | cov.cc:29-33 | on [0, 2], `var` as written gives 0 while the variance is 1 |
| ScalarStats.VarCorrected | cov.cc:16-35 | the intended `var`: the mean of the squared deviations, never negative, equal to `cov(x, x)` |
| ScalarStats.SquaresNonNegative | cov.cc:30 | the population variance about any m is ≥ 0 |
| ScalarStats.Cov | cov.cc:36-62 | `cov`: Σ(x1[i] − m1)(x2[i] − m2) / n (divisor n, not n − 1), reading `x2` only below `x1.size()`, means computed for NULL pointers |
| ScalarStats.PopulationCovSwap | cov.cc:57-61 | swapping the vectors together with their means gives the same covariance |
| ScalarStats.DriverExample | cov.cc:63-75 | for 0..9: mean 4.5, `cov` 8.25 both with NULL means and with the means passed in, and `var` as written 0 |
| Simulation.NormalisedOnSimplex | main.cc:516-524 | a draw of non-negative numbers with positive sum, divided by that sum, has non-negative weights summing to 1 |
| Simulation.Evaluate | main.cc:516-526 | a trial has ncol weights on the simplex with variance wᵀCw and expected return w·μ |
| Simulation.Normalise | main.cc:516-524 | the two loops compute the running sum, then divide every weight by it |
| Simulation.EvaluateDraw | main.cc:516-526 | one trial's weights, variance and expected return are those `Evaluate` specifies |
| Simulation.Accepted | main.cc:511-532 | the kept trials are no more than the draws; each is on the simplex and passes `(μ + 1)·capital ≥ min_return`; a last draw that passes is kept |
| Simulation.AcceptedAppend | main.cc:511-532 | filtering two draw sequences in turn equals filtering their concatenation |
| Simulation.AcceptedSnoc | main.cc:527-531 | one more draw appends its trial exactly when it passes the test |
| Simulation.KeepIfFeasible | main.cc:525-531 | one loop body: the three thread-local vectors grow by this trial exactly when it is feasible |
| Simulation.Thread | main.cc:497-532 | a thread's three vectors hold the weights, variances and returns of its accepted trials, in draw order |
| Simulation.TrialLog.Append | main.cc:537-541 | the critical section appends a thread's vectors to the caller's three vectors |
| Simulation.TrialLog.Clear | main.cc:752-754 | the three `clear()` calls empty the vectors |
| Simulation.Pooled | main.cc:491-542 | every pooled trial is on the simplex with its variance and return, and is feasible |
| Simulation.PooledIsSequential | main.cc:491-542 | the threads' batches appended in thread order give exactly the trials one thread would accept from all draws in turn |
| Simulation.LogsAppend | main.cc:538-541 | appending logged batches gives the log of the concatenated trials |
| Simulation.Run | main.cc:472-549 | negative capital: −1 and the vectors untouched; otherwise the vectors gain the feasible trials, and the result is the first minimum of the whole `variances` vector, or −1 when it is empty |
| Elimination.Scaled | main.cc:705 | `C * 100.0`: same shape, every entry multiplied |
| Elimination.InitialBest | main.cc:707-711 | the record before the loop: `min_var` 10000000.0, no weights, `nstocks` the column count |
| Elimination.RoundTrials | main.cc:719-721 | a round's trials (none for negative capital) are evaluated and feasible for capital `initial_capital − cols·tcost` and target `initial_capital·(min_return + 1)` |
| Elimination.Record | main.cc:736-743 | `min_var` never grows and ends at most every variance of the round; the record changes only on strict improvement, to the first minimum-variance trial with μ and the tickers |
| Elimination.RecordKeepsInvariant | main.cc:736-743 | after a feasible round the record is the initial one or a feasible portfolio on the simplex with at most as many stocks as tickers |
| Elimination.RecordedTrial | main.cc:738-742 | a recorded trial satisfies `(w·μ + 1)·capital ≥ target` for its own stock count |
| Elimination.AlignedErase | main.cc:745-749 | erasing one index from R's columns, C's rows and columns, and μ leaves C the scaled covariance and μ the means of the new R |
| Elimination.Improve | main.cc:736-743 | the update at `found` is `Record` of the round's trials |
| Elimination.RemoveAt | main.cc:726-730 | the four erasures at one index: R, C and μ lose that index and stay aligned |
| Elimination.Round | main.cc:718-754 | one iteration: R, C, μ each lose the index `Removed` names; an infeasible round keeps tickers and record; a feasible one applies `Record`, erases the ticker (or ends with `TickerEraseOutOfRange`) and clears the vectors |
| Elimination.Capital | main.cc:720 | the capital after costs, `initial_capital − cols·tcost`: the full capital with no stocks, never above it when the cost is non-negative |
| Elimination.Target | main.cc:719-720 | the target `initial_capital·(min_return + 1)`: the capital itself for a zero return, at least the capital for non-negative capital and return |
| Elimination.CapitalGrowsAsStocksDrop | main.cc:720 | with a non-negative per-stock cost, fewer columns leave at least as much capital |
| Elimination.FeasibleMeansReturn | main.cc:719-720 | with positive capital and no cost, a trial passes the feasibility test exactly when its expected return reaches `min_return` |
| Elimination.Removed | main.cc:722-750 | the index erased in a round: for an infeasible round the first minimum of μ (main.cc:726); for a feasible one the first minimum of the record's weights (main.cc:745), or 0 when the record holds none; every earlier entry is strictly larger |
| Elimination.ScaledCov | main.cc:703-705 | `cov(R) * 100`: square, with every entry 100 times the sample covariance of its two columns |
| Elimination.AlignedDetermined | main.cc:703-713 | while C and μ stay aligned with R, they are exactly `ScaledCov(R)` and the column means of R |
| Elimination.EraseCols | main.cc:727-730 | R after the erasures of the rounds played so far, one column per round, in order: same rows, one column less per round |
| Elimination.RoundPlayedExtend | main.cc:718-755 | whether an earlier round was played is unchanged when the trial history, the removed columns, the records and the ticker lists grow at their ends |
| Elimination.PlayedSnoc | main.cc:718-755 | a round played on R with the earlier columns erased, from the last record and ticker list, extends the account of played rounds: its trials, its removed column, the record and the tickers it leaves |
| Elimination.RoundFactsHold | main.cc:718-750 | the round about to be played on C and μ recomputed from R with the earlier columns erased satisfies `RoundFacts`, and erasing its column from that R is erasing one more column from the initial R |
| Elimination.BelowAllStep | main.cc:736-743 | after a round, `min_var` is still at most every variance of every round so far |
| Elimination.SetByStep | main.cc:736-743 | after a round, the record is the initial one or the first minimum-variance trial of the round that last improved it, with that round's stock count, mean returns and tickers |
| Elimination.RoundBookkeeping | main.cc:718-750 | for a round about to be played: the record it leaves is still feasible, the round counts as played on R with the earlier columns erased (trials, removed column, new record and tickers), R then loses that column, and the record stays the best of all rounds |
| Elimination.Step | main.cc:718-754 | one loop iteration on the objects: it plays a round on R as the earlier rounds left it, keeps R, C and μ aligned, extends the histories of trials, removed columns, records and ticker lists by this round's entries, and keeps the record's provenance |
| Elimination.Eliminate | main.cc:718-755 | on every outcome: at most cols − 2 rounds (when cols > 2), one column less per round; round k ran on the initial R with `removed[..k]` erased, took the record from `records[k]` to `records[k + 1]` and the tickers from `tickerHist[k]` to `tickerHist[k + 1]`, and removed `removed[k]` by the rule of main.cc:722-750; the records start at the initial record and the tickers at the given ones, and the result is the last record; R ends with all removed columns erased; `min_var` is at most every variance of every round, and the record is the initial one or the first minimum-variance trial of the round that set it, with that round's mean returns and tickers; a normal end leaves min(cols, 2) columns |
| Elimination.Optimise | main.cc:703-755 | C and μ are computed from R (main.cc:703-713), then the loop runs as `Eliminate` states from the initial record and the given tickers; the record is feasible, and on the simplex once a trial has set it |
| CsvText.Find | main.cc:90 | `strchrnul`: a position at or after b that holds c, or the end |
| CsvText.FindAt | main.cc:297 | `strchrnul` returns the first occurrence, or the end when there is none |
| CsvText.FindSkipsAll | main.cc:297 | no character before the position found is c |
| CsvText.TickerFromFilename | main.cc:84-93 | `ticker_from_filename`: the upper-cased part of the name before its first '.', holding no '.' and agreeing with the name's start ignoring case |
| CsvText.CStrPrefix | main.cc:91 | writing a NUL ends the C string there |
| CsvText.TickerRoundTrip | main.cc:79-83 | the ticker part of a database name `TICKER.begin.end.csv` (or `TICKER.csv`) is the ticker again |
| CsvText.TickerFromBaseName | main.cc:84-93 | `ticker_from_filename` of a name `make_filename` writes (getstock.cc:149-153) gives back the upper-cased ticker, for a ticker holding no '.' or NUL |
| CsvText.TokensFromJoin | main.cc:291-298 | the fields walked from b, joined with ',', give back the text from b |
| CsvText.TokensFromSepFree | main.cc:292 | no field holds a separator |
| CsvText.SplitJoin | main.cc:291-298 | joining a line's fields gives the line, and no field holds ',' |
| CsvText.JoinSplit | main.cc:291-298 | splitting ','-joined separator-free fields gives the fields back |
| CsvText.TokensFromCount | main.cc:300-304 | the fields from b number one more than the separators from b |
| CsvText.SplitCount | main.cc:300-304 | a line has one field more than it has separators |
| CsvText.FirstMatch | main.cc:291-295 | the index of the first field that is a case-insensitive prefix of `field` (`strncasecmp` over the field's length), or −1 exactly when none is |
| CsvText.WalkFields | main.cc:289-299 | the pointer walk stops at the first matching field's index, or at the field count when none matches |
| CsvText.WalkStep | main.cc:296-298 | a non-matching field advances the walk by one field |
| CsvText.WalkEnds | main.cc:291-299 | when the walk stops, its index is the first match or the field count |
| CsvText.CountSeparators | main.cc:300-304 | the `nsep` loop counts the ',' of the line |
| CsvText.IndexOf | main.cc:276-310 | no ',' in the line: 0 on exact equality with `field`, else −1; otherwise the first field matching `field` case-insensitively as a prefix, −1 when none does |
| CsvText.FirstMatchExample | main.cc:270-275 | among the fields of the header line `Date,Open,High,Low,Close`, the first match for `Low` is field 3 |
| CsvText.LowColumnOfHeader | main.cc:270-275 | `indexOf("Date,Open,High,Low,Close", "Low")` returns 3, through `IndexOf`'s contract |
| GetStock.FirstNonSpace | getstock.cc:83 | `find_if(!isspace)`: the first non-space position, all space before it |
| GetStock.LastNonSpaceEnd | getstock.cc:91 | the reverse `find_if`: one past the last non-space character, all space after it |
| GetStock.LStripped | getstock.cc:81-88 | an all-whitespace string is unchanged; otherwise the suffix from the first non-space character, with only whitespace cut |
| GetStock.RStripped | getstock.cc:89-93 | the longest prefix that is empty or ends in a non-space character; only whitespace is cut; all-whitespace becomes empty |
| GetStock.StrippedIsTrimmed | getstock.cc:76-80 | a stripped string is empty (exactly when the input is all whitespace) or starts and ends with a non-space character |
| GetStock.StripIdempotent | getstock.cc:76-80 | stripping twice is stripping once |
| GetStock.StripCutsSpaceOnly | getstock.cc:76-93 | `strip` leaves the stretch of the string that starts at its first non-space character, with only whitespace after it; the lemma returns that position and the stripped string |
| GetStock.LStrip | getstock.cc:81-88 | rotate then erase leaves the buffer holding `LStripped` of its old value |
| GetStock.RStrip | getstock.cc:89-93 | the erase leaves the buffer holding `RStripped` of its old value |
| GetStock.Strip | getstock.cc:76-80 | `lstrip` then `rstrip` in place |
| GetStock.CurlCallback | getstock.cc:288-292 | appends exactly `size·nmemb` (as `size_t`) bytes of `buf` to the client string and returns that count |
| GetStock.MakeUrl | getstock.cc:122-137 | the URL starts with `urlbase` followed by the ticker, and with the whole stem `urlbase + ticker + ".csv?order=asc&api_key=" + token`; with no dates it is that stem |
| GetStock.WithDates | getstock.cc:128-135 | the URL starts with the stem; the start-date field follows it when `begin` is given, the end-date field ends it when `end` is given; with neither it is the stem |
| GetStock.MakeUrlBothDates | getstock.cc:122-137 | `make_url` is `urlbase + ticker + ".csv?order=asc&api_key=" + token`, then `&start_date=` + begin, then `&end_date=` + end, each only when given |
| GetStock.DirPart | getstock.cc:147-148 | the directory part ends in '/', starts with `dbroot`, and is at most one character longer |
| GetStock.BaseNameEndsCsv | getstock.cc:153 | every base name ends in `.csv` |
| GetStock.MakeFilename | getstock.cc:143-155 | the name starts with `dbroot`, has '/' after the directory, ends in `.csv`, and the dates appear only when both are given |
| GetStock.MakeFilenameDated | getstock.cc:138-142 | with both dates and no trailing slash the name is `dbroot/TICKER.begin.end.csv`, the documented `/path/to/dir/TICKER.begin.end.csv` form |
| GetStock.MakeFilenameSlashOnce | getstock.cc:148 | a '/' is added only when missing: `dbroot` and `dbroot/` give the same name |
| GetStock.FindFileFirstMatch | getstock.cc:180-189 | with a file list, the answer is the stripped name of the first file whose name contains the ticker ignoring case |
| GetStock.FindFileNoMatch | getstock.cc:180-189 | with a file list in which no name contains the ticker, the answer is the empty string |

## Left out

- File and date input (`read_stock_data`, `read_until`, `strtotime`, `timetostr`): they read the price files. The model takes R, the tickers and the prices as inputs. The assembly of R from the price map (main.cc:686-702) is left out with them.
- Command-line parsing, `usage`, `die`, `warn`, the printing at main.cc:756-764 and the two drivers' output: these are I/O.
- OpenMP: the threads run one after another, thread 0 first. The order in which critical sections append is a scheduling choice the model fixes. The unguarded `variances`/`returns` inserts are a data race the model does not capture.
- The Mersenne twister seeded from the clock is replaced by supplied draws: one batch of `nsim / threads` draws per thread, each from [0, 1) with a positive sum.
- Simulation.Run: `run`'s R parameter is unused by the source and dropped; the thread count is a parameter.
- IEEE double rounding, infinities and NaN: all arithmetic is on reals. Divisions by zero are excluded by preconditions (a zero price, an empty vector, a draw summing to zero).
- Statistics.WeeklyReturns: requires non-zero prices where the source would produce inf or NaN.
- ScalarStats.Mean, ScalarStats.Var, ScalarStats.Cov: require a non-empty vector where the source divides 0 by 0.
- CsvText.TickerFromFilename: requires a name shorter than 256 characters; a longer one overflows `buf`, which is undefined behaviour.
- CsvText.WalkFields: after the last field, `strchrnul` is called one past the terminator before the loop test fails; the model does not read there.
- GetStock.MakeFilename: requires a non-empty `dbroot`, because `back()` on an empty string is undefined.
- GetStock.FindFileByTicker: the branch with no `files` list runs `ls` through `popen` and is not modelled.
- `database_init`, `slurp`, `get_db_files`, `writef`, `has_data` and libcurl: these are system calls.
- The source's `index_remove` relies on `stable_partition` calling its stateful `ix++` predicate once per element, in order; the model uses the original index directly.
- Eigen's block copy and `conservativeResize` are modelled by their sequence effect; aliasing inside Eigen is not.
- The `DEBUG`-only length check in cov.cc `cov` is not modelled; `|x2| ≥ |x1|` is a precondition instead.
- scratch.cc is not part of this model.

## Findings

| source | as written | input that shows it | evidently intended | confidence | as-written member | corrected member |
|---|---|---|---|---|---|---|
| cov.cc:25-33 | `v.resize(size)` then `push_back` of the plain deviations `x[i] − m`: the result is Σ(x − m)/(2·size), which is 0 whenever m is the mean | x = [0, 2]: `var` gives 0, the variance is 1 | push the squared deviations onto an empty vector and average them, giving the population variance ≥ 0, equal to `cov(x, x)` | not executed | ScalarStats.VarAsWrittenCounterexample | ScalarStats.VarCorrected |
