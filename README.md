# Shipping-performance and category roll-up models

This project models the two analytical cores of a retail ("superstore")
analytics repository in Dafny and proves properties of them.

- **Shipping pipeline** (`scripts/run_shipping_analysis.py`):
  - Order and ship dates are normalised in two tiers. A bulk, format-inferring parse runs first; entries it left empty are retried one by one with a permissive parser.
  - Invalid-date flags and the shipping delay in whole days are derived from the parsed dates.
  - Overall delay statistics (count, mean, median, std, min, max, IQR) are computed with pandas' linear-interpolation quantiles and ddof = 1 deviation.
  - Per-ship-mode statistics include the negative-delay rate and the long-tail (> 7 days) rate, each over a `max(size, 1)` denominator.
  - An anomaly threshold is chosen from a three-rung ladder, and suspicious records are flagged against it.
  - A guarded Spearman correlation is computed.
  - A fixed-order text summary is built line by line.
- **Category roll-up** (`run_csv` in `scripts/aggregate_sales_by_category.py`):
  - Each row's category is stripped of surrounding whitespace, and its sales text is cleaned of `$` and `,`.
  - Sales that do not parse count as `0.0`.
  - Per-category totals accumulate in an insertion-ordered dictionary.
  - The totals are sorted by descending value and emitted as `cat: total` lines and CSV records.
  - The required-column check of `run_pandas` is modelled too.

Modules, one file each:

- `Options` (`options.dfy`): `Option` and a pass/fail `Outcome`.
- `Sorting` (`sorting.dfy`): a stable insertion sort by a real key, plus distinctness facts. This models Python's `sorted(key=...)` and the sorts inside pandas.
- `Formatting` (`formatting.dfy`): decimal rendering of counts, and newline join and split.
- `Statistics` (`statistics.dfy`): quantiles, mean, sample variance and `describe`.
- `DateParsing` (`date_parsing.dfy`): `safe_parse_dates`.
- `Shipping` (`shipping.dfy`): the columns, groups, rates, threshold, flag and correlation.
- `ShippingReport` (`report.dfy`): the summary lines and the whole `main` run.
- `CategoryTotals` (`category_totals.dfy`): `run_csv` and the column check.

The pipeline's library and runtime calls are parameters of the model:

- `pd.to_datetime` on a column. It is a whole-column function, because the inferred format depends on the column.
- `dateutil.parser.parse`.
- The square root.
- Spearman's coefficient and p-value.
- Python's `float()` on a string.
- Float rendering (`repr`, `:.Nf`).

Timestamps are integers in seconds. A delay is the difference floored to whole days, as `.dt.days` does.

`ship_stats` is grouped from the present-delay rows only (`scripts/run_shipping_analysis.py:63-65`), and the rates computed over all rows are aligned onto that index. So a ship mode whose rows all lack a delay has no row in the per-mode summary, as long as some other row has a delay. When no row has a delay, that frame is empty, and the `neg_rate` assignment on line 69 gives it the index of the rate series: one row per ship mode of the data, with `nan` median and IQR and rates of 0. `Shipping.StatsIndex` chooses between the two indexes: `Shipping.Modes` (modes with a present delay) and `Shipping.AllModes` (every mode).

## Model

| member | source | states |
|---|---|---|
| DateParsing.SafeParseDates | scripts/run_shipping_analysis.py:23-33 | An entry the bulk parse accepted keeps that value. An entry it missed gets the permissive retry's result. An entry is absent exactly when both fail. The result equals the reference `ParseDates`. |
| Shipping.Records | scripts/run_shipping_analysis.py:41-45 | The frame gets one record per input row. Both date columns go through the two-step parse. |
| Shipping.Normalize | scripts/run_shipping_analysis.py:41-45 | Record i keeps input row i and its two parsed dates. Each invalid flag is set exactly when that date is NaT. The delay is present exactly when both dates are. |
| Shipping.RecordFacts | scripts/run_shipping_analysis.py:41-45 | Each parsed date is the bulk parse when that succeeded, and otherwise the retry on its raw text. Each invalid flag holds exactly when that parsed date is NaT. A parsed date is NaT exactly when both parsers failed on the raw text. The delay is present exactly when both dates are. |
| Shipping.DelayDays | scripts/run_shipping_analysis.py:45 | The delay is present iff both timestamps are. It is the floor of the difference in days, so a negative difference gives a negative delay. |
| Shipping.WholeDayDelay | scripts/run_shipping_analysis.py:45 | For dates at midnight, the delay is exactly the difference of day numbers. |
| Shipping.NegativeDelay | scripts/run_shipping_analysis.py:45 | The delay is negative exactly when the ship time precedes the order time. |
| Statistics.Quantile | scripts/run_shipping_analysis.py:49 | The 0% level gives the smallest value of the sorted sample and the 100% level the largest. In between, the quantile interpolates linearly at virtual index `(n - 1) * k / 4`. |
| Statistics.Describe | scripts/run_shipping_analysis.py:48-60 | `count` is the sample size. On a non-empty sample, `mean` is `Mean`, `50%` is `Quantile(sorted, 2)`, and `25%` and `75%` are `Quantile(sorted, 1)` and `Quantile(sorted, 3)`. mean, median, min, max and IQR are present iff the sample is non-empty. std is present iff there are at least two values, and then it is `sqrt` of the sample variance. min and max are the sample's smallest and largest values. `min <= median <= max`, `min <= mean <= max`, and `IQR >= 0`. |
| Statistics.QuantileBounds | scripts/run_shipping_analysis.py:49 | Every interpolated quantile of a sorted sample lies between its first and last values. |
| Statistics.QuantileMonotone | scripts/run_shipping_analysis.py:49-50 | A higher quantile level never gives a smaller quantile, so `75% - 25% >= 0`. |
| Statistics.MedianIsMiddle | scripts/run_shipping_analysis.py:49 | The 50% quantile is the middle element of an odd-sized sample, and the mean of the two middle elements of an even-sized one. |
| Statistics.SortInts | scripts/run_shipping_analysis.py:49 | The ordered sample is a permutation of the sample, and it is sorted. |
| Statistics.SampleVariance | scripts/run_shipping_analysis.py:56 | The ddof = 1 variance is never negative. |
| Statistics.DescribeSingle | scripts/run_shipping_analysis.py:73-74 | A one-value sample has that value as its median and no standard deviation. |
| Shipping.Modes | scripts/run_shipping_analysis.py:63-64 | The groups are distinct. A mode is a group exactly when some row of that mode has a present delay. |
| Shipping.ModesWhere | scripts/run_shipping_analysis.py:64 | The modes listed are distinct. A mode is listed exactly when some selected row has that mode. |
| Shipping.AllModes | scripts/run_shipping_analysis.py:69 | The modes of `df.groupby('Ship Mode')` are distinct. A mode is listed exactly when some row has that mode. |
| Shipping.StatsIndex | scripts/run_shipping_analysis.py:65-69 | The index of `ship_stats` is distinct. It is the present-delay groups when there are any. Otherwise it lists exactly the ship modes of all rows. |
| Shipping.StatsFor | scripts/run_shipping_analysis.py:63-70 | A group's row carries its mode. Its statistics are `describe` of that mode's present delays. Its count is the mode's number of present-delay rows. Its rates are `Rate` of the negative and long-tail counts over all of the mode's rows, and both lie in [0, 1]. |
| Shipping.ShipStats | scripts/run_shipping_analysis.py:63-70 | There is one statistics row per entry of `StatsIndex`, in index order, and row i is `StatsFor` of entry i. |
| Shipping.EmptyGroupStats | scripts/run_shipping_analysis.py:63-70 | A mode with no present delay has count 0, no median and no IQR, and both rates 0. |
| Shipping.NoDelayModeRows | scripts/run_shipping_analysis.py:63-70 | When no row has a delay, there is one statistics row per ship mode of the data, in first-appearance order. Each has no median and no IQR, and both rates are 0. |
| Shipping.GroupFacts | scripts/run_shipping_analysis.py:63-70 | A group's count is its number of present-delay rows, and it is positive. Its rates are the negative and long-tail counts over `max(size, 1)`. Its median, min, max and IQR exist. Min and max are the least and greatest of the group's delays, with `min <= median <= max` and `IQR >= 0`. Both rates lie in [0, 1]. |
| Shipping.Rate | scripts/run_shipping_analysis.py:69-70 | When hits do not exceed the group size, the rate lies in [0, 1]. No hits give rate 0. For a non-empty group, `rate * size = hits`; for an empty one, the denominator is 1. |
| Shipping.DelaysWhereMultiset | scripts/run_shipping_analysis.py:63-65 | Each value occurs among a selection's collected delays exactly as often as there are selected rows with that delay. |
| Shipping.DelaysWhereMembers | scripts/run_shipping_analysis.py:63-65 | A value is among the collected delays exactly when some selected row has it as its delay. |
| Shipping.DelaysWhereCount | scripts/run_shipping_analysis.py:63-65 | The number of delay values collected equals the number of selected rows with a present delay. |
| Shipping.CountWherePositive | scripts/run_shipping_analysis.py:80 | `mask.sum() > 0` holds exactly when some row satisfies the mask. |
| Shipping.ThresholdLadder | scripts/run_shipping_analysis.py:75 | With a std, the threshold lies `3 * std` above the median. Without a std but with a median, it lies 30 above the median. With no median it is 30. It is never below the median when the std is non-negative. |
| Shipping.Threshold | scripts/run_shipping_analysis.py:73-75 | No present delay gives threshold 30. One present value `v` gives `v + 30`. Two or more give `median + 3 * sqrt(sample variance)`. |
| Shipping.Flagged | scripts/run_shipping_analysis.py:76 | Only a row with a present delay is flagged. A negative delay is always flagged. A non-negative delay is flagged exactly when it exceeds the threshold. |
| Shipping.SuspiciousCount | scripts/run_shipping_analysis.py:76 | The flagged count never exceeds the number of rows. It is positive exactly when some row is flagged. |
| Shipping.SuspiciousMonotone | scripts/run_shipping_analysis.py:76 | Raising the threshold never increases the number of flagged records. |
| Shipping.SuspiciousBounds | scripts/run_shipping_analysis.py:76 | Every negative-delay record is flagged, and only records with a present delay are flagged. |
| Shipping.PairRows | scripts/run_shipping_analysis.py:79-81 | The rows handed to the correlation are exactly as many as the mask selects, and each has both a delay and a sales value. |
| Shipping.PairRowsAppend | scripts/run_shipping_analysis.py:79-81 | The selection keeps row order. One more row is appended exactly when it has both a delay and a sales value. |
| Shipping.Correlate | scripts/run_shipping_analysis.py:79-83 | The coefficient and p-value are both present or both absent. They are present exactly when some row has both a delay and a sales value, and then they are Spearman's result on the paired sales and delays, in row order. |
| Shipping.ClipDelay | scripts/run_shipping_analysis.py:87 | The clipped value lies in [-5, 30]. It equals the input inside that range and the nearer bound outside it. |
| Shipping.Analyze | scripts/run_shipping_analysis.py:41-83 | The analysis counts every input row. Its overall statistics are `describe` of all present delays. Its mode rows are `ShipStats`, one per entry of `StatsIndex`. Its threshold is `Threshold` of the delays, and its suspicious count is `SuspiciousCount` at that threshold. Its correlation is `Correlate` of the records, present exactly when some record has both a delay and a sales value. |
| Shipping.CountWhereAgree | scripts/run_shipping_analysis.py:43-44 | Predicates that agree on every element give the same count. |
| Shipping.AnalysisCounts | scripts/run_shipping_analysis.py:43-44 | The total is the number of input rows. Each invalid count is the number of records whose date is NaT, and is at most the total. The overall count is the number of present delays, at most the total. The flagged count lies between the number of negative delays and the overall count. |
| ShippingReport.OverallItems | scripts/run_shipping_analysis.py:52-60 | The overall statistics come as seven items in the dictionary's order: count, mean, median, std, min, max, iqr_days. The count is shown as its digits. An absent mean or std shows as `None`. An absent IQR shows as `nan`. |
| ShippingReport.ModeLine | scripts/run_shipping_analysis.py:129 | A mode row starts with `- `, the mode name and `: median=`. |
| ShippingReport.SummaryLines | scripts/run_shipping_analysis.py:116-139 | With m ship modes, the summary has 26 + m lines. It starts with the header and the rule, and it ends with the three next steps. |
| ShippingReport.StartSummary | scripts/run_shipping_analysis.py:116-123 | Appending the header, rule, record count, the two invalid counts, a blank line and the overall title yields `Preamble`. |
| ShippingReport.AppendItems | scripts/run_shipping_analysis.py:124-125 | The loop over the overall statistics appends exactly one `- key: value` line per item, in order. |
| ShippingReport.AppendModes | scripts/run_shipping_analysis.py:128-129 | The loop over the sorted ship modes appends exactly one mode row per group, in order. |
| ShippingReport.AppendClosing | scripts/run_shipping_analysis.py:130-139 | Appending the flagged-records line, the correlation section and the next steps yields `Closing`. |
| ShippingReport.BuildSummary | scripts/run_shipping_analysis.py:116-139 | Appending line by line, with one loop over the overall statistics and one over the sorted modes, yields exactly the section-by-section summary `SummaryLines`. |
| ShippingReport.SummaryLayout | scripts/run_shipping_analysis.py:116-139 | With m ship modes, the summary has 26 + m lines in this order: header, rule, total records, the two invalid counts, the overall title and seven statistics lines, the mode title and m mode rows, the flagged-records line, the correlation title and line, and the three next steps. |
| ShippingReport.ModeRowsOrdered | scripts/run_shipping_analysis.py:128 | The mode rows are a permutation of the groups, in non-decreasing order of median. |
| ShippingReport.SuspiciousLineReadsBack | scripts/run_shipping_analysis.py:131 | The flagged-records line carries the count as a non-empty run of decimal digits whose value is the count. |
| ShippingReport.RunShippingAnalysis | scripts/run_shipping_analysis.py:36-141 | Running `main` (without charts and file output) produces the summary of `Analyze` on the input rows, joined with newlines. |
| Formatting.NatToStringRoundTrip | scripts/run_shipping_analysis.py:119-121 | Rendering a count as decimal digits and reading the digits back gives the count. |
| Formatting.NatToStringInjective | scripts/run_shipping_analysis.py:119-121 | Different counts are rendered differently. |
| Formatting.SplitJoin | scripts/run_shipping_analysis.py:141 | `'\n'.join` is reversible: splitting the joined text at newlines gives back any non-empty list of lines that contain no newline (empty lines allowed). The lemma is not applied to the summary itself, because mode names and formatter output are not shown to be free of newlines. |
| CategoryTotals.Strip | scripts/aggregate_sales_by_category.py:33 | `strip()` returns a slice of its input with only whitespace before and after it, and the slice neither starts nor ends with whitespace. |
| CategoryTotals.CategoryOf | scripts/aggregate_sales_by_category.py:33 | A missing category, or one made only of whitespace, is the key `''`. Otherwise the key is the category with surrounding whitespace removed, and it starts and ends with a non-whitespace character. |
| CategoryTotals.StripIdempotent | scripts/aggregate_sales_by_category.py:33 | Stripping an already stripped category changes nothing. |
| CategoryTotals.RemoveAll | scripts/aggregate_sales_by_category.py:34 | The result contains no occurrence of the removed character. Every other character keeps its number of occurrences. Text without that character is unchanged. A single character is dropped exactly when it is the removed one. |
| CategoryTotals.RemoveAllAppend | scripts/aggregate_sales_by_category.py:34 | Removing from a concatenation removes from each part. With the one-character case, this fixes the result, so kept characters stay in order. |
| CategoryTotals.DropSeparators | scripts/aggregate_sales_by_category.py:34 | The result has no `$` and no `,`. Every other character keeps its number of occurrences. A single character is dropped exactly when it is `$` or `,`. |
| CategoryTotals.DropSeparatorsAppend | scripts/aggregate_sales_by_category.py:34 | Dropping separators from a concatenation drops them from each part. With the one-character case, this fixes the cleaned text, order included. |
| CategoryTotals.SalesText | scripts/aggregate_sales_by_category.py:34 | The cleaned text has no `$` and no `,`. A missing or empty value becomes `"0"`. A present value becomes `DropSeparators` of it. |
| CategoryTotals.SalesValue | scripts/aggregate_sales_by_category.py:35-38 | A text `float` rejects contributes exactly 0.0. Otherwise the row contributes the parsed value. |
| CategoryTotals.Dict.Add | scripts/aggregate_sales_by_category.py:39 | The key's new value is its old value (0.0 if absent) plus the amount. Every other key keeps its presence and value. A new key is appended to the insertion order. |
| CategoryTotals.Dict.Items | scripts/aggregate_sales_by_category.py:40 | `items()` lists each key with its value, in insertion order. |
| CategoryTotals.Totals | scripts/aggregate_sales_by_category.py:32-39 | Folding the rows through `Dict.Add` keeps the dictionary well formed: keys are distinct and are exactly the stored keys. |
| CategoryTotals.TotalsKeys | scripts/aggregate_sales_by_category.py:32-39 | After the loop, a key exists exactly when some row has it. |
| CategoryTotals.TotalsAreSums | scripts/aggregate_sales_by_category.py:32-39 | After the loop, each total equals the sum of the values of the rows with that key. |
| CategoryTotals.CategoryTotalsAreSums | scripts/aggregate_sales_by_category.py:32-39 | For `run_csv`, the keys are exactly the cleaned categories of the rows. Each total is the sum of the parsed sales (0.0 on failure) of the rows with that category. |
| CategoryTotals.AccumulateTotals | scripts/aggregate_sales_by_category.py:29-39 | The in-place dictionary loop ends in the state of the reference fold `Totals`. |
| CategoryTotals.SortedItemsFacts | scripts/aggregate_sales_by_category.py:40 | Sorting a dictionary's items by descending value gives a permutation of its entries. Each key appears exactly once with its value, and the totals are non-increasing. |
| CategoryTotals.SortedRows | scripts/aggregate_sales_by_category.py:40 | `rows` is a permutation of the dictionary's items, one per key. |
| CategoryTotals.SortedRowsFacts | scripts/aggregate_sales_by_category.py:40 | `rows` lists every category of the file exactly once, with its total, ordered by non-increasing total. |
| CategoryTotals.CsvMatchesText | scripts/aggregate_sales_by_category.py:44-47 | The CSV starts with the header `Category,Sales`. Record i + 1 holds the two fields of text line i, so both outputs list the categories in the same order. |
| CategoryTotals.WriteRecords | scripts/aggregate_sales_by_category.py:43-46 | Writing the header and then one record per sorted row yields exactly `CsvRecords`. |
| CategoryTotals.RunCsv | scripts/aggregate_sales_by_category.py:28-47 | `run_csv` produces the CSV records and the newline-joined `cat: total` lines of the sorted totals. |
| CategoryTotals.RequireColumns | scripts/aggregate_sales_by_category.py:17-18 | The check passes exactly when both `Category` and `Sales` are columns. Otherwise it fails with the script's message. |
| Sorting.SortBy | scripts/aggregate_sales_by_category.py:40 | The sorted sequence is a permutation of its input, and it is non-decreasing in the key. |
| Sorting.PermutationDistinct | scripts/aggregate_sales_by_category.py:40 | A permutation of a sequence without repeats has no repeats. |

## Left out

- Chart drawing (`scripts/run_shipping_analysis.py:85-113`): seaborn and matplotlib rendering is presentation. Only the histogram's clip is modelled, as `Shipping.ClipDelay`.
- File and console I/O: reading the CSV, writing `summary.txt` and the CSV, directory creation, `SystemExit` status codes. The models take the rows as input and return the text and records.
- `main` of `aggregate_sales_by_category.py`: the pandas-then-csv fallback and the input-exists check are control flow around I/O.
- `run_pandas` beyond its required-column check: `to_numeric`, `groupby().sum()` and `sort_values` are library aggregation.
- `pd.to_datetime`, `dateutil.parser.parse`, `float()`, the square root and Spearman's coefficient and p-value are parameters of the model. Their internals, including format inference, time zones and the final re-coercion on line 33, are not modelled.
- Floating-point arithmetic: every value is an exact real. Rounding in `:.1f`, `:.2f` and `repr`, and non-associative float sums, are outside the model. Rendering is a caller-supplied formatter.
- NaN and infinite sales values that `float()` can produce (`'nan'`, `'inf'`) are outside the model, because reals have no NaN.
- Shipping.Modes: pandas orders groups by sorted key, and the model lists them in order of first appearance instead. `Shipping.AllModes` does the same. After `sort_values('median')` the report differs only in how groups with equal medians are ordered: the model breaks such ties by first appearance.
- Shipping.NoDelayModeRows: the `count` column of the fallback rows is NaN in pandas, while the model's count is 0. The report does not print that column.
- Spearman's coefficient: `scipy.stats.spearmanr` returns NaN for a single pair or a constant input, and line 134 then prints `nan`. The model's `spearman` parameter returns a pair of reals, which cannot represent NaN.
- Sorting.SortBy: the insertion sort is stable, as Python's `sorted` is, but its contract states only permutation and order, not stability.
- Missing ship-mode values, which `groupby` drops, are outside the model: a ship mode is always a string.
- Missing date cells are modelled as their text. `str(NaN)` is `'nan'`, which both parsers reject.
- `str.isspace` is modelled by the fixed list of characters Python 3 treats as whitespace. Unicode database updates are not modelled.
- The delay column as a float series with NaN is not modelled: delays are `Option<int>`, and statistics are taken over the present values, as pandas skips NaN.
- `analysis.py`, `scripts/run_notebooks.py` and `scripts/make_slides.py` are not part of this model. They are printing, notebook plumbing and image composition over library calls.
