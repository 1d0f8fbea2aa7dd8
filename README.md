# Manufacturing stock dashboard: a Dafny model of its core

The dashboard reads a Markdown catalogue of manufacturing companies grouped
into categories. It normalises each ticker symbol to the form the market-data
provider (yfinance) expects and fetches, for every distinct symbol, today's
close, the close five business days ago and the close one month ago. From
those it computes two percentage changes, regroups the results by category
and averages the valid changes of each category.

This project models that core in Dafny 4.11, one module per concern:

- `Text` (text.dfy): the Python `str` operations the code relies on:
  `strip()`, `startswith`, `endswith`, `split(sep)` and its inverse
  `sep.join`.
- `Tickers` (tickers.dfy): `adjust_ticker_for_yfinance`. The steps are the
  25-entry override table, the pass-through for known exchange suffixes, and
  the dot heuristic that cuts a symbol back to its first dot-segment when the
  last segment is empty or longer than three characters.
- `History` (history.dfy): `get_closest_price_yf`. It requests the window
  from ten days before the target up to the day after it. The result is the
  close of the last sample dated on or before the target, and `None` when the
  series is empty, the provider raises, or no sample survives the filter.
- `StockData` (stock_data.dfy): `get_stock_data_for_ticker`. The three
  provider steps are inputs (ticker creation, `info`, the history lookups).
  The error record is returned at each failure point, and the two changes are
  computed as written in the code.
- `Catalogue` (catalogue.dfy): `parse_categories_and_tickers`. It is an
  imperative line scan proved equal to a functional fold (`ScanLines`). The
  regular-expression ticker and name extraction is a parameter.
- `Dashboard` (dashboard.dfy): the main flow:
  1. collect the set of (adjusted, raw, name, industry) tuples;
  2. fetch every tuple in the set's own order and merge the records;
  3. group the records per category in insertion order;
  4. average each category's changes.
- `Seqs` (seqs.dfy) and `Wrappers` (wrappers.dfy): small shared sequence
  facts and the `Option` type.

A Python dictionary that keeps insertion order is modelled as an order
sequence plus a map. Iterating a Python `set` visits its elements in an order
the program does not control. `FetchAll` therefore picks the next element
with `:|` and returns the visiting order as a ghost sequence. Its contract
says which results do not depend on that order.

Three behaviours of the code, kept as written:

- A missing close for today is not an error in the code. The record reports
  success (`error` is `None`) with both changes absent.
  `StockData.NoTodayPriceIsNotAnError` states this.
- The dot heuristic returns the FIRST dot-segment (`parts[0]`). It keeps a
  symbol whose final segment has one to three characters.
- The one-month change tests `price_1mo == 0` where the five-day change tests
  `price_today == 0`. The one-month change is therefore never infinite: a
  zero baseline gives 0.0 even when today's price is non-zero. The model keeps
  this as written. `StockData.ChangesAgreeOffZeroBaseline` says exactly where
  the two columns differ.

## Model

| member | source | states |
|---|---|---|
| Text.Strip | get_stock_changes.py:37 | the stripped text is a slice of the input with only whitespace (as `str.isspace` defines it) before and after it, and it neither starts nor ends with whitespace |
| Text.StripIdempotent | get_stock_changes.py:37 | stripping an already stripped text changes nothing |
| Text.TrailingSpaceOfSuffix | get_stock_changes.py:37 | what strip removes at the end is whitespace of the input |
| Text.Split | get_stock_changes.py:111 | `split` always yields at least one piece |
| Text.JoinSplit | get_stock_changes.py:111 | joining the pieces of a split with the separator gives back the input |
| Text.SplitPiecesFree | get_stock_changes.py:111 | no piece of a split contains the separator |
| Text.SplitFirst | get_stock_changes.py:114 | the first piece is the text before the first separator (all of it when there is none) |
| Text.SplitFirstEmpty | get_stock_changes.py:114 | the first piece is empty exactly when the text starts with the separator |
| Text.SplitFirstPrefix | get_stock_changes.py:114 | the first piece is a prefix of the text, followed by a separator when it is shorter than the text |
| Text.SplitSingle | get_stock_changes.py:111 | a text without the separator splits into itself alone |
| Text.SplitAtSeparator | get_stock_changes.py:111 | a text containing the separator splits into at least two pieces |
| Text.SplitLast | get_stock_changes.py:112 | the last piece is the text after the last separator |
| Tickers.Adjust | get_stock_changes.py:65-118 | a symbol outside the table comes back unchanged or cut back to the text before its first dot |
| Tickers.Fallback | get_stock_changes.py:106-118 | the symbol is kept or cut back to the text before its first dot, and only a dotted symbol without a known suffix is cut |
| Tickers.KeysAndValuesNonEmpty | get_stock_changes.py:69-104 | no key or value of the table is empty |
| Tickers.OverrideExamples | get_stock_changes.py:69-104 | table entries win over every other rule (RIL, BA., RR., AIR, 7203, NSRGY) |
| Tickers.DottedKeysOfTable | get_stock_changes.py:69-104 | a dotted table key maps to itself unless it ends in a bare dot |
| Tickers.DottedSuffixesNeedDot | get_stock_changes.py:107-108 | a symbol ending in one of the known suffixes contains a dot |
| Tickers.EndsWithDotted | get_stock_changes.py:108 | with `j` the last dot, `t` ends with "." + c exactly when c is the text after `j` |
| Tickers.EndsWithAnyDotted | get_stock_changes.py:108 | a list of one-dot suffixes matches exactly when it holds "." + the last segment |
| Tickers.KnownSuffixByLastSegment | get_stock_changes.py:106-109 | a dotted symbol has a known suffix exactly when "." + its last segment is in the list |
| Tickers.KnownSuffixUnchanged | get_stock_changes.py:65-109 | every symbol with a known suffix adjusts to itself, table keys included |
| Tickers.NoDotKept | get_stock_changes.py:117-118 | a symbol outside the table without a dot is returned unchanged |
| Tickers.DotHeuristic | get_stock_changes.py:110-116 | without a known suffix, the result is the text before the first dot when the text after the last dot has length 0 or more than 3, and the symbol itself otherwise |
| Tickers.IdempotentOnKnownSuffix | get_stock_changes.py:106-109 | adjusting twice equals adjusting once for symbols with a known suffix |
| Tickers.IdempotentOutsideTable | get_stock_changes.py:65-118 | outside the table, a second adjustment changes nothing unless the first one produced a table key that the table rewrites |
| Tickers.NotIdempotentAfterCut | get_stock_changes.py:94-114 | "RIL.ABCD" adjusts to "RIL", which adjusts further to "RELIANCE.NS" |
| Tickers.TrailingDotDropped | get_stock_changes.py:110-114 | "XY." adjusts to "XY" |
| Tickers.LongSuffixCutToFirstSegment | get_stock_changes.py:110-114 | "A.B.CDEF" adjusts to "A", the first segment |
| Tickers.ShortSuffixKept | get_stock_changes.py:110-116 | "BRK.B" is kept as it is |
| Tickers.LeadingDotLeavesNothing | get_stock_changes.py:110-114 | ".ABCD" adjusts to the empty symbol |
| Tickers.EmptyAdjusted | get_stock_changes.py:65-118 | the adjusted symbol is empty exactly when the raw one is empty, or starts with a dot, is outside the table, has no known suffix and has an implausible last segment |
| Tickers.FallbackEmpty | get_stock_changes.py:106-118 | outside the table, a non-empty symbol is cut to nothing exactly when it has no known suffix, starts with a dot and has an implausible last segment |
| History.LastOnOrBefore | get_stock_changes.py:228-230 | the chosen index is dated on or before the target and every later sample after it; none exactly when no sample is on or before the target |
| History.ClosestPrice | get_stock_changes.py:211-235 | a raised fetch gives None; otherwise None exactly when no sample is dated on or before the target, else the close of such a sample with no surviving sample after it |
| History.ClosestIsLatest | get_stock_changes.py:211-230 | on a date-ordered series the chosen close belongs to the latest day not after the target |
| History.NoPriceWithoutEarlierSample | get_stock_changes.py:218-229 | an empty series or one holding only later days gives None, not a number |
| StockData.FiveDayChange | get_stock_changes.py:184-189 | absent exactly when either price is absent; infinite exactly on a zero baseline with a non-zero price; a number moves the baseline to today's price; 0.0 on a zero baseline with a zero price |
| StockData.OneMonthChange | get_stock_changes.py:190-193 | absent exactly when either price is absent; never infinite; a number moves a non-zero baseline to today's price; 0.0 on every zero baseline |
| StockData.Percent | get_stock_changes.py:187 | the percentage `p` satisfies today == base + base * p / 100 |
| StockData.ChangesAgreeOffZeroBaseline | get_stock_changes.py:186-193 | the two change rules differ exactly on a zero baseline with a non-zero current price |
| StockData.ChangeExamples | get_stock_changes.py:186-193 | 100 over 0 is infinite, 0 over 0 is 0 %, absent over 100 is absent, 110 over 100 is 10 %, and the one-month rule gives 0 % for 100 over 0 |
| StockData.GetStockData | get_stock_changes.py:122-209 | success exactly when the ticker initialises, the info is present and not all three key fields are missing, and the dates are computed; a failure is the error record; a success carries the three closest prices and the changes computed from them |
| StockData.NoTodayPriceIsNotAnError | get_stock_changes.py:178-202 | whenever the lookup for today gives no price, the record still reports success, with both changes absent |
| StockData.InfiniteOnlyFiveDay | get_stock_changes.py:184-193 | only the five-day change can be infinite, and then the five-day price is 0 and today's price is non-zero |
| Catalogue.Put | get_stock_changes.py:40 | dictionary assignment keeps the dictionary well formed, sets the key, and keeps an existing key's position or appends a new one |
| Catalogue.Cells | get_stock_changes.py:42 | a row yields one cell per piece between the first and last `|`, each the stripped piece, and none when there are fewer than two pieces |
| Catalogue.RowEntry | get_stock_changes.py:43-51 | an entry exists exactly when there are two cells and the extraction yields a non-empty ticker and name; it holds that ticker and name and the second cell as industry |
| Catalogue.HeaderKeepsConsistent | get_stock_changes.py:38-40 | opening a category keeps the scan's invariant (well-formed dictionary, current category present, unique non-empty tickers) |
| Catalogue.AppendKeepsConsistent | get_stock_changes.py:52-57 | appending an entry with a new ticker keeps the invariant |
| Catalogue.ScanLine | get_stock_changes.py:36-57 | one step of the scan preserves the invariant |
| Catalogue.ScanLines | get_stock_changes.py:36-57 | the scan over any prefix of the file satisfies the invariant |
| Catalogue.ScanLinesSnoc | get_stock_changes.py:36 | scanning one more line is one more scan step |
| Catalogue.RowBeforeHeaderIgnored | get_stock_changes.py:41 | a row before any header changes nothing |
| Catalogue.SeparatorRowIgnored | get_stock_changes.py:41 | a `|--` separator row changes nothing |
| Catalogue.ShortRowIgnored | get_stock_changes.py:43 | a row with fewer than two cells changes nothing |
| Catalogue.DuplicateTickerIgnored | get_stock_changes.py:52 | a row whose ticker the current category already lists changes nothing |
| Catalogue.HeaderOpensCategory | get_stock_changes.py:38-40 | a header makes its name current with no entries, at the end of the order if new, in its old place otherwise |
| Catalogue.RowAppendsEntry | get_stock_changes.py:41-57 | a row under a header whose entry has a ticker new to the current category appends exactly that entry to it and changes nothing else |
| Catalogue.RowAppendsAtMostOne | get_stock_changes.py:41-57 | any other line leaves the order, the current category and the other categories alone, and appends at most one entry with a new ticker to the current one |
| Catalogue.RowKeepsPrefixes | get_stock_changes.py:41-57 | such a line keeps every category's entries as a prefix |
| Catalogue.NonHeaderLinesOnlyAppend | get_stock_changes.py:36-57 | lines without headers only extend categories, so the first row seen for a ticker is the one kept |
| Catalogue.NonEmptyNames | get_stock_changes.py:61 | the kept names are exactly the names with entries, still distinct and in their original relative order |
| Catalogue.DropEmpty | get_stock_changes.py:61 | the filtered dictionary is well formed and keeps exactly the categories with entries, unchanged and in their original relative order |
| Catalogue.DropEmptyWellFormed | get_stock_changes.py:61 | the parsed catalogue has no empty category, no duplicate ticker within a category, and only entries with a ticker and a name |
| Catalogue.ParseCategoriesAndTickers | get_stock_changes.py:26-62 | None exactly when the file is missing; otherwise the loop's result is the fold of the scan over the lines with empty categories dropped, and it is well formed |
| Dashboard.AdjustsToSnoc | get_stock_changes.py:284-286 | one more entry adds exactly its adjusted symbol |
| Dashboard.EntryKeys | get_stock_changes.py:265-269 | every tuple comes from an entry and has a non-empty adjusted symbol, and every entry with a non-empty adjusted symbol contributes its tuple |
| Dashboard.EntryKeysSnoc | get_stock_changes.py:265-269 | one more entry adds its tuple exactly when its adjusted symbol is non-empty |
| Dashboard.CategoryKeys | get_stock_changes.py:264-269 | the tuples of the listed categories are those of their entries |
| Dashboard.CategoryKeysOfCatalogue | get_stock_changes.py:263-269 | over the whole order, a tuple is collected exactly when some entry of some category gives it with a non-empty adjusted symbol |
| Dashboard.CategoryKeysStep | get_stock_changes.py:264-269 | one more category adds the tuples of its entries |
| Dashboard.CollectEntryKeys | get_stock_changes.py:265-269 | the inner loop adds exactly the tuples of the category's entries to the set |
| Dashboard.CollectFetchKeys | get_stock_changes.py:263-269 | the collected set holds exactly the tuples of the catalogue's entries with a non-empty adjusted symbol |
| Dashboard.Record | get_stock_changes.py:271-278 | after visiting tuples, the processed symbols are exactly their adjusted symbols, each holding its own fetch result and the metadata of one of its tuples |
| Dashboard.Failures | get_stock_changes.py:279-280 | the failures are exactly the visited tuples whose fetch reported an error, with that error |
| Dashboard.RecordSnoc | get_stock_changes.py:272-278 | one more tuple overwrites its symbol's record |
| Dashboard.FailuresSnoc | get_stock_changes.py:279-280 | one more tuple appends its failure if it failed |
| Dashboard.FailedTuplesStep | get_stock_changes.py:279-280 | the last tuple joins the failed tuples of the others exactly when its fetch fails |
| Dashboard.FailuresCount | get_stock_changes.py:271-280 | over distinct tuples, the failure list has one element per failed tuple |
| Dashboard.FailuresOfEnumeration | get_stock_changes.py:271-280 | visiting every tuple of the set once lists as many failures as the set has failed tuples |
| Dashboard.FetchAll | get_stock_changes.py:271-280 | every tuple is visited once; the processed symbols are exactly the adjusted symbols of the set, each with its own fetch result; the failures are exactly the failed tuples, one per failed tuple |
| Dashboard.GroupEntries | get_stock_changes.py:284-288 | a category's keys are distinct and are exactly the processed symbols its entries adjust to, each with its processed record |
| Dashboard.GroupByCategory | get_stock_changes.py:283-288 | one result per category in catalogue order, each as GroupEntries states |
| Dashboard.ValidValues | get_stock_changes.py:294-295 | the kept values are exactly the numeric changes, none infinite or absent; empty exactly when there are none |
| Dashboard.ValidValuesCounts | get_stock_changes.py:294-295 | each number is kept as often as it occurs as a numeric change |
| Dashboard.Mean | get_stock_changes.py:297-298 | None exactly for the empty list, otherwise the value whose multiple by the count is the sum |
| Dashboard.MeanWithin | get_stock_changes.py:297-298 | the mean of values in [lo, hi] lies in [lo, hi] |
| Dashboard.MeanBetween | get_stock_changes.py:297-298 | the mean lies between the least and the greatest value |
| Dashboard.CategoryAverage | get_stock_changes.py:294-298 | None exactly when no change is numeric; otherwise the mean of the numeric changes, lying between two of them |
| Dashboard.AverageExample | get_stock_changes.py:294-297 | [5 %, infinite, absent] averages to 5 %; [infinite, absent] has no average |
| Dashboard.RepeatedChangeExample | get_stock_changes.py:294-297 | [5 %, infinite, 5 %, 20 %] averages to 10 %: a repeated change counts twice |
| Dashboard.SummaryOf | get_stock_changes.py:293-305 | the summary carries the category's name; each average is absent exactly when no record of the category has a numeric change, and is otherwise the mean of the numeric changes |
| Dashboard.NoAverageWithoutNumbers | get_stock_changes.py:294-298 | a category has no average exactly when none of its records has a numeric change |
| Dashboard.SummariesSnoc | get_stock_changes.py:293-305 | appending the next category's summary keeps every summary that of its category |
| Dashboard.Summarize | get_stock_changes.py:293-305 | one summary per category, in order, holding its name and its two averages |
| Dashboard.GroupedSymbolsOfCategory | get_stock_changes.py:263-288 | a category's grouped symbols are exactly the non-empty adjusted symbols of its entries, each with its own fetch result |
| Dashboard.RunDashboard | get_stock_changes.py:257-305 | end to end: each category, in order, lists exactly the non-empty adjusted symbols of its entries with their own fetch results and distinct keys, its summary averages them, and the failures are exactly the catalogue tuples whose fetch failed, one per tuple |
| Dashboard.TwoTickerExample | get_stock_changes.py:184-298 | a category of A (110 today, 100 five days ago, nothing a month ago) and B (no prices) averages 10 % over five days and has no one-month average |

## Left out

- Rendering (page set-up, headers, styled and formatted tables, sorting the per-category table rows, the failed-ticker JSON, captions) and `style_negative_red`: presentation only, no effect on the computed values.
- Caching (`st.cache_data` and its time-to-live): the fetcher is a pure function of the symbol, which is what the cache shows the program within its lifetime.
- The network and yfinance: ticker creation, `info` and `history` are inputs (`TickerInit`, `InfoFetch`, `Provider`); what they return is not modelled.
- Clock and calendar: `datetime.now`, `BDay(5)` and `DateOffset(months=1)` are replaced by the three day numbers in `Lookback`, with an exception while computing them as `LookbackRaised`.
- Time zones: the conversion of the history index to naive UTC days; samples carry UTC day numbers already.
- File I/O: the file is given as its lines; a missing file is `None`. The encoding is not modelled.
- The two ticker regular expressions and the company-name clean-up are the `Extractor` parameter, because Dafny has no regular-expression engine.
- Floating point: prices and changes are exact reals. Rounding in the percentage and in `statistics.mean` is not modelled, so the order in which values are averaged does not matter here.
- Error messages: the texts built from the exception type and first argument are tags (`FetchError`) with the exception as an opaque string; `print` and `st.error`/`st.warning` output is not modelled.
- `if not categories: st.stop()`: a missing or empty catalogue stops the page with a warning. The model runs the main logic on a loaded catalogue, and an empty one gives no results.
- Dashboard.FetchAll: which tuple's metadata (raw ticker, name, industry) a symbol reached by several tuples keeps depends on the set's iteration order; the contract ties it to the ghost visiting order `visit` only.
