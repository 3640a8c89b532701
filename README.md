# A-share quote and screening scripts, modelled in Dafny

This project models four scripts under `tests/` of the StockAnal_Sys repository. They use
the akshare library to watch and screen Chinese A-share stocks:

- `tests/stock_tool.py` is a quote resolver. It normalises a ticker (`format_stock_code`) and
  checks the A-share trading clock (`is_trading_time`, `get_next_check_interval`). It then
  looks the code up in the market snapshot (`get_stock_realtime_price`) or asks the
  push2.eastmoney.com endpoint (`build_eastmoney_params`, `parse_eastmoney_data`).
  `get_stock_price` dispatches between the two resolvers with two calls each and a growing
  sleep after every miss. Module `StockTool` (`stock_tool.dfy`).
- `tests/stock_recommend_re.py` is a multi-factor screen. It covers:
  - exchange-prefix correction of a code and cleaning of the financial-indicator table
    (`get_financial_data`)
  - the stock list with its day-long cache and three fallback sources (`get_stock_list`)
  - the kline window (`get_stock_kline`)
  - the selection rule of `analyze_stock`: five fundamental thresholds, close above the
    250-day mean, a MACD golden cross and a volume surge

  Module `StockRecommendRe` (`stock_recommend_re.dfy`).
- `tests/stock_recommend.py` is the class `LowFrequencyQuant`. It covers:
  - column resolution and the bounded retry with `2 ** retries` back-off
    (`get_stock_fundamentals`)
  - the PB/PE screen that keeps the twenty lowest PEs (`stock_screen`)
  - the in-place price band (`generate_price_targets`)
  - `run`

  Module `StockRecommend` (`stock_recommend.dfy`).
- `tests/stock_macd.py` is a 5/20-day moving-average crossover (`calculate_technical`) and
  an all-in/all-out backtest over it (`backtest`). Module `StockMacd` (`stock_macd.dfy`).

Three shared modules support these:
- `Common` (`common.dfy`) holds `Option`, `Result` and Python's `int()` on a float.
- `Text` (`text.dfy`) holds the `str` operations the scripts use: `upper` (ASCII letters),
  `lstrip` with a character set, `strip` (Python's whitespace set), `startswith`, substring
  search, `split('.')[-1]`, character removal and `int()` of a text.
- `Sorting` (`sorting.dfy`) holds an ascending sort by a numeric column, with `head(n)` and
  `tail(n)` facts.

Each script's network call, file, clock and random draw is an input of the model:
- a snapshot or HTTP reply
- a sequence of attempt outcomes
- the weekday/hour/minute/second of `time.localtime()`
- the cache file's age
- the `np.random.normal` draws

Pure pandas/`str` logic is written as functions. The loops that change variables step by step
are methods proved equal to those functions:
- the dispatcher
- the code-correction scan
- the column-resolution scan
- the retry loop
- the source fallback
- the backtest

`generate_price_targets` writes into an `array` in place. `LowFrequencyQuant` is a class
with the fields its constructor sets.

Several properties are proved about the code as written:
- `"00700"` is classified as Shenzhen, because the `'0'` entry of `STOCK_PREFIX_MAP` comes
  before the Hong Kong entry. So `HK` is never produced.
- A suffix such as `"600133.SH"` is kept whole, because `lstrip` only strips the front.
- A seven-digit code gets an exchange prefix and is then rejected.
- A snapshot without the PE column raises inside the `try`, so it is retried. A snapshot
  missing any other column ends the method at once with an empty frame.

## Model

| member | source | states |
|---|---|---|
| Common.Trunc | tests/stock_tool.py:275 | `int()` of a float truncates toward zero: within one of the argument and never past it away from zero |
| Text.Upper | tests/stock_tool.py:169 | `upper()` keeps the length and maps each character to its upper case |
| Text.UpperIdempotent | tests/stock_tool.py:169 | upper-casing twice equals upper-casing once |
| Text.UpperKeepsDigits | tests/stock_tool.py:169 | an all-digit code is unchanged by `upper()` |
| Text.LStrip | tests/stock_tool.py:169 | `lstrip(chars)` returns a suffix; every dropped character is in the set; the result does not start with one |
| Text.LStripStops | tests/stock_tool.py:169 | text not starting with a stripped character is returned unchanged |
| Text.LStripStep | tests/stock_tool.py:169 | a leading stripped character is dropped and stripping continues |
| Text.LStripIdempotent | tests/stock_tool.py:169 | stripping twice equals stripping once |
| Text.UpperKeepsNonLower | tests/stock_tool.py:169 | a text with no lower-case letter is unchanged by `upper()` |
| Text.UpperAppend | tests/stock_tool.py:169 | upper-casing a concatenation upper-cases each part |
| Text.LStripSkips | tests/stock_tool.py:169 | a leading run of stripped characters does not change what `lstrip` leaves |
| Text.ContainsIgnoreCase | tests/stock_tool.py:204 | the empty needle is found in every text; the full characterisation is `ContainsIgnoreCaseOccurs` |
| Text.OccursFromDecides | tests/stock_tool.py:204 | the scan is true exactly when the needle occurs at some position at or after the start |
| Text.ContainsIgnoreCaseOccurs | tests/stock_tool.py:204 | `str.contains(code, case=False)` holds exactly when the upper-cased needle occurs in the upper-cased cell |
| Text.DotEnd | tests/stock_tool.py:238 | the position just past the last '.', or 0 when there is none: no '.' follows it |
| Text.AfterLastDot | tests/stock_tool.py:238 | `split('.')[-1]` is a dot-free suffix, the whole text when there is no dot, and preceded by a dot otherwise |
| Text.Strip | tests/stock_recommend_re.py:167 | `strip()` is no longer than its input and neither starts nor ends with whitespace (Python's `isspace` set, U+3000 included) |
| Text.StripTrims | tests/stock_recommend_re.py:167 | what `strip()` keeps is the window of the text that starts after its leading whitespace, with only whitespace before it and only whitespace after it |
| Text.StripKeepsTrimmed | tests/stock_recommend_re.py:167 | text that neither starts nor ends with whitespace is returned unchanged |
| Text.StripLeft | tests/stock_recommend_re.py:167 | the leading pass is no longer than the text and does not start with whitespace |
| Text.StripLeftDropsSpace | tests/stock_recommend_re.py:167 | the leading pass keeps a suffix of the text, and every character it drops is whitespace |
| Text.StripRight | tests/stock_recommend_re.py:167 | the trailing pass is no longer than the text and does not end with whitespace |
| Text.StripRightDropsSpace | tests/stock_recommend_re.py:167 | the trailing pass keeps a prefix of the text, and every character it drops is whitespace |
| Text.RemoveChars | tests/stock_recommend_re.py:173-174 | removing a character class leaves none of it, adds nothing, and leaves text without any of it unchanged |
| Text.RemoveCharsOne | tests/stock_recommend_re.py:173-174 | a single character is dropped when it is in the class and kept otherwise |
| Text.RemoveCharsAppend | tests/stock_recommend_re.py:173-174 | removal distributes over concatenation, so the other characters stay in order; with `RemoveCharsOne` this fixes the result for every text |
| Text.RemoveCharsTwice | tests/stock_recommend_re.py:173-174 | removing '%'/'％' and then ',' is removing all three at once |
| Text.ParseInt | tests/stock_tool.py:275 | `int()` of a text answers exactly when the stripped text is one or more ASCII digits after an optional sign, and is negative only after a minus; anything else raises (`None`) |
| Text.ShowNat | tests/stock_tool.py:275 | the decimal text of a number is a non-empty run of digits |
| Text.DigitsValueShow | tests/stock_tool.py:275 | the value of the decimal text of a number is that number |
| Text.ParseIntDigits | tests/stock_tool.py:275 | `int()` of a run of ASCII digits is the value of those digits |
| Text.ParseIntNegDigits | tests/stock_tool.py:275 | `int()` of a minus sign followed by ASCII digits is the negated value of those digits |
| Text.ParseIntShow | tests/stock_tool.py:275 | `int()` reads back the decimal text of a number, with or without a minus sign |
| Text.ParseIntRejectsNonDigit | tests/stock_tool.py:275 | a digit run broken by an ASCII character other than a digit or `_`, such as "4.5" or "12a", raises `ValueError` |
| Sorting.Insert | tests/stock_recommend.py:91 | inserting into a sorted sequence keeps it sorted and adds exactly that element |
| Sorting.SortBy | tests/stock_recommend.py:91 | `sort_values(by=key)` yields an ascending permutation of its input |
| Sorting.SortedHead | tests/stock_recommend.py:91 | `head(n)` of a sorted frame is sorted, drawn from it, and no dropped row has a smaller key than a kept one |
| Sorting.SortedTail | tests/stock_recommend_re.py:209 | `tail(n)` of a sorted frame is sorted, drawn from it, and no dropped row has a larger key than a kept one |
| StockTool.FirstPrefixMatch | tests/stock_tool.py:170-172 | the scan of `STOCK_PREFIX_MAP` answers with a market of the table |
| StockTool.FirstPrefixMatchFirst | tests/stock_tool.py:170-172 | the scan answers with the market of the first prefix the code starts with, and with none exactly when no prefix matches |
| StockTool.TableGet | tests/stock_tool.py:176 | `STOCK_PREFIX_MAP.get(prefix)` answers with a market of the table |
| StockTool.TableGetFinds | tests/stock_tool.py:176 | `STOCK_PREFIX_MAP.get(prefix)` answers exactly when the key is in the table, with its market |
| StockTool.StartsWithChar | tests/stock_tool.py:171 | starting with a one-character prefix means the first character equals it |
| StockTool.PrefixTableScan | tests/stock_tool.py:144-152 | the table scan gives Shanghai for 6/5/9, Shenzhen for 0/3, US for "AAPL…", and nothing otherwise; "00700" never reaches its own entry |
| StockTool.FallbackMisses | tests/stock_tool.py:174-176 | a six-character code that passed the scan has a first character that is no key of the table, so the fallback gives the Shanghai default |
| StockTool.ClassifyCode | tests/stock_tool.py:170-177 | the market is Shenzhen for codes starting 0 or 3, US for "AAPL…", Shanghai otherwise, including the 6-character fallback and the default; never HK |
| StockTool.FormatStockCode | tests/stock_tool.py:167-177 | the code is no longer than the ticker, and its market follows the rule of `ClassifyCode` |
| StockTool.FormatStockCodeStrips | tests/stock_tool.py:169 | the code is the upper-cased ticker with a run of leading '.', 'S', 'H', 'Z' removed; it has no lower-case letter and does not start with one of those characters |
| StockTool.FormatStockCodeIdempotent | tests/stock_tool.py:167-177 | normalising a normalised code gives the same code and market |
| StockTool.FormatExampleShanghai | tests/stock_tool.py:300 | "600133" is Shanghai, unchanged |
| StockTool.FormatKeepsPlainCode | tests/stock_tool.py:167-177 | a code with no lower-case letter and no leading '.', 'S', 'H', 'Z' is kept as it is, with the market of the prefix rule |
| StockTool.FormatDropsExchangePrefix | tests/stock_tool.py:169 | "sh" or "sz" in front of such a code is dropped, e.g. "sz000977" becomes "000977" on Shenzhen |
| StockTool.FormatKeepsSuffix | tests/stock_tool.py:169 | a numeric code followed by ".SH", such as "600133.SH", keeps its suffix because only leading characters are stripped, and keeps its market |
| StockTool.FormatExampleHongKongShadowed | tests/stock_tool.py:147-150 | "00700" is Shenzhen: the '0' entry precedes the HK entry |
| StockTool.FormatExampleUs | tests/stock_tool.py:151 | "aapl" becomes "AAPL" on the US market |
| StockTool.IsTradingTime | tests/stock_tool.py:61-85 | trading only on weekdays 0–4 and between 9 and 15 o'clock; the exact windows are `TradingWindows` |
| StockTool.TradingWindows | tests/stock_tool.py:61-85 | on a weekday the market is open exactly from 9:30 to 11:30 and from 13:00 to 15:00, ends included; closed on weekdays 5 and 6 |
| StockTool.NextCheckInterval | tests/stock_tool.py:88-108 | at least 60 s; 300 s in session; before 9:30 the wait to 9:30; from 15:00 the wait to 9:30 the next day; at lunch the wait to 13:00 |
| StockTool.FilterByMarket | tests/stock_tool.py:187-191 | no more rows than the snapshot, and none for the US and HK markets |
| StockTool.FilterByMarketKeeps | tests/stock_tool.py:187-191 | keeps exactly the snapshot rows whose code starts with 6/5/9 (Shanghai) or 0/3 (Shenzhen) |
| StockTool.FilterByMarketSubMultiset | tests/stock_tool.py:187-191 | keeps each row at most as often as the snapshot holds it |
| StockTool.FirstContaining | tests/stock_tool.py:204-206 | `target.iloc[0]` is a row of the frame whose code contains the normalised code, ignoring case |
| StockTool.FirstHitIsFirst | tests/stock_tool.py:204-206 | the one-pass search gives the first row of the market whose code contains the normalised code, none exactly when no row qualifies |
| StockTool.FilterThenSearch | tests/stock_tool.py:201-206 | filtering by market and then taking the first containing row equals the one-pass search |
| StockTool.PrimaryLookup | tests/stock_tool.py:197-210 | every quote of the primary resolver is marked as coming from the primary API |
| StockTool.PrimaryLookupFinds | tests/stock_tool.py:197-210 | the primary resolver answers with the earliest qualifying row, formatted as a quote, and with none exactly when no row qualifies |
| StockTool.SecCode | tests/stock_tool.py:235-241 | the code part of `secid` is the code itself, except for US where it is the dot-free tail after the last '.' |
| StockTool.FirstDot | tests/stock_tool.py:248 | the position of the first '.' of a `secid` |
| StockTool.SecId | tests/stock_tool.py:235-248 | `secid` is `"<market id>.<code part>"`: reading it back recovers the market and the code part |
| StockTool.BuildEastmoneyParams | tests/stock_tool.py:233-250 | the query carries the fixed `ut`, `invt`, `fltt`, the caller's millisecond stamp and a `secid` that decodes to the market and code |
| StockTool.ParseEastmoneyData | tests/stock_tool.py:266-279 | a quote only for `rc == 0` with non-empty data; it carries the code, the market's value and the backup source; the name is the text under `f58`, or the code when absent; the price and change are `f43` and `f170` (0 when absent); the volume is `int()` of `f47`; a well-typed accepted reply always gives a quote |
| StockTool.VolumeOr0 | tests/stock_tool.py:275 | `int(item.get("f47", 0))` is 0 when the field is absent, the number truncated toward zero when it is a number, and `int()` of the text when it is text |
| StockTool.VolumeTextParses | tests/stock_tool.py:275 | volume sent as integer text, such as "50000", is read as that number |
| StockTool.BackupLookup | tests/stock_tool.py:213-230 | a failed request gives no quote; a reply is parsed by `ParseEastmoneyData` for the normalised code and market, so the resolver answers only for an accepted reply, always answers for an accepted reply with readable fields, and carries the normalised code and the backup source |
| StockTool.FirstSome | tests/stock_tool.py:287-289 | a strategy's answer is one of its successful calls, none exactly when every call misses |
| StockTool.Misses | tests/stock_tool.py:287-290 | the number of misses before the first success of a strategy |
| StockTool.Backoff | tests/stock_tool.py:286-290 | the sleeps 0.5·(retry+1) after n misses of one strategy add up to 0.25·n·(n+1) seconds |
| StockTool.Slept | tests/stock_tool.py:286-292 | the seconds slept are never negative, and are the first strategy's back-off when it wins; `GetStockPrice` proves the loop sleeps exactly this |
| StockTool.Winner | tests/stock_tool.py:286-289 | the first strategy that has a success; every earlier one missed throughout |
| StockTool.Dispatched | tests/stock_tool.py:282-292 | the dispatch answers none exactly when every strategy misses, otherwise the first success of some strategy |
| StockTool.GetStockPrice | tests/stock_tool.py:282-292 | the nested retry loop returns the dispatch answer, calls each strategy as `CallsTo` counts, and sleeps 0.5·(retry+1) s after each miss in total |
| StockTool.LookupOutcomes | tests/stock_tool.py:282-285 | two strategies, primary then backup, with two calls each |
| StockTool.TwoStrategies | tests/stock_tool.py:284-289 | over any two primary and two backup answers: a first primary success wins; a backup answer comes only after both primary calls missed; none exactly when all four miss |
| StockTool.DispatchOfLookups | tests/stock_tool.py:282-292 | over the real lookups: a primary answer on the first call wins; a backup answer (with the normalised code) comes only after both primary calls missed; none exactly when all four calls miss |
| StockTool.DispatchTwoByTwo | tests/stock_tool.py:284-289 | with two calls per strategy the answer is the first success in call order |
| StockTool.AllFailSleepsThreeSeconds | tests/stock_tool.py:286-292 | when all four calls miss, nothing is returned after 0.5+1+0.5+1 = 3 s and two calls to each strategy |
| StockTool.PrimarySuccessSkipsBackup | tests/stock_tool.py:284-290 | once the primary succeeds the backup is never called, and at most 0.5 s was slept |
| StockRecommendRe.MatchesCodePattern | tests/stock_recommend_re.py:103 | the code pattern matches sh, sz or bj and six digits, optionally followed by the one final newline `$` accepts |
| StockRecommendRe.ExchangeFor | tests/stock_recommend_re.py:124-132 | an exchange is found exactly when the first character is 0, 3, 4, 6, 8 or 9, and it is sh, sz or bj |
| StockRecommendRe.CorrectedCode | tests/stock_recommend_re.py:123-139 | a surviving code always matches the pattern (sh, sz or bj, then six digits); a matching code is kept; any other survivor is the bare code with its exchange prefix |
| StockRecommendRe.CorrectedCodeAccepts | tests/stock_recommend_re.py:123-139 | a code survives exactly when it already matches, or is six digits starting with 0, 3, 4, 6, 8 or 9 |
| StockRecommendRe.SevenDigitsRejected | tests/stock_recommend_re.py:137-139 | a seven-digit code is prefixed and then rejected by the second check |
| StockRecommendRe.CorrectedCodeIdempotent | tests/stock_recommend_re.py:123-139 | correcting a corrected code changes nothing |
| StockRecommendRe.CorrectStockCode | tests/stock_recommend_re.py:123-139 | the `for … break / else` scan over `prefix_mapping` and the re-check compute `CorrectedCode` |
| StockRecommendRe.CleanValue | tests/stock_recommend_re.py:170-175 | the two passes remove '%', '％' and ',' all at once; the value is NaN exactly when what remains is "--", "-" or "nan", and otherwise it is what remains |
| StockRecommendRe.CleanValueDropsPercent | tests/stock_recommend_re.py:173 | a trailing '%' or '％' is removed and the number kept, e.g. "12.5%" gives "12.5" |
| StockRecommendRe.CleanValueDropsSeparator | tests/stock_recommend_re.py:174 | a thousands separator is removed and both sides joined, e.g. "1,234" gives "1234" |
| StockRecommendRe.CleanValueMissing | tests/stock_recommend_re.py:175 | "--" is NaN, and so is "-%" once its percent sign is gone |
| StockRecommendRe.CleanValueIdempotent | tests/stock_recommend_re.py:170-175 | cleaning a cleaned value changes nothing |
| StockRecommendRe.CleanRows | tests/stock_recommend_re.py:167-178 | every row keeps its place, with its name stripped and its value cleaned |
| StockRecommendRe.GetFinancialData | tests/stock_recommend_re.py:118-186 | a table is returned exactly when the code corrects, the frame is non-empty, both columns exist and all five indicators are present; it is the cleaned rows |
| StockRecommendRe.Rename | tests/stock_recommend_re.py:82 | renaming keeps the rows, and column i gets `col_map.get(label, label)` |
| StockRecommendRe.IndexOf | tests/stock_recommend_re.py:89 | the position of the first occurrence of a present column label |
| StockRecommendRe.ProjectListings | tests/stock_recommend_re.py:89 | selecting `code` and `name` gives one listing per row, holding that row's cells under those labels |
| StockRecommendRe.KeepFirst | tests/stock_recommend_re.py:89 | no more rows are kept than the input has |
| StockRecommendRe.KeepFirstCodes | tests/stock_recommend_re.py:89 | the kept rows cover every code of the input |
| StockRecommendRe.KeepFirstFromInput | tests/stock_recommend_re.py:89 | every kept row comes from the input |
| StockRecommendRe.KeepFirstDistinct | tests/stock_recommend_re.py:89 | the kept rows have distinct codes |
| StockRecommendRe.KeepFirstIsFirstOccurrence | tests/stock_recommend_re.py:89 | every kept row is the earliest row with its code |
| StockRecommendRe.DedupFromSnoc | tests/stock_recommend_re.py:89 | appending a row to the input appends it to the output unless its code was seen |
| StockRecommendRe.DedupKeepsFirst | tests/stock_recommend_re.py:89 | the left-to-right pass of `drop_duplicates('code')` equals keeping the first occurrence of each code |
| StockRecommendRe.DedupByCode | tests/stock_recommend_re.py:89 | `drop_duplicates('code')` keeps no more rows and loses no code |
| StockRecommendRe.FirstUsable | tests/stock_recommend_re.py:75-86 | the first source that returned a non-empty frame with `code` and `name` after renaming; none exactly when no source did |
| StockRecommendRe.FreshList | tests/stock_recommend_re.py:88-89 | a usable source yields a rectangular frame with exactly the columns `code`, `name`, whose rows are the first occurrences of the source's listings, in order |
| StockRecommendRe.FreshListCodes | tests/stock_recommend_re.py:82-89 | the codes of the list built from a source are exactly the codes of the source |
| StockRecommendRe.FreshListDistinct | tests/stock_recommend_re.py:82-89 | no code appears twice in the list built from a source |
| StockRecommendRe.FreshListFirstOccurrences | tests/stock_recommend_re.py:82-89 | each row of the list built from a source is the source's first row with that code |
| StockRecommendRe.GetStockList | tests/stock_recommend_re.py:45-100 | a cache younger than a day with both columns is returned without writing; otherwise the first usable source's deduplicated list is returned and written; `ConnectionError` with nothing written when none is usable |
| StockRecommendRe.KlineWindow | tests/stock_recommend_re.py:201-209 | none exactly below 250 rows; otherwise the last min(n, 500) rows by date, sorted, drawn from the input, no dropped row later than a kept one |
| StockRecommendRe.AnalyzeStock | tests/stock_recommend_re.py:227-290 | a stock is selected exactly when its fundamentals pass all five thresholds, its kline has 250 rows, and the latest row is above the 250-day mean with a golden cross and volume above 1.2× its 5-day mean; the selection carries the code, the stock list's name and the latest row's close, ma250, macd, signal and volume over its 5-day mean |
| StockRecommendRe.FundamentalsShortCircuit | tests/stock_recommend_re.py:247-254 | failing fundamentals reject the stock whatever the kline |
| StockRecommendRe.GoldenCrossIsCrossing | tests/stock_recommend_re.py:270-272 | with a previous row, the golden cross is MACD−signal going from ≤ 0 to > 0 |
| StockRecommend.FirstPresent | tests/stock_recommend.py:41-44 | the first candidate present among the columns; none exactly when no candidate is present |
| StockRecommend.FirstPresentAt | tests/stock_recommend.py:41-44 | the scan stops at the first present candidate |
| StockRecommend.Resolve | tests/stock_recommend.py:39-44 | a key resolves only to a column the snapshot has; `MappingAgrees` ties the candidates to `column_mapping` |
| StockRecommend.MappingAgrees | tests/stock_recommend.py:31-37 | each key of `column_mapping` resolves through its candidate list; only the fifth key is `pe` |
| StockRecommend.Converted | tests/stock_recommend.py:50-57 | the conversion keeps no more rows than the frame has |
| StockRecommend.ConvertedKeeps | tests/stock_recommend.py:50-57 | exactly the rows whose price, pb and pe are numbers and whose code and name are present survive `to_numeric` and `dropna` |
| StockRecommend.Clip | tests/stock_recommend.py:61-64 | `np.clip` lands in the range and keeps values already in it |
| StockRecommend.WithSimulatedFields | tests/stock_recommend.py:59-64 | each row keeps its values, gets dividend yield 0.03 and a PB percentile in [0, 0.3] |
| StockRecommend.AttemptResult | tests/stock_recommend.py:27-65 | a pass fails exactly on a raise or a snapshot lacking only the PE column; a snapshot lacking another column gives the empty frame; a finished pass keeps no more rows than the snapshot |
| StockRecommend.FirstDone | tests/stock_recommend.py:25-71 | an attempt within the limit whose pass finishes |
| StockRecommend.FirstDoneNone | tests/stock_recommend.py:25-71 | no attempt finishes exactly when every attempt within the limit fails |
| StockRecommend.FirstDoneIsFirst | tests/stock_recommend.py:25-71 | every attempt before the finished one fails |
| StockRecommend.Fundamentals | tests/stock_recommend.py:23-71 | every returned row has dividend yield 0.03 and PB percentile in [0, 0.3] |
| StockRecommend.BackoffTotalClosedForm | tests/stock_recommend.py:68-70 | n failures sleep 2 + 4 + … + 2^n = 2^(n+1) − 2 seconds |
| StockRecommend.Qualifying | tests/stock_recommend.py:87-90 | the mask keeps exactly the rows with pb < 2, pe < 30 and PB percentile < 0.3, drawn from the input |
| StockRecommend.StockScreen | tests/stock_recommend.py:84-94 | twenty rows, or all qualifying rows when fewer qualify |
| StockRecommend.StockScreenSelects | tests/stock_recommend.py:84-94 | the screened rows qualify, are drawn from the input, are sorted by PE, and no qualifying row left out has a lower PE than one kept |
| StockRecommend.TargetsFor | tests/stock_recommend.py:76-78 | fair is the price; high is 20% of the price above it and low 20% below (symmetric), so they bracket it for a non-negative price |
| StockRecommend.GeneratePriceTargets | tests/stock_recommend.py:73-82 | writes into every row, in place, its band from its own price and changes nothing else |
| StockRecommend.LowFrequencyQuant.constructor | tests/stock_recommend.py:17-21 | empty pool, "positions.csv", 10 years, 3 retries |
| StockRecommend.LowFrequencyQuant.TryFetch | tests/stock_recommend.py:27-65 | one pass of the `try` block gives `AttemptResult`: raise → retry, missing non-PE column → empty frame, missing PE → retry |
| StockRecommend.LowFrequencyQuant.ResolveColumns | tests/stock_recommend.py:39-48 | the `actual_columns` loop aborts exactly when code, name, price or pb has no column, and otherwise maps each key to its first present candidate, `pe` only when present |
| StockRecommend.LowFrequencyQuant.FirstCandidate | tests/stock_recommend.py:41-44 | the `for … break` scan computes `FirstPresent` |
| StockRecommend.LowFrequencyQuant.GetStockFundamentals | tests/stock_recommend.py:23-71 | the retry loop returns the first finished attempt's frame (empty after three failures), with one fetch per attempt and 2^retries seconds slept after each failure |
| StockRecommend.LowFrequencyQuant.Run | tests/stock_recommend.py:96-113 | stops on empty fundamentals; otherwise the screened rows, each with its price band |
| StockRecommend.AllFailuresSleepFourteenSeconds | tests/stock_recommend.py:25-71 | three failed fetches give an empty frame after 2 + 4 + 8 = 14 s |
| StockRecommend.MissingColumnStopsRetrying | tests/stock_recommend.py:45-48 | a snapshot missing code, name, price or pb ends the method with an empty frame, with no retry |
| StockRecommend.MissingPeRetries | tests/stock_recommend.py:45-56 | a snapshot missing only the PE column fails the pass, so the next fetch decides |
| StockRecommend.FundamentalsFromSnapshot | tests/stock_recommend.py:50-57 | every returned PE is a numeric PE cell of a row of the snapshot that was used |
| StockMacd.RollingMean | tests/stock_macd.py:44-45 | `rolling(window=w).mean()` at a row is the value that, times `w`, gives the sum of the `w` closes ending at that row |
| StockMacd.Signal | tests/stock_macd.py:46 | the signal is always 0 or 1 |
| StockMacd.TechAt | tests/stock_macd.py:43-48 | a kept row has the 5- and 20-day means of the closes ending there, signal 1 exactly when short > long, and position = signal − previous signal, in {−1, 0, 1} |
| StockMacd.Technical | tests/stock_macd.py:43-48 | after `dropna()` the rows from index 19 on remain, with those means, signals and differences; each position is today's signal minus the previous kept row's, and the first kept row's position is its signal, since the row before it had no long mean |
| StockMacd.SignalSteady | tests/stock_macd.py:47 | over a run of zero differences the signal stays the same |
| StockMacd.PositionsAlternate | tests/stock_macd.py:46-48 | consecutive non-zero positions alternate between buy (+1) and sell (−1) |
| StockMacd.FirstPositionIsBuy | tests/stock_macd.py:46-47 | the first non-zero difference after the warm-up is +1 |
| StockMacd.BuyBeforeSignal | tests/stock_macd.py:46-47 | a day with signal 1 is at or after a day with difference +1 |
| StockMacd.SellFollowsBuy | tests/stock_macd.py:46-47 | every -1 difference comes after a +1 difference |
| StockMacd.BuyCost | tests/stock_macd.py:68 | a share with fees costs more than its price |
| StockMacd.Step | tests/stock_macd.py:65-77 | on +1 while flat with cash for one share it buys; on −1 while holding it sells everything; nothing else changes the account; shares never go negative |
| StockMacd.StepBuysLargestLot | tests/stock_macd.py:65-72 | a +1 while flat buys floor(cash / (price·1.001)) shares, the largest lot the cash pays for, and pays exactly their cost |
| StockMacd.StepKeepsCash | tests/stock_macd.py:65-77 | a trade never makes the cash negative |
| StockMacd.StepLosesOnlyFees | tests/stock_macd.py:65-77 | marked to the day's price, a trade loses exactly 0.1% of the traded value |
| StockMacd.AccountAfter | tests/stock_macd.py:50-77 | starting from 1 000 000 in cash, the account never has negative cash or shares |
| StockMacd.Portfolio | tests/stock_macd.py:52-85 | one row per day; row i holds the day's close and signal, the cash and shares of the account after day i's trade, and total = cash + shares × close |
| StockMacd.Trade | tests/stock_macd.py:64-77 | the trade block computes `Step` |
| StockMacd.Backtest | tests/stock_macd.py:49-85 | the loop fills the frame row by row and returns exactly `Portfolio` |
| StockMacd.PortfolioTotalsNonNegative | tests/stock_macd.py:82 | every recorded total is at least the cash, which is non-negative |
| StockMacd.QuietDaysChangeNothing | tests/stock_macd.py:64-77 | a day with position 0 leaves cash and shares unchanged |
| StockMacd.FlatUntilFirstBuy | tests/stock_macd.py:50-77 | until the first +1 the account holds the initial capital and no shares |

## Left out

- Network, files and clocks are inputs, not calls. This covers the `ak.*` calls, the
  push2.eastmoney.com request, `requests`' `Retry` adapter, environment proxies, random user
  agents, `time.time()`, `time.localtime()` and `time.sleep`. Sleeps are summed in ghost
  counters.
- The `TTLCache` around `get_cached_stock_data` and the reassignment of `CACHE_TTL` are not
  modelled. Each primary call may see a different snapshot, which is more general than a
  cached one.
- Logging, the `print`s, the Windows notification and the log-file setup are not modelled.
- The `__main__` polling loop of `tests/stock_tool.py` is not modelled. This includes its
  3-minute pacing and its `result['代码']` access, which fails when the lookup returned
  `None`.
- The thread-pool `main` of `tests/stock_recommend_re.py` is not modelled, and neither are
  the second copies of its functions from line 330 on. `analyze_performance` and the plot of
  `tests/stock_macd.py` are also left out.
- The tenacity `@retry` decorators on `get_stock_list` and `get_financial_data` are not
  modelled; `StockRecommendRe.GetStockList` and `StockRecommendRe.GetFinancialData` model one
  call each.
- Files read or written by the scripts are not modelled:
  - The pickle cache is a `CacheFile` input, and the written frame is returned.
  - `positions.csv` is only a field value.
- Floats are exact reals. Rounding to two decimals in the quotes, float error in the means
  and fees, and NaN/inf are not modelled.
- `StockTool.ParseEastmoneyData`: the name is `None` (a malformed reply) when `f58` holds a
  number; Python would keep the number as the name. `round()` of text under `f43` or `f170`
  raises in Python as in the model.
- `Text.ParseInt`: `int()` of a text accepts surrounding whitespace, a sign and ASCII digits.
  Underscores between digits and non-ASCII digits, which Python also accepts, are not modelled.
- `StockRecommendRe.CleanValue`: the `pd.to_numeric(..., errors='coerce') / 100` step is not
  modelled. A value stays cleaned text, or `None` for NaN.
- `StockRecommendRe.AnalyzeStock`: its inputs are already computed. The indicator means
  (`iloc[:3].mean()` and friends), `calculate_technical_indicators` (the 250-day mean,
  TA-Lib's MACD, the 5-day volume mean) and the name lookup in the stock list are not
  modelled. `volume_ratio` is `None` where the 5-day volume mean is 0; pandas would give
  inf.
- `StockRecommend.Converted`: a text cell counts as non-numeric. `pd.to_numeric` would also
  parse numeric text.
- `Text.Upper` and `Text.IsAsciiDigit` cover ASCII only. Python's `upper()` and `\d` also
  act on other Unicode letters and digits.
- `Text.ContainsIgnoreCase` treats the code as a literal substring. `str.contains` reads it
  as a regular expression, which agrees for the digit and letter codes used here.
- `Sorting.SortBy` is a stable sort. pandas' default `sort_values` is not stable, so rows
  with equal PE or equal date may come out in another order.
- `StockRecommendRe.ListFrame` may repeat a column label, and `Rename` can create a repeat
  (a frame holding both `证券代码` and `code`). `StockRecommendRe.ProjectListings` then reads
  the first column with each label; pandas' `[['code', 'name']]` would keep every such
  column. The other frames hold their columns as a set of labels and cannot repeat one.
- `StockTool.BuildEastmoneyParams`: the fixed `fields` list is not modelled.
- `StockMacd.Backtest` requires every close to be positive. With a zero close, numpy would
  divide by zero.
- `StockMacd.Technical` starts from the close column. Fetching the history and the other
  OHLC columns are not modelled, and the indicator columns are returned instead of added to
  the caller's frame.
- `StockRecommend.GeneratePriceTargets` and `stock_screen` have `except` paths. These cannot
  arise with typed rows and are not modelled.
- `StockTool.GetStockPrice` takes exactly two strategies of two outcomes each, as `get_stock_price`
  has. An outcome is what the strategy returned on that call.
- The files `tests/stock_recommend1.py`, `strategy/get_stock_history.py` and
  `tests/local_test.py` are not part of this model.
