# Trade-report analyser: a verified model

`analyze.py` produces the figures and charts of a trading dashboard. It
tries the live MetaTrader 5 terminal first. From the closing deals of the
logged-in account it computes:

- the totals, wins, losses and win rate;
- an equity curve;
- profit by symbol, by hour and by month.

When the terminal is missing, fails to start or has no account, the
analyser falls back to an exported MT5 HTML statement. It then:

- decodes the bytes, picking UTF-16LE, UTF-16BE or UTF-8 from the
  byte-order mark or, without one, from the share of zero bytes;
- reads the "Results" summary figures that follow their bold captions;
- cuts out the "Positions" block, reads one record per qualifying table
  row (symbol, profit, close time) and draws the same charts from the
  records.

A failure on the wrong account is shown as an error and does not fall back.
An uploaded statement goes through the same file path.

The model has nine modules, one per file:

- `Basics`: optional values, sums and Python's half-to-even `round`.
- `Decoder`: `_read_html_robust`.
- `Text`: `_norm` and `_strip_tags`.
- `Scalars`: `_parse_money`, `_parse_int` and `_parse_dt`, with their
  inverses (rendering a number or a timestamp).
- `Summary`: the caption search and `_parse_results_summary`.
- `Positions`: the block search and the row loop.
- `Aggregate`: the ordering, grouping and equity curve of `_build_charts`.
- `Live`: `get_mt5_live_data` on a given answer of the terminal.
- `Pipeline`: `get_html_data`, `get_trade_data` and `analyze_user_file`.

Code that computes a value is modelled as functions. The loops become
methods, each proved against the function that specifies it: the
codec-choosing assignments, the row loop with its counters, the equity-curve
accumulation and the chart-emission loops. The regular expressions become
search functions. Each search function comes with a lemma saying that the
position it finds is the leftmost match and that "no match" means none
exists; the `re.findall` of table elements comes with a lemma saying that
its list is empty exactly when no element exists, that each item is an
element's content and that the first item is the leftmost element's.

## Model

| member | source | states |
|---|---|---|
| Basics.Round2 | analyze.py:352 | the two-decimal rounding is within half a cent of the exact value |
| Basics.SumAppend | analyze.py:349-351 | a running total over a concatenation is the total of the parts |
| Decoder.NulRatioTest | analyze.py:174-175 | the integer test `20 * zeros > max(1, len)` holds exactly when the real ratio `zeros / max(1, len)` exceeds 0.05 |
| Decoder.StripNul | analyze.py:178 | removing NUL characters keeps every other character, counted with multiplicity, and changes nothing in NUL-free text |
| Decoder.Decoded | analyze.py:158-178 | the decoded text never holds a NUL, and empty input gives empty text |
| Decoder.ReadHtmlRobust | analyze.py:158-178 | the branch-by-branch decoding equals the codec plan (marks in order UTF-16LE, UTF-16BE, UTF-8 with the mark dropped, then the zero-ratio test) and leaves no NUL |
| Decoder.MarkBeatsZeroRatio | analyze.py:165-170 | a UTF-16BE or UTF-8 mark decides the codec whatever the zero bytes after it; a UTF-8 mark is stripped from the payload |
| Decoder.UnmarkedUtf16Detected | analyze.py:171-174 | unmarked ASCII text in UTF-16LE layout (every odd byte zero) is read as UTF-16LE |
| Decoder.NoZerosMeansUtf8 | analyze.py:171-176 | an unmarked buffer without zero bytes is read as UTF-8 |
| Text.Norm | analyze.py:181-186 | the result is normalised: no leading or trailing whitespace, only single plain spaces inside, no non-breaking space |
| Text.NormKeepsText | analyze.py:181-186 | normalising keeps the sequence of non-whitespace characters exactly |
| Text.NormKeepsChar | analyze.py:181-186 | a non-whitespace character occurs in the result exactly when it occurs in the input |
| Text.NormIdempotent | analyze.py:181-186 | normalising twice is normalising once |
| Text.NormalIsFixed | analyze.py:181-186 | text that is already normal is left unchanged |
| Text.TrimLeftSuffix | analyze.py:185 | stripping the front leaves a suffix, and everything removed is whitespace |
| Text.TrimRightPrefix | analyze.py:185 | stripping the end leaves a prefix, and everything removed is whitespace |
| Text.Collapse | analyze.py:184 | every whitespace run becomes one plain space; the result is empty exactly when the input is |
| Text.RemoveTagsSpec | analyze.py:272 | removing `<…>` tags adds no character, leaves text without `<` unchanged, and leaves no complete tag behind |
| Text.RemoveTagsStarts | analyze.py:272 | text not starting with `<` keeps its first character |
| Text.StripTags | analyze.py:271-273 | the result is normalised, and on text without `<` it is the normalised input |
| Scalars.ParseInt | analyze.py:200-211 | the result is the first `-?\d+` of the cleaned text, and it is absent exactly when the input has no digit |
| Scalars.ParseIntRendered | analyze.py:200-211 | every integer, written in decimal, is read back as itself |
| Scalars.ParseMoney | analyze.py:189-197 | the result is `float()` of the text with whitespace, spaces and commas removed; a value is found only when there is a digit |
| Scalars.ParseMoneyRendered | analyze.py:189-197 | every amount in cents, written with two decimals, is read back exactly |
| Scalars.CentsClean | analyze.py:193 | a rendered amount has nothing to clean |
| Scalars.FloatNeedsDigit | analyze.py:194-197 | `float()` accepts no text without a digit |
| Scalars.ParseDt | analyze.py:261-268 | any timestamp accepted is a valid calendar date and time of day |
| Scalars.ParseDtRendered | analyze.py:261-268 | every valid date and time, written as `YYYY.MM.DD HH:MM:SS`, is read back as itself |
| Scalars.FormatDt | analyze.py:258 | a rendered timestamp has the statement's timestamp shape |
| Summary.FindCaptionSpec | analyze.py:215-216 | the caption search returns the first caption from its start, and "none" means there is none |
| Summary.CaptionedMeansMatch | analyze.py:215-216 | a caption position matches the label pattern exactly when some bold value follows it, and the value found is the nearest one |
| Summary.ExtractBAfterLabel | analyze.py:214-219 | a value read after a label is normalised and holds no `<` |
| Summary.ExtractNoneIffNoMatch | analyze.py:214-219 | no value is read exactly when the label pattern matches nowhere |
| Summary.ExtractIsLeftmost | analyze.py:214-219 | the value read is the normalised bold text of the leftmost match, with the lazy `.*?` taking the nearest bold cell |
| Summary.LabelledValueRead | analyze.py:214-219 | in `label</td><b>v</b>` the value read is `v` normalised |
| Summary.FindPct | analyze.py:228 | the percentage search returns the first `(…%)` group, and "none" means there is none |
| Summary.Percent | analyze.py:227-233 | a percentage is read exactly when some `(number%)` group matches, and it is the number the leftmost group denotes |
| Summary.PctGroupParses | analyze.py:228-231 | `float()` accepts every group the pattern admits and reads it as its sign applied to the whole digits plus the decimal digits over ten to their count |
| Summary.PercentOfCountCell | analyze.py:227-231 | the count cell `7 (70.00%)` carries the percentage 70.0 |
| Summary.ExtractCountPctAfterLabel | analyze.py:222-234 | with no value there is neither count nor percentage; otherwise the count is the value's first integer and the percentage its `(…%)` group |
| Summary.IntOf | analyze.py:239 | a count is `_parse_int` of the value when there is one, so it is read exactly when there is a value holding a digit |
| Summary.WinRate | analyze.py:243-247 | a captured percentage gives percentage / 100; otherwise the rate is present exactly when both counts are and their sum is positive, and then it is wins / (wins + losses) |
| Summary.WinRateBounded | analyze.py:246-247 | the rate computed from counts lies between 0 and 1 |
| Summary.WinRateSevenOfTen | analyze.py:246-247 | 7 wins and 3 losses give a rate of 0.7 |
| Summary.ParseResultsSummary | analyze.py:237-255 | each figure is read after its own caption: the total profit is `_parse_money` of the value after "Total Net Profit:", the total trades `_parse_int` of the value after "Total Trades:", wins and losses the counts after the profit and loss captions, and the win rate follows the rule above |
| Summary.TotalProfitRead | analyze.py:238 | an amount in cents printed in bold after the "Total Net Profit:" caption is read back exactly as the total profit |
| Summary.TotalTradesRead | analyze.py:239 | an integer printed in bold after the "Total Trades:" caption is read back as the total trades |
| Summary.NoProfitLabelNoWinRate | analyze.py:240-247 | without a "Profit Trades" caption there are neither wins nor a win rate |
| Positions.FindHeadingSpec | analyze.py:276-287 | the heading search returns the first `<b> word </b>` heading from its start, and "none" means there is none |
| Positions.HeadingsDiffer | analyze.py:276-287 | no position holds both a Positions and a Results heading |
| Positions.PositionsBlockFound | analyze.py:276-287 | the block is empty exactly when there is no Positions heading |
| Positions.PositionsBlockBounds | analyze.py:280-287 | the block is the slice of the text starting at the first Positions heading, and it runs to the end of the text or stops at a Results heading |
| Positions.PositionsBlockEndsBeforeResults | analyze.py:283-286 | the block holds no Results heading |
| Positions.OpenTagEnd | analyze.py:295 | an opening tag ends at the first `>` after its name |
| Positions.ElementAt | analyze.py:295-311 | an element's content ends at the first matching closing tag |
| Positions.ElementsSpec | analyze.py:295 | the list of elements is empty exactly when no element opens at or after the start; each item is the content of an element opening at or after the start, and the first item is the leftmost element's content |
| Positions.DtTokens | analyze.py:305-307 | every timestamp token found has the timestamp shape, and none is found exactly when the text has no timestamp |
| Positions.Classify | analyze.py:302-327 | a row counts as seen exactly when it has a `colspan="2"` cell (either quote), a timestamp and at least six cells; a parsed record has a non-empty normalised symbol and a valid close time |
| Positions.ReadRow | analyze.py:302-327 | the checks on one row, in source order, agree with the row's classification |
| Positions.CountStep | analyze.py:313-327 | one more row adds one to the seen count when it qualifies and appends its record when it parses |
| Positions.ParsedWithinSeen | analyze.py:313-326 | the parsed count never exceeds the seen count, and that never exceeds the number of rows |
| Positions.ParsedRowsSound | analyze.py:326-327 | every record comes from a qualifying row of the block that parses to it |
| Positions.ParsePositionsRows | analyze.py:290-334 | without a block, no records and the not-found counters; otherwise the records and counters of the block's rows; always parsed = records ≤ seen, and every record has a symbol |
| Aggregate.SortByTimeSpec | analyze.py:343-344 | ordering by close time gives a sorted permutation of the records, with untimed records last |
| Aggregate.SumSortByTime | analyze.py:343-352 | reordering keeps the total profit |
| Aggregate.EquityCurve | analyze.py:348-352 | point `i` is at `x = i` and holds the rounded running total of the first `i` profits |
| Aggregate.EquityEndsAtTotal | analyze.py:348-352 | the curve's last running total is the total profit of all records |
| Aggregate.Distinct | analyze.py:355 | the distinct symbols are the symbols present, each once |
| Aggregate.SortDescSpec | analyze.py:355 | the symbol totals come out in non-increasing order, as a permutation of the groups |
| Aggregate.SortDescDistinct | analyze.py:355 | sorting keeps symbols distinct |
| Aggregate.InsertKey | analyze.py:364 | inserting an hour keeps the keys strictly increasing and adds exactly that key |
| Aggregate.Ascending | analyze.py:364 | the sorted index is strictly increasing and holds exactly the given keys |
| Aggregate.HoursMembers | analyze.py:361-364 | an hour is listed exactly when some timed record closes in it |
| Aggregate.SymbolTotalSort | analyze.py:343-355 | a symbol's total does not depend on the record order |
| Aggregate.HourTotalSort | analyze.py:343-364 | an hour's total does not depend on the record order |
| Aggregate.ProfitBySymbolSpec | analyze.py:354-357 | profit by symbol is in non-increasing order, lists each symbol present exactly once, and gives each the total of its records |
| Aggregate.ProfitByHourSpec | analyze.py:359-366 | profit by hour is in increasing hour order, lists exactly the hours that have timed records, and gives each the total of its records |
| Aggregate.HoursInDay | analyze.py:363 | with valid close times every hour key lies in 0..23 |
| Aggregate.NoTimeNoHours | analyze.py:359-360 | without any close time there is no hour entry |
| Aggregate.RoundSymbolProfits | analyze.py:356-357 | each symbol entry is emitted with its total rounded to cents |
| Aggregate.RoundHourProfits | analyze.py:365-366 | each hour entry is emitted with its total rounded to cents |
| Aggregate.BuildCharts | analyze.py:337-372 | no records give three empty charts; otherwise the curve, symbol and hour charts are those above, taken from the time-ordered frame |
| Live.Closed | analyze.py:77 | every deal kept is an exit deal |
| Live.ClosedKeepsExits | analyze.py:77 | the exit deals are kept with their multiplicities, and nothing else is kept |
| Live.ByTimeSpec | analyze.py:97 | the deals are ordered by time as a permutation |
| Live.FrameIsClosedDeals | analyze.py:77-97 | the statistics frame is a time-sorted permutation of exactly the exit deals |
| Live.CountsPartition | analyze.py:99-101 | wins, losses and flat deals add up to the number of deals |
| Live.AllWins | analyze.py:100 | every deal is a win exactly when every profit is positive |
| Live.LiveWinRate | analyze.py:103 | the rate lies between 0 and 1, and it is 1 exactly when there are deals and all are wins |
| Live.HourOf | analyze.py:120 | the hour of a deal's time lies in 0..23 |
| Live.KeyTotalsSpec | analyze.py:120-130 | hour and month buckets are in increasing key order, hold exactly the keys present, and each holds the total of its deals |
| Live.HourBucketsInDay | analyze.py:120-123 | every hour bucket lies in 0..23 |
| Live.SymbolGroupsSpec | analyze.py:113-116 | profit by symbol is non-increasing, one entry per symbol present, each the total of its deals |
| Live.RoundHourBuckets | analyze.py:122-123 | each hour bucket is emitted rounded to cents |
| Live.RoundMonthBuckets | analyze.py:129-130 | each month bucket is emitted rounded to cents |
| Live.LiveStatistics | analyze.py:96-147 | the report holds the deal count, wins, losses, total profit rounded to cents, the win rate to four places, the equity curve, the three groupings and the account figures with margins |
| Live.GetLiveData | analyze.py:29-150 | exactly one of report and error: the four failure messages in source order; a basic report with margins for an empty history, without margins when no deal is an exit; otherwise the statistics of the exit deals |
| Pipeline.ReportFromHtml | analyze.py:385-401 | the report holds the summary figures with missing ones read as zero, the charts of the block's records, no monthly series, and the row counters only when requested |
| Pipeline.GetHtmlData | analyze.py:375-401 | a missing file or blank decoded text gives its error; otherwise the statement's report, with the row counters |
| Pipeline.AnalyzeUserFile | analyze.py:435-459 | the same as the statement path, with the upload's messages and source and without row counters |
| Pipeline.NoMarkerWithoutW | analyze.py:416 | a message without a `W` does not name the wrong account, so the not-installed and no-account messages fall back |
| Pipeline.WrongAccountBlocks | analyze.py:416 | the wrong-account message built at analyze.py:45 always contains the marker, so it blocks the fallback |
| Pipeline.GetTradeData | analyze.py:407-433 | the live report when there is one; the error result, without reading the file, on the wrong account; the statement file when the package is missing or there is no account; after a failed start, the file unless the terminal's message names the wrong account; from the terminal's answer, a basic report with margins for an empty history, without margins when no deal is an exit, and otherwise the statistics of the exit deals |

## Left out

- File access (`open`, `os.path.exists`) is an input: a file is `None` when the path does not exist, otherwise its bytes. Read errors are not modelled.
- The text codecs are the parameter `decode`. The model fixes which codec is used on which bytes, not how the bytes are decoded; `errors="ignore"` belongs to `decode`.
- The MetaTrader 5 terminal is the `Feed` datatype: not installed, a failed start with its `last_error()` text, or the answers of `account_info()` and `history_deals_get()`. The clock that bounds the history query is not modelled.
- The `except Exception` path of `get_mt5_live_data` (analyze.py:149-150) is not modelled: no step of the model raises.
- Floating point: amounts are exact `real`s, and `round` is exact half-to-even on them. The binary rounding of IEEE doubles is not reproduced. `float()` is modelled on decimal and exponent notation; `inf`, `nan` and digit-group underscores are not accepted.
- `\d`, `\w` and `\b` are ASCII-only in the model. Python's Unicode digits and word characters are not modelled.
- IGNORECASE compares with ASCII case folding, plus the few non-ASCII letters that fold onto ASCII letters. It is exact only because every pattern here is ASCII.
- `strptime`: the model accepts exactly the statement's fixed shape `YYYY.MM.DD HH:MM:SS` with a valid date. Python's looser single-digit fields are not modelled.
- Deal times: the conversion of an epoch second to a calendar month is not modelled; a deal carries its month as a field. The hour is `time / 3600 mod 24`. The month series uses `12 * year + month - 1` as its key, not the `Period` text.
- Live.ByTime: pandas `sort_values` is not stable, so the order among equal times is not claimed. The same holds for equal close times (Aggregate.SortByTimeSpec) and equal symbol totals (Aggregate.SortDescSpec). Only sortedness and being a permutation are stated.
- The `print` before the fallback (analyze.py:432) is output only and is not modelled.
- `TARGET_ACCOUNT` is an `Option<int>` parameter; reading it from `config.py` is not modelled.
- Pipeline.ErrorReport: the source writes the error result's `total_profit` and `winrate` as the integer `0`; the model stores `0.0`.

