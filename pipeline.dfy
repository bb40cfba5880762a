/** The entry points of the analyser (analyze.py `get_html_data`,
    `get_trade_data`, `analyze_user_file`): decode a statement file, read
    its summary and its positions, and draw the charts; or take the live
    report, and fall back to the file unless the live path failed on the
    wrong account.

    Whether a file exists and what it holds are inputs: `None` for a path
    that does not exist, otherwise its bytes. The text codecs are the
    parameter `decode`, as in the decoder. */
module Pipeline {
  import opened Basics
  import opened Text
  import opened Decoder
  import opened Summary
  import opened Positions
  import opened Aggregate
  import opened Live

  const HtmlSource := "HTML"
  const UploadedSource := "UPLOADED"
  const ErrorSource := "ERROR"
  const WrongAccountMarker := "Wrong account"
  const HtmlEmptyMessage := "history.html appears empty after decoding."
  const FileNotFoundMessage := "File not found"
  const FileEmptyMessage := "File appears empty"

  function HtmlNotFoundMessage(path: string): string
  {
    "history.html not found at: " + path
  }

  /** `int(x or 0)`. */
  function IntOrZero(x: Option<int>): int
  {
    if x.Some? then x.value else 0
  }

  /** `float(x or 0.0)`. */
  function RealOrZero(x: Option<real>): real
  {
    if x.Some? then x.value else 0.0
  }

  /** The records `_parse_positions_rows_for_charts` returns for `html`. */
  ghost function RowsOf(html: string): seq<Row>
  {
    var block := ExtractPositionsBlock(html);
    if block == [] then [] else ParsedRows(Elements(block, "tr", 0))
  }

  /** The counters `_parse_positions_rows_for_charts` returns for `html`. */
  ghost function DebugOf(html: string): PositionsDebug
  {
    var block := ExtractPositionsBlock(html);
    if block == [] then PositionsDebug(false, 0, 0)
    else
      var trs := Elements(block, "tr", 0);
      PositionsDebug(true, SeenCount(trs), |ParsedRows(trs)|)
  }

  /** The report built from decoded, non-blank statement text: the summary
      figures with missing ones read as zero, the charts of its position
      records, no monthly series, no account figures, and the row counters
      when asked for. */
  ghost predicate IsHtmlReport(r: Report, html: string, source: string, withDebug: bool)
  {
    var s := ParseResultsSummary(html);
    && r.Data?
    && r.dataSource == source && r.error == None
    && r.totalTrades == IntOrZero(s.totalTrades)
    && r.totalProfit == Round2(RealOrZero(s.totalProfit))
    && r.wins == IntOrZero(s.wins) && r.losses == IntOrZero(s.losses)
    && r.winrate == RealOrZero(s.winrate)
    && r.monthlyProfit == [] && r.balances == None
    && r.chartDebug == (if withDebug then Some(DebugOf(html)) else None)
    && ChartsOf(Charts(r.equityCurve, r.profitBySymbol, r.profitByHour), RowsOf(html))
  }

  /** The result of reading a statement file: an error when it is missing or
      decodes to blank text, otherwise the report of its text. */
  ghost predicate IsFileReport(r: Report, file: Option<seq<byte>>, decode: (Codec, seq<byte>) -> string,
                               notFound: string, empty: string, source: string, withDebug: bool)
  {
    if file.None? then r == Failed(notFound)
    else
      var html := Decoded(file.value, decode);
      if IsBlank(html) then r == Failed(empty)
      else IsHtmlReport(r, html, source, withDebug)
  }

  /** The part `get_html_data` and `analyze_user_file` share once the text is
      decoded and found non-blank (analyze.py:385-401, 443-459). */
  method ReportFromHtml(html: string, source: string, withDebug: bool) returns (r: Report)
    ensures IsHtmlReport(r, html, source, withDebug)
  {
    var results := ParseResultsSummary(html);
    var rows, posDbg := ParsePositionsRows(html);
    var charts := BuildCharts(rows);
    r := Data(source, None,
              IntOrZero(results.totalTrades), Round2(RealOrZero(results.totalProfit)),
              IntOrZero(results.wins), IntOrZero(results.losses), RealOrZero(results.winrate),
              charts.equityCurve, charts.profitBySymbol, charts.profitByHour, [],
              None, if withDebug then Some(posDbg) else None);
  }

  /** `get_html_data` (analyze.py:374-401) on the file at `path`. */
  method GetHtmlData(path: string, file: Option<seq<byte>>, decode: (Codec, seq<byte>) -> string) returns (r: Report)
    ensures IsFileReport(r, file, decode, HtmlNotFoundMessage(path), HtmlEmptyMessage, HtmlSource, true)
  {
    if file.None? {
      return Failed(HtmlNotFoundMessage(path));
    }
    var html := ReadHtmlRobust(file.value, decode);
    if IsBlank(html) {
      return Failed(HtmlEmptyMessage);
    }
    r := ReportFromHtml(html, HtmlSource, true);
  }

  /** `analyze_user_file` (analyze.py:435-459) on an uploaded file. */
  method AnalyzeUserFile(file: Option<seq<byte>>, decode: (Codec, seq<byte>) -> string) returns (r: Report)
    ensures IsFileReport(r, file, decode, FileNotFoundMessage, FileEmptyMessage, UploadedSource, false)
  {
    if file.None? {
      return Failed(FileNotFoundMessage);
    }
    var html := ReadHtmlRobust(file.value, decode);
    if IsBlank(html) {
      return Failed(FileEmptyMessage);
    }
    r := ReportFromHtml(html, UploadedSource, false);
  }

  /** The result `get_trade_data` gives for a live failure it does not fall
      back from. */
  function ErrorReport(message: string): Report
  {
    Data(ErrorSource, Some(message), 0, 0.0, 0, 0, 0.0, [], [], [], [], None, None)
  }

  /** The live path failed with a message that names the wrong account. */
  predicate BlocksFallback(error: string)
  {
    Contains(error, WrongAccountMarker)
  }

  /** A message without a `W` cannot name the wrong account. */
  lemma NoMarkerWithoutW(s: string)
    requires forall i :: 0 <= i < |s| ==> s[i] != 'W'
    ensures !BlocksFallback(s)
  {
    forall i | 0 <= i <= |s| ensures !OccursAt(s, i, WrongAccountMarker) {
      if i + |WrongAccountMarker| <= |s| {
        assert s[i..i + |WrongAccountMarker|][0] == s[i];
      }
    }
  }

  /** The wrong-account message names the wrong account. */
  lemma WrongAccountBlocks(login: int, target: int)
    ensures BlocksFallback(WrongAccountMessage(login, target))
  {
    var m := WrongAccountMessage(login, target);
    assert m[0..|WrongAccountMarker|] == WrongAccountMarker;
    assert OccursAt(m, 0, WrongAccountMarker);
  }

  /** `get_trade_data` (analyze.py:407-432): the live report when there is
      one; the error result, without reading the file, when the live path
      failed on the wrong account; the statement file otherwise. */
  method GetTradeData(feed: Feed, target: Option<int>, path: string, file: Option<seq<byte>>,
                      decode: (Codec, seq<byte>) -> string) returns (r: Report)
    ensures feed.Connected? && feed.account.Some? && !WrongAccount(feed.account.value, target) ==>
      var a := feed.account.value;
      && (feed.deals.None? || feed.deals.value == [] ==> r == BasicReport(a, true))
      && (feed.deals.Some? && feed.deals.value != [] && Closed(feed.deals.value) == [] ==> r == BasicReport(a, false))
      && (feed.deals.Some? && Closed(feed.deals.value) != [] ==> IsLiveStatistics(r, Closed(feed.deals.value), a))
    ensures feed.Connected? && feed.account.Some? && WrongAccount(feed.account.value, target) ==>
      r == ErrorReport(WrongAccountMessage(feed.account.value.login, target.value))
    ensures feed.NotInstalled? || (feed.Connected? && feed.account.None?) ==>
      IsFileReport(r, file, decode, HtmlNotFoundMessage(path), HtmlEmptyMessage, HtmlSource, true)
    ensures feed.InitFailed? ==>
      var e := "MT5 init failed: " + feed.lastError;
      if BlocksFallback(e) then r == ErrorReport(e)
      else IsFileReport(r, file, decode, HtmlNotFoundMessage(path), HtmlEmptyMessage, HtmlSource, true)
  {
    var data, error := GetLiveData(feed, target);
    NoMarkerWithoutW(NotInstalledMessage);
    NoMarkerWithoutW(NoAccountMessage);
    if feed.Connected? && feed.account.Some? && WrongAccount(feed.account.value, target) {
      WrongAccountBlocks(feed.account.value.login, target.value);
    }
    if data.Some? {
      return data.value;
    }
    if error.Some? && error.value != [] && BlocksFallback(error.value) {
      return ErrorReport(error.value);
    }
    r := GetHtmlData(path, file, decode);
  }
}
