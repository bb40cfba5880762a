/** The live path of the analyser (analyze.py `get_mt5_live_data`), from the
    moment the MetaTrader 5 terminal has answered: whether the package and
    the terminal are there, the account record and the deal history are
    inputs, and the model is what the function makes of them.

    The statistics block filters the deals that close a position, sorts them
    by time and derives the counts, the equity curve and the profit per
    symbol, per hour of the day and per calendar month. */
module Live {
  import opened Basics
  import opened Scalars
  import opened Positions
  import opened Aggregate

  /** One record of `history_deals_get`. `entry` 1 marks a deal that closes
      a position; `time` is in seconds since the epoch; `month` is the
      calendar month of `time` as `12 * year + month - 1`, taken as given
      (the calendar conversion is not part of this model). */
  datatype Deal = Deal(entry: int, symbol: string, profit: real, time: int, month: int)

  /** The fields of `account_info()` the analyser reads. */
  datatype Account = Account(login: int, profit: real, balance: real, equity: real, margin: real, marginFree: real)

  /** What the terminal answered: the package is missing, `initialize()`
      failed with `last_error()`, or it is connected and `account_info()` and
      `history_deals_get(...)` returned these (None standing for Python's
      None). */
  datatype Feed =
    | NotInstalled
    | InitFailed(lastError: string)
    | Connected(account: Option<Account>, deals: Option<seq<Deal>>)

  datatype Margins = Margins(margin: real, freeMargin: real)

  /** The account figures a live report carries; the margins only in some. */
  datatype Balances = Balances(balance: real, equity: real, margins: Option<Margins>)

  /** One entry of `monthly_profit`, the month as `12 * year + month - 1`. */
  datatype MonthProfit = MonthProfit(month: int, profit: real)

  /** The dictionaries analyze.py returns: `Failed` is the one holding only
      an `error` key, `Data` every other one; `balances` is present on the
      live path and `chartDebug` on the history-file path. */
  datatype Report =
    | Failed(message: string)
    | Data(dataSource: string, error: Option<string>, totalTrades: int, totalProfit: real,
           wins: int, losses: int, winrate: real,
           equityCurve: seq<Point>, profitBySymbol: seq<SymbolProfit>, profitByHour: seq<HourProfit>,
           monthlyProfit: seq<MonthProfit>, balances: Option<Balances>, chartDebug: Option<PositionsDebug>)

  const LiveSource := "MT5_LIVE"
  const NotInstalledMessage := "MetaTrader5 package not installed"
  const NoAccountMessage := "Could not get account info"

  /** `TARGET_ACCOUNT and account.login != TARGET_ACCOUNT`: a configured,
      non-zero target that is not the logged-in account. */
  predicate WrongAccount(a: Account, target: Option<int>)
  {
    target.Some? && target.value != 0 && a.login != target.value
  }

  function WrongAccountMessage(login: int, target: int): string
  {
    "Wrong account (" + IntToString(login) + "), need " + IntToString(target)
  }

  // ---------------------------------------------------------------------
  // Closing deals
  // ---------------------------------------------------------------------

  /** `df[df['entry'] == 1]`, in the given order. */
  function Closed(deals: seq<Deal>): (r: seq<Deal>)
    ensures |r| <= |deals|
    ensures forall i :: 0 <= i < |r| ==> r[i].entry == 1
  {
    if deals == [] then []
    else
      var last := deals[|deals| - 1];
      Closed(deals[..|deals| - 1]) + (if last.entry == 1 then [last] else [])
  }

  /** The filter keeps every closing deal as often as it occurs, and nothing
      else. */
  lemma {:induction false} ClosedKeepsExits(deals: seq<Deal>)
    ensures forall d :: multiset(Closed(deals))[d] == if d.entry == 1 then multiset(deals)[d] else 0
    decreases |deals|
  {
    if deals != [] {
      var init := deals[..|deals| - 1];
      var last := deals[|deals| - 1];
      ClosedKeepsExits(init);
      assert deals == init + [last];
    }
  }

  // ---------------------------------------------------------------------
  // Sorting by time
  // ---------------------------------------------------------------------

  predicate SortedByDealTime(ds: seq<Deal>)
  {
    forall i, j :: 0 <= i < j < |ds| ==> ds[i].time <= ds[j].time
  }

  /** `x` put into `ds` before the first deal that is not earlier. */
  function InsertDeal(x: Deal, ds: seq<Deal>): (r: seq<Deal>)
    ensures |r| == |ds| + 1
    decreases |ds|
  {
    if ds == [] then [x]
    else if x.time <= ds[0].time then [x] + ds
    else [ds[0]] + InsertDeal(x, ds[1..])
  }

  lemma {:induction false} InsertDealAdds(x: Deal, ds: seq<Deal>)
    ensures multiset(InsertDeal(x, ds)) == multiset(ds) + multiset{x}
    decreases |ds|
  {
    if ds != [] && ds[0].time < x.time {
      InsertDealAdds(x, ds[1..]);
      assert ds == [ds[0]] + ds[1..];
    }
  }

  lemma {:induction false} InsertDealSorted(x: Deal, ds: seq<Deal>)
    requires SortedByDealTime(ds)
    ensures SortedByDealTime(InsertDeal(x, ds))
    decreases |ds|
  {
    if ds != [] && ds[0].time < x.time {
      InsertDealSorted(x, ds[1..]);
      InsertDealBound(ds[0].time, x, ds[1..]);
      ConsSorted(ds[0], InsertDeal(x, ds[1..]));
    }
  }

  /** A time no later than `x` and every deal of `ds` is no later than any
      deal once `x` is inserted. */
  lemma {:induction false} InsertDealBound(v: int, x: Deal, ds: seq<Deal>)
    requires v <= x.time
    requires forall j :: 0 <= j < |ds| ==> v <= ds[j].time
    ensures forall j :: 0 <= j < |InsertDeal(x, ds)| ==> v <= InsertDeal(x, ds)[j].time
    decreases |ds|
  {
    var r := InsertDeal(x, ds);
    if ds == [] {
    } else if x.time <= ds[0].time {
      forall j | 0 < j < |r| ensures v <= r[j].time {
        assert r[j] == ds[j - 1];
      }
    } else {
      InsertDealBound(v, x, ds[1..]);
      var t := InsertDeal(x, ds[1..]);
      forall j | 0 < j < |r| ensures v <= r[j].time {
        assert r[j] == t[j - 1];
      }
    }
  }

  /** A deal no later than any of a sorted sequence can go in front. */
  lemma ConsSorted(y: Deal, t: seq<Deal>)
    requires SortedByDealTime(t)
    requires forall j :: 0 <= j < |t| ==> y.time <= t[j].time
    ensures SortedByDealTime([y] + t)
  {
    var r := [y] + t;
    forall i, j | 0 <= i < j < |r| ensures r[i].time <= r[j].time {
      assert r[j] == t[j - 1];
      if i > 0 {
        assert r[i] == t[i - 1];
      }
    }
  }

  /** `closed_deals.sort_values('time_dt')`. */
  function ByTime(ds: seq<Deal>): (r: seq<Deal>)
    ensures |r| == |ds|
  {
    if ds == [] then [] else InsertDeal(ds[|ds| - 1], ByTime(ds[..|ds| - 1]))
  }

  /** The sort puts the deals in time order and is a permutation; no order
      among deals of the same second is promised. */
  lemma {:induction false} ByTimeSpec(ds: seq<Deal>)
    ensures SortedByDealTime(ByTime(ds))
    ensures multiset(ByTime(ds)) == multiset(ds)
    decreases |ds|
  {
    if ds != [] {
      var init := ds[..|ds| - 1];
      ByTimeSpec(init);
      InsertDealSorted(ds[|ds| - 1], ByTime(init));
      InsertDealAdds(ds[|ds| - 1], ByTime(init));
      assert ds == init + [ds[|ds| - 1]];
    }
  }

  /** The frame the statistics are read from holds exactly the closing deals
      of the history, each as often as it occurs there. */
  lemma FrameIsClosedDeals(deals: seq<Deal>)
    ensures var df := ByTime(Closed(deals));
      && SortedByDealTime(df)
      && (forall i :: 0 <= i < |df| ==> df[i].entry == 1)
      && (forall d :: multiset(df)[d] == if d.entry == 1 then multiset(deals)[d] else 0)
  {
    var df := ByTime(Closed(deals));
    ByTimeSpec(Closed(deals));
    ClosedKeepsExits(deals);
    forall i | 0 <= i < |df| ensures df[i].entry == 1 {
      assert df[i] in multiset(Closed(deals));
    }
  }

  // ---------------------------------------------------------------------
  // Counts
  // ---------------------------------------------------------------------

  /** `len(df[df['profit'] > 0])`. */
  function Wins(ds: seq<Deal>): nat
  {
    if ds == [] then 0
    else Wins(ds[..|ds| - 1]) + (if ds[|ds| - 1].profit > 0.0 then 1 else 0)
  }

  /** `len(df[df['profit'] < 0])`. */
  function Losses(ds: seq<Deal>): nat
  {
    if ds == [] then 0
    else Losses(ds[..|ds| - 1]) + (if ds[|ds| - 1].profit < 0.0 then 1 else 0)
  }

  /** Deals that neither won nor lost. */
  function Flat(ds: seq<Deal>): nat
  {
    if ds == [] then 0
    else Flat(ds[..|ds| - 1]) + (if ds[|ds| - 1].profit == 0.0 then 1 else 0)
  }

  /** Every deal is a win, a loss or flat, and none is two of these: the
      three counts add up to the number of deals. */
  lemma {:induction false} CountsPartition(ds: seq<Deal>)
    ensures Wins(ds) + Losses(ds) + Flat(ds) == |ds|
    decreases |ds|
  {
    if ds != [] {
      CountsPartition(ds[..|ds| - 1]);
    }
  }

  /** A deal counts as a win exactly when it made money: every deal is a
      win exactly when the count is the whole frame. */
  lemma {:induction false} AllWins(ds: seq<Deal>)
    ensures Wins(ds) == |ds| <==> forall i :: 0 <= i < |ds| ==> ds[i].profit > 0.0
    decreases |ds|
  {
    if ds != [] {
      var init := ds[..|ds| - 1];
      AllWins(init);
      CountsPartition(init);
      if forall i :: 0 <= i < |init| ==> init[i].profit > 0.0 {
        if ds[|ds| - 1].profit > 0.0 {
          forall i | 0 <= i < |ds| ensures ds[i].profit > 0.0 {
            if i < |init| {
              assert ds[i] == init[i];
            }
          }
        }
      } else {
        var i :| 0 <= i < |init| && init[i].profit <= 0.0;
        assert ds[i] == init[i];
      }
    }
  }

  /** `wins / total_trades if total_trades > 0 else 0.0`, before rounding. */
  function LiveWinRate(wins: nat, total: nat): (r: real)
    requires wins <= total
    ensures 0.0 <= r <= 1.0
    ensures r == 1.0 <==> total > 0 && wins == total
  {
    if total > 0 then
      ShareBounds(wins as real, total as real);
      wins as real / total as real
    else 0.0
  }

  // ---------------------------------------------------------------------
  // Grouping
  // ---------------------------------------------------------------------

  /** `time_dt.dt.hour` for a time in seconds since the epoch, on the UTC
      clock `pd.to_datetime(unit='s')` uses. */
  function HourOf(time: int): (h: int)
    ensures 0 <= h < 24
  {
    (time / 3600) % 24
  }

  /** The two integer keys the live path groups by. */
  datatype Key = ByHour | ByMonth

  function KeyOf(d: Deal, k: Key): int
  {
    match k
    case ByHour => HourOf(d.time)
    case ByMonth => d.month
  }

  /** The key column, `df['hour']` or `df['month']`. */
  function KeysOf(ds: seq<Deal>, k: Key): (r: seq<int>)
    ensures |r| == |ds|
  {
    seq(|ds|, i requires 0 <= i < |ds| => KeyOf(ds[i], k))
  }

  /** The profit of the deals whose key is `v`, summed. */
  function KeyTotal(ds: seq<Deal>, k: Key, v: int): real
  {
    if ds == [] then 0.0
    else KeyTotal(ds[..|ds| - 1], k, v) + (if KeyOf(ds[|ds| - 1], k) == v then ds[|ds| - 1].profit else 0.0)
  }

  /** One group of `groupby(key)['profit'].sum()`. */
  datatype Bucket = Bucket(key: int, profit: real)

  /** `df.groupby(key)['profit'].sum()`: pandas sorts the group keys. */
  function KeyTotals(ds: seq<Deal>, k: Key): seq<Bucket>
  {
    var ks := Ascending(KeysOf(ds, k));
    seq(|ks|, i requires 0 <= i < |ks| => Bucket(ks[i], KeyTotal(ds, k, ks[i])))
  }

  /** Some deal has key `v`. */
  predicate HasKey(ds: seq<Deal>, k: Key, v: int)
  {
    exists i :: 0 <= i < |ds| && KeyOf(ds[i], k) == v
  }

  /** Some group has key `v`. */
  predicate HasBucket(g: seq<Bucket>, v: int)
  {
    exists i :: 0 <= i < |g| && g[i].key == v
  }

  /** The groups come in increasing key order, one per key that occurs,
      each with the sum of its deals' profits. */
  lemma KeyTotalsSpec(ds: seq<Deal>, k: Key)
    ensures var g := KeyTotals(ds, k);
      && (forall i, j :: 0 <= i < j < |g| ==> g[i].key < g[j].key)
      && (forall i :: 0 <= i < |g| ==> g[i].profit == KeyTotal(ds, k, g[i].key) && HasKey(ds, k, g[i].key))
      && (forall v :: HasKey(ds, k, v) <==> HasBucket(g, v))
  {
    var ks := Ascending(KeysOf(ds, k));
    var g := KeyTotals(ds, k);
    forall j | 0 <= j < |g| ensures HasKey(ds, k, g[j].key) {
      assert ks[j] in KeysOf(ds, k);
    }
    forall v | HasKey(ds, k, v) ensures HasBucket(g, v) {
      var i :| 0 <= i < |ds| && KeyOf(ds[i], k) == v;
      assert KeysOf(ds, k)[i] == v;
      assert v in ks;
      var j :| 0 <= j < |ks| && ks[j] == v;
      assert g[j].key == v;
    }
  }

  /** Every hour group is an hour of the day. */
  lemma HourBucketsInDay(ds: seq<Deal>)
    ensures var g := KeyTotals(ds, ByHour);
      forall i :: 0 <= i < |g| ==> 0 <= g[i].key < 24
  {
    KeyTotalsSpec(ds, ByHour);
    var g := KeyTotals(ds, ByHour);
    forall i | 0 <= i < |g| ensures 0 <= g[i].key < 24 {
      assert HasKey(ds, ByHour, g[i].key);
      var j :| 0 <= j < |ds| && KeyOf(ds[j], ByHour) == g[i].key;
    }
  }

  /** The deals as the record type the chart grouping works on; the time is
      not needed for grouping by symbol. */
  function AsRows(ds: seq<Deal>): (r: seq<Row>)
    ensures |r| == |ds|
  {
    seq(|ds|, i requires 0 <= i < |ds| => Row(ds[i].symbol, ds[i].profit, None))
  }

  /** `df.groupby('symbol')['profit'].sum().sort_values(ascending=False)`. */
  function SymbolGroups(ds: seq<Deal>): seq<SymbolProfit>
  {
    SortDesc(SymbolTotals(AsRows(ds)))
  }

  /** One group per symbol of the deals, with that symbol's profit, from the
      largest to the smallest. */
  lemma SymbolGroupsSpec(ds: seq<Deal>)
    ensures var g := SymbolGroups(ds);
      && NonIncreasing(g)
      && GroupsBySymbol(g, AsRows(ds))
      && (forall sym :: HasSymbol(AsRows(ds), sym) <==> exists i :: 0 <= i < |ds| && ds[i].symbol == sym)
  {
    var rows := AsRows(ds);
    assert !AnyTime(rows);
    ProfitBySymbolSpec(rows);
    forall sym | exists i :: 0 <= i < |ds| && ds[i].symbol == sym
      ensures HasSymbol(rows, sym)
    {
      var i :| 0 <= i < |ds| && ds[i].symbol == sym;
      assert rows[i].symbol == sym;
    }
  }

  // ---------------------------------------------------------------------
  // The report
  // ---------------------------------------------------------------------

  /** The report for an account whose history has no closing deal; the
      margins are there only when the history is empty altogether. */
  function BasicReport(a: Account, withMargins: bool): Report
  {
    Data(LiveSource, None, 0, Round2(a.profit), 0, 0, 0.0, [], [], [], [],
         Some(Balances(Round2(a.balance), Round2(a.equity),
                       if withMargins then Some(Margins(Round2(a.margin), Round2(a.marginFree))) else None)),
         None)
  }

  /** What the statistics block (analyze.py:97-145) reports for the
      closing deals `closed` of account `a`. */
  ghost predicate IsLiveStatistics(r: Report, closed: seq<Deal>, a: Account)
  {
    var df := ByTime(closed);
    var p := Profits(AsRows(df));
    var sym := SymbolGroups(df);
    var hours := KeyTotals(df, ByHour);
    var months := KeyTotals(df, ByMonth);
    && r.Data?
    && r.dataSource == LiveSource && r.error == None && r.chartDebug == None
    && r.totalTrades == |df| && r.wins == Wins(df) && r.losses == Losses(df)
    && r.totalProfit == Round2(Sum(p))
    && Wins(df) <= |df|
    && r.winrate == Round(LiveWinRate(Wins(df), |df|), 10000)
    && |r.equityCurve| == |df|
    && (forall i :: 0 <= i < |df| ==> r.equityCurve[i] == Point(i + 1, Round2(Sum(p[..i + 1]))))
    && |r.profitBySymbol| == |sym|
    && (forall i :: 0 <= i < |sym| ==> r.profitBySymbol[i] == SymbolProfit(sym[i].symbol, Round2(sym[i].profit)))
    && |r.profitByHour| == |hours|
    && (forall i :: 0 <= i < |hours| ==> r.profitByHour[i] == HourProfit(hours[i].key, Round2(hours[i].profit)))
    && |r.monthlyProfit| == |months|
    && (forall i :: 0 <= i < |months| ==> r.monthlyProfit[i] == MonthProfit(months[i].key, Round2(months[i].profit)))
    && r.balances == Some(Balances(Round2(a.balance), Round2(a.equity), Some(Margins(Round2(a.margin), Round2(a.marginFree)))))
  }

  lemma {:induction false} WinsWithin(ds: seq<Deal>)
    ensures Wins(ds) <= |ds|
    decreases |ds|
  {
    if ds != [] {
      WinsWithin(ds[..|ds| - 1]);
    }
  }

  /** The hour buckets as emitted, each total rounded to cents. */
  method RoundHourBuckets(g: seq<Bucket>) returns (out: seq<HourProfit>)
    ensures |out| == |g|
    ensures forall i :: 0 <= i < |g| ==> out[i] == HourProfit(g[i].key, Round2(g[i].profit))
  {
    out := [];
    for i := 0 to |g|
      invariant |out| == i
      invariant forall k :: 0 <= k < i ==> out[k] == HourProfit(g[k].key, Round2(g[k].profit))
    {
      out := out + [HourProfit(g[i].key, Round2(g[i].profit))];
    }
  }

  /** The month buckets as emitted, each total rounded to cents. */
  method RoundMonthBuckets(g: seq<Bucket>) returns (out: seq<MonthProfit>)
    ensures |out| == |g|
    ensures forall i :: 0 <= i < |g| ==> out[i] == MonthProfit(g[i].key, Round2(g[i].profit))
  {
    out := [];
    for i := 0 to |g|
      invariant |out| == i
      invariant forall k :: 0 <= k < i ==> out[k] == MonthProfit(g[k].key, Round2(g[k].profit))
    {
      out := out + [MonthProfit(g[i].key, Round2(g[i].profit))];
    }
  }

  /** The statistics block (analyze.py:97-145), for a non-empty set of
      closing deals. */
  method LiveStatistics(closed: seq<Deal>, a: Account) returns (r: Report)
    requires closed != []
    ensures IsLiveStatistics(r, closed, a)
  {
    var df := ByTime(closed);
    var totalTrades := |df|;
    var wins := Wins(df);
    var losses := Losses(df);
    var totalProfit := Sum(Profits(AsRows(df)));
    WinsWithin(df);
    var winrate := LiveWinRate(wins, totalTrades);

    var equityCurve := EquityCurve(Profits(AsRows(df)));

    var profitBySymbol := RoundSymbolProfits(SymbolGroups(df));
    var profitByHour := RoundHourBuckets(KeyTotals(df, ByHour));
    var monthlyProfit := RoundMonthBuckets(KeyTotals(df, ByMonth));

    r := Data(LiveSource, None, totalTrades, Round2(totalProfit), wins, losses, Round(winrate, 10000),
              equityCurve, profitBySymbol, profitByHour, monthlyProfit,
              Some(Balances(Round2(a.balance), Round2(a.equity), Some(Margins(Round2(a.margin), Round2(a.marginFree))))),
              None);
  }

  /** `get_mt5_live_data` (analyze.py:29-150) on a given answer of the
      terminal and a configured target account: a report or an error
      message, never both. */
  method GetLiveData(feed: Feed, target: Option<int>) returns (data: Option<Report>, error: Option<string>)
    ensures data.None? <==> error.Some?
    ensures feed.NotInstalled? ==> error == Some(NotInstalledMessage)
    ensures feed.InitFailed? ==> error == Some("MT5 init failed: " + feed.lastError)
    ensures feed.Connected? && feed.account.None? ==> error == Some(NoAccountMessage)
    ensures feed.Connected? && feed.account.Some? && WrongAccount(feed.account.value, target) ==>
      error == Some(WrongAccountMessage(feed.account.value.login, target.value))
    ensures feed.Connected? && feed.account.Some? && !WrongAccount(feed.account.value, target) ==>
      var a := feed.account.value;
      && data.Some?
      && (feed.deals.None? || feed.deals.value == [] ==> data.value == BasicReport(a, true))
      && (feed.deals.Some? && feed.deals.value != [] && Closed(feed.deals.value) == [] ==> data.value == BasicReport(a, false))
      && (feed.deals.Some? && Closed(feed.deals.value) != [] ==> IsLiveStatistics(data.value, Closed(feed.deals.value), a))
  {
    match feed
    case NotInstalled =>
      return None, Some(NotInstalledMessage);
    case InitFailed(e) =>
      return None, Some("MT5 init failed: " + e);
    case Connected(account, deals) =>
      if account.None? {
        return None, Some(NoAccountMessage);
      }
      var a := account.value;
      if target.Some? && target.value != 0 && a.login != target.value {
        return None, Some(WrongAccountMessage(a.login, target.value));
      }
      if deals.None? || deals.value == [] {
        return Some(BasicReport(a, true)), None;
      }
      var closed := Closed(deals.value);
      if closed == [] {
        return Some(BasicReport(a, false)), None;
      }
      var r := LiveStatistics(closed, a);
      return Some(r), None;
  }
}
