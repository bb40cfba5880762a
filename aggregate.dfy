/** The chart builder of the report reader (analyze.py `_build_charts`): the
    trade records put in close-time order, the cumulative equity curve over
    them, the profit summed per symbol in non-increasing order and the
    profit summed per hour of the day in increasing order.

    pandas' `sort_values`, `groupby` and `sum` become insertion sorts and
    sums over sequences. pandas does not promise an order among equal sort
    keys, so the contracts here promise none either: only sortedness and
    that no record is lost or added. */
module Aggregate {
  import opened Basics
  import opened Scalars
  import opened Positions

  /** A timestamp as one number: the fields weighted by their ranges, so that
      valid timestamps compare as the instants they name. */
  function DtKey(d: DateTime): int
  {
    ((((d.year * 12 + d.month) * 31 + d.day) * 24 + d.hour) * 60 + d.minute) * 60 + d.second
  }

  /** `a` may come before `b` in `sort_values(by="t", na_position="last")`:
      records without a close time go last. */
  predicate RowLe(a: Row, b: Row)
  {
    match (a.t, b.t)
    case (_, None) => true
    case (None, Some(_)) => false
    case (Some(x), Some(y)) => DtKey(x) <= DtKey(y)
  }

  predicate SortedByTime(rs: seq<Row>)
  {
    forall i, j :: 0 <= i < j < |rs| ==> RowLe(rs[i], rs[j])
  }

  /** Either of two records may come first, or both orders are allowed. */
  lemma RowLeTotal(a: Row, b: Row)
    ensures RowLe(a, b) || RowLe(b, a)
  {
  }

  /** `x` put into `rs` before the first record it may precede. */
  function InsertByTime(x: Row, rs: seq<Row>): (r: seq<Row>)
    ensures |r| == |rs| + 1
    decreases |rs|
  {
    if rs == [] then [x]
    else if RowLe(x, rs[0]) then [x] + rs
    else [rs[0]] + InsertByTime(x, rs[1..])
  }

  /** Inserting adds the record and nothing else. */
  lemma {:induction false} InsertByTimeAdds(x: Row, rs: seq<Row>)
    ensures multiset(InsertByTime(x, rs)) == multiset(rs) + multiset{x}
    decreases |rs|
  {
    if rs != [] && !RowLe(x, rs[0]) {
      InsertByTimeAdds(x, rs[1..]);
      assert rs == [rs[0]] + rs[1..];
    }
  }

  /** Inserting into a sorted sequence keeps it sorted. */
  lemma {:induction false} InsertByTimeSorted(x: Row, rs: seq<Row>)
    requires SortedByTime(rs)
    ensures SortedByTime(InsertByTime(x, rs))
    decreases |rs|
  {
    if rs != [] && !RowLe(x, rs[0]) {
      InsertByTimeSorted(x, rs[1..]);
      RowLeTotal(x, rs[0]);
      InsertByTimeBound(rs[0], x, rs[1..]);
      ConsByTime(rs[0], InsertByTime(x, rs[1..]));
    }
  }

  /** A record that may precede `x` and every record of `rs` may precede
      every record once `x` is inserted. */
  lemma {:induction false} InsertByTimeBound(y: Row, x: Row, rs: seq<Row>)
    requires RowLe(y, x)
    requires forall j :: 0 <= j < |rs| ==> RowLe(y, rs[j])
    ensures forall j :: 0 <= j < |InsertByTime(x, rs)| ==> RowLe(y, InsertByTime(x, rs)[j])
    decreases |rs|
  {
    var r := InsertByTime(x, rs);
    if rs == [] {
    } else if RowLe(x, rs[0]) {
      forall j | 0 < j < |r| ensures RowLe(y, r[j]) {
        assert r[j] == rs[j - 1];
      }
    } else {
      InsertByTimeBound(y, x, rs[1..]);
      var t := InsertByTime(x, rs[1..]);
      forall j | 0 < j < |r| ensures RowLe(y, r[j]) {
        assert r[j] == t[j - 1];
      }
    }
  }

  /** A record that may precede every record of a sorted sequence can go in
      front. */
  lemma ConsByTime(y: Row, t: seq<Row>)
    requires SortedByTime(t)
    requires forall j :: 0 <= j < |t| ==> RowLe(y, t[j])
    ensures SortedByTime([y] + t)
  {
    var r := [y] + t;
    forall i, j | 0 <= i < j < |r| ensures RowLe(r[i], r[j]) {
      assert r[j] == t[j - 1];
      if i > 0 {
        assert r[i] == t[i - 1];
      }
    }
  }

  /** `df.sort_values(by="t", na_position="last")`. */
  function SortByTime(rs: seq<Row>): (r: seq<Row>)
    ensures |r| == |rs|
  {
    if rs == [] then [] else InsertByTime(rs[|rs| - 1], SortByTime(rs[..|rs| - 1]))
  }

  /** The sort puts the records in close-time order, missing times last, and
      keeps every record: it is a permutation. */
  lemma {:induction false} SortByTimeSpec(rs: seq<Row>)
    ensures SortedByTime(SortByTime(rs))
    ensures multiset(SortByTime(rs)) == multiset(rs)
    decreases |rs|
  {
    if rs != [] {
      var init := rs[..|rs| - 1];
      SortByTimeSpec(init);
      InsertByTimeSorted(rs[|rs| - 1], SortByTime(init));
      InsertByTimeAdds(rs[|rs| - 1], SortByTime(init));
      assert rs == init + [rs[|rs| - 1]];
    }
  }

  /** Some record has a close time: `df["t"].notna().any()`. */
  predicate AnyTime(rows: seq<Row>)
  {
    exists i :: 0 <= i < |rows| && rows[i].t.Some?
  }

  /** The frame the charts are read from (analyze.py:343-346): sorted by
      close time when any record has one, otherwise in the given order. */
  function ChartOrder(rows: seq<Row>): (r: seq<Row>)
    ensures |r| == |rows|
  {
    if AnyTime(rows) then SortByTime(rows) else rows
  }

  /** `df["profit"].tolist()`. */
  function Profits(rows: seq<Row>): (p: seq<real>)
    ensures |p| == |rows|
  {
    seq(|rows|, i requires 0 <= i < |rows| => rows[i].profit)
  }

  lemma ProfitsAppend(a: seq<Row>, b: seq<Row>)
    ensures Profits(a + b) == Profits(a) + Profits(b)
  {
  }

  /** Inserting a record adds its profit to the total. */
  lemma {:induction false} SumInsert(x: Row, rs: seq<Row>)
    ensures Sum(Profits(InsertByTime(x, rs))) == x.profit + Sum(Profits(rs))
    decreases |rs|
  {
    if rs == [] {
      assert Profits([x]) == [x.profit];
    } else if RowLe(x, rs[0]) {
      ProfitsAppend([x], rs);
      SumAppend([x.profit], Profits(rs));
      assert Profits([x]) == [x.profit];
    } else {
      var t := InsertByTime(x, rs[1..]);
      ProfitsAppend([rs[0]], t);
      SumAppend([rs[0].profit], Profits(t));
      assert Profits([rs[0]]) == [rs[0].profit];
      SumInsert(x, rs[1..]);
      assert rs == [rs[0]] + rs[1..];
      ProfitsAppend([rs[0]], rs[1..]);
      SumAppend([rs[0].profit], Profits(rs[1..]));
    }
  }

  /** Sorting loses no profit: the total is the same in either order. */
  lemma {:induction false} SumSortByTime(rs: seq<Row>)
    ensures Sum(Profits(SortByTime(rs))) == Sum(Profits(rs))
    decreases |rs|
  {
    if rs != [] {
      var init := rs[..|rs| - 1];
      SumSortByTime(init);
      SumInsert(rs[|rs| - 1], SortByTime(init));
      var p := Profits(rs);
      assert p[..|p| - 1] == Profits(init);
    }
  }

  /** One point of the equity curve. */
  datatype Point = Point(x: int, y: real)

  /** The equity-curve loop (analyze.py:348-352): point `i` is at `x == i`
      and carries the running total of the first `i` profits, kept exactly
      and rounded to cents only when the point is emitted. */
  method EquityCurve(profits: seq<real>) returns (curve: seq<Point>)
    ensures |curve| == |profits|
    ensures forall i :: 0 <= i < |curve| ==> curve[i] == Point(i + 1, Round2(Sum(profits[..i + 1])))
  {
    curve := [];
    var cum := 0.0;
    for i := 0 to |profits|
      invariant |curve| == i
      invariant cum == Sum(profits[..i])
      invariant forall k :: 0 <= k < i ==> curve[k] == Point(k + 1, Round2(Sum(profits[..k + 1])))
    {
      assert profits[..i + 1][..i] == profits[..i];
      cum := cum + profits[i];
      curve := curve + [Point(i + 1, Round2(cum))];
    }
  }

  /** The last point of the curve is the total profit of all records,
      whatever order the sort left them in. */
  lemma EquityEndsAtTotal(rows: seq<Row>)
    requires rows != []
    ensures var p := Profits(ChartOrder(rows));
      Sum(p[..|p|]) == Sum(Profits(rows))
  {
    var p := Profits(ChartOrder(rows));
    assert p[..|p|] == p;
    if AnyTime(rows) {
      SumSortByTime(rows);
    }
  }

  /** The distinct elements of `s` in order of first appearance. */
  function Distinct<T(==,!new)>(s: seq<T>): (d: seq<T>)
    ensures forall x :: x in d <==> x in s
    ensures forall i, j :: 0 <= i < j < |d| ==> d[i] != d[j]
  {
    if s == [] then []
    else
      var d := Distinct(s[..|s| - 1]);
      assert s == s[..|s| - 1] + [s[|s| - 1]];
      if s[|s| - 1] in d then d else d + [s[|s| - 1]]
  }

  /** `df["symbol"]`. */
  function Symbols(rows: seq<Row>): (s: seq<string>)
    ensures |s| == |rows|
  {
    seq(|rows|, i requires 0 <= i < |rows| => rows[i].symbol)
  }

  /** The profit of the records with symbol `sym`, summed. */
  function SymbolTotal(rows: seq<Row>, sym: string): real
  {
    if rows == [] then 0.0
    else SymbolTotal(rows[..|rows| - 1], sym) + (if rows[|rows| - 1].symbol == sym then rows[|rows| - 1].profit else 0.0)
  }

  /** One entry of `profit_by_symbol`. */
  datatype SymbolProfit = SymbolProfit(symbol: string, profit: real)

  /** `df.groupby("symbol")["profit"].sum()`, one entry per symbol. */
  function SymbolTotals(rows: seq<Row>): (g: seq<SymbolProfit>)
  {
    var syms := Distinct(Symbols(rows));
    seq(|syms|, i requires 0 <= i < |syms| => SymbolProfit(syms[i], SymbolTotal(rows, syms[i])))
  }

  predicate NonIncreasing(ps: seq<SymbolProfit>)
  {
    forall i, j :: 0 <= i < j < |ps| ==> ps[i].profit >= ps[j].profit
  }

  /** `x` put into `ps` before the first entry with a smaller or equal
      profit. */
  function InsertDesc(x: SymbolProfit, ps: seq<SymbolProfit>): (r: seq<SymbolProfit>)
    ensures |r| == |ps| + 1
    decreases |ps|
  {
    if ps == [] then [x]
    else if x.profit >= ps[0].profit then [x] + ps
    else [ps[0]] + InsertDesc(x, ps[1..])
  }

  lemma {:induction false} InsertDescAdds(x: SymbolProfit, ps: seq<SymbolProfit>)
    ensures multiset(InsertDesc(x, ps)) == multiset(ps) + multiset{x}
    decreases |ps|
  {
    if ps != [] && x.profit < ps[0].profit {
      InsertDescAdds(x, ps[1..]);
      assert ps == [ps[0]] + ps[1..];
    }
  }

  lemma {:induction false} InsertDescSorted(x: SymbolProfit, ps: seq<SymbolProfit>)
    requires NonIncreasing(ps)
    ensures NonIncreasing(InsertDesc(x, ps))
    decreases |ps|
  {
    if ps != [] && x.profit < ps[0].profit {
      InsertDescSorted(x, ps[1..]);
      InsertDescBound(ps[0].profit, x, ps[1..]);
      ConsDesc(ps[0], InsertDesc(x, ps[1..]));
    }
  }

  /** A bound on `x` and on every entry of `ps` bounds every entry once `x`
      is inserted. */
  lemma {:induction false} InsertDescBound(v: real, x: SymbolProfit, ps: seq<SymbolProfit>)
    requires v >= x.profit
    requires forall j :: 0 <= j < |ps| ==> v >= ps[j].profit
    ensures forall j :: 0 <= j < |InsertDesc(x, ps)| ==> v >= InsertDesc(x, ps)[j].profit
    decreases |ps|
  {
    var r := InsertDesc(x, ps);
    if ps == [] {
    } else if x.profit >= ps[0].profit {
      forall j | 0 < j < |r| ensures v >= r[j].profit {
        assert r[j] == ps[j - 1];
      }
    } else {
      InsertDescBound(v, x, ps[1..]);
      var t := InsertDesc(x, ps[1..]);
      forall j | 0 < j < |r| ensures v >= r[j].profit {
        assert r[j] == t[j - 1];
      }
    }
  }

  /** A symbol that is neither `x`'s nor any of `ps` is none of the entries
      once `x` is inserted. */
  lemma {:induction false} InsertDescAvoids(sym: string, x: SymbolProfit, ps: seq<SymbolProfit>)
    requires x.symbol != sym
    requires forall j :: 0 <= j < |ps| ==> ps[j].symbol != sym
    ensures forall j :: 0 <= j < |InsertDesc(x, ps)| ==> InsertDesc(x, ps)[j].symbol != sym
    decreases |ps|
  {
    var r := InsertDesc(x, ps);
    if ps == [] {
    } else if x.profit >= ps[0].profit {
      forall j | 0 < j < |r| ensures r[j].symbol != sym {
        assert r[j] == ps[j - 1];
      }
    } else {
      InsertDescAvoids(sym, x, ps[1..]);
      var t := InsertDesc(x, ps[1..]);
      forall j | 0 < j < |r| ensures r[j].symbol != sym {
        assert r[j] == t[j - 1];
      }
    }
  }

  /** An entry no smaller than any of a non-increasing sequence can go in
      front. */
  lemma ConsDesc(y: SymbolProfit, t: seq<SymbolProfit>)
    requires NonIncreasing(t)
    requires forall j :: 0 <= j < |t| ==> y.profit >= t[j].profit
    ensures NonIncreasing([y] + t)
  {
    var r := [y] + t;
    forall i, j | 0 <= i < j < |r| ensures r[i].profit >= r[j].profit {
      assert r[j] == t[j - 1];
      if i > 0 {
        assert r[i] == t[i - 1];
      }
    }
  }

  /** `.sort_values(ascending=False)`. */
  function SortDesc(ps: seq<SymbolProfit>): (r: seq<SymbolProfit>)
    ensures |r| == |ps|
  {
    if ps == [] then [] else InsertDesc(ps[|ps| - 1], SortDesc(ps[..|ps| - 1]))
  }

  /** The sort orders the totals from largest to smallest and keeps every
      entry. */
  lemma {:induction false} SortDescSpec(ps: seq<SymbolProfit>)
    ensures NonIncreasing(SortDesc(ps))
    ensures multiset(SortDesc(ps)) == multiset(ps)
    decreases |ps|
  {
    if ps != [] {
      var init := ps[..|ps| - 1];
      SortDescSpec(init);
      InsertDescSorted(ps[|ps| - 1], SortDesc(init));
      InsertDescAdds(ps[|ps| - 1], SortDesc(init));
      assert ps == init + [ps[|ps| - 1]];
    }
  }

  /** No record without a close time, no hour: the hours of the records that
      have one. */
  function Hours(rows: seq<Row>): seq<int>
  {
    if rows == [] then []
    else
      var last := rows[|rows| - 1];
      Hours(rows[..|rows| - 1]) + (if last.t.Some? then [last.t.value.hour] else [])
  }

  /** The profit of the records closed in hour `h`, summed. */
  function HourTotal(rows: seq<Row>, h: int): real
  {
    if rows == [] then 0.0
    else
      var last := rows[|rows| - 1];
      HourTotal(rows[..|rows| - 1], h) + (if last.t.Some? && last.t.value.hour == h then last.profit else 0.0)
  }

  predicate StrictlyIncreasing(ks: seq<int>)
  {
    forall i, j :: 0 <= i < j < |ks| ==> ks[i] < ks[j]
  }

  /** `k` put into the increasing `ks` unless it is already there. */
  function InsertKey(k: int, ks: seq<int>): (r: seq<int>)
    requires StrictlyIncreasing(ks)
    ensures StrictlyIncreasing(r)
    ensures forall x :: x in r <==> x == k || x in ks
    decreases |ks|
  {
    if ks == [] then [k]
    else if k < ks[0] then [k] + ks
    else if k == ks[0] then ks
    else
      var t := InsertKey(k, ks[1..]);
      assert forall x :: x in ks <==> x == ks[0] || x in ks[1..] by {
        assert ks == [ks[0]] + ks[1..];
      }
      assert forall j :: 0 <= j < |t| ==> ks[0] < t[j] by {
        forall j | 0 <= j < |t| ensures ks[0] < t[j] {
          assert t[j] in t;
        }
      }
      [ks[0]] + t
  }

  /** The keys of a `groupby(...).sum().sort_index()`: each distinct key
      once, increasing. */
  function Ascending(ks: seq<int>): (r: seq<int>)
    ensures StrictlyIncreasing(r)
    ensures forall x :: x in r <==> x in ks
  {
    if ks == [] then []
    else
      assert ks == ks[..|ks| - 1] + [ks[|ks| - 1]];
      InsertKey(ks[|ks| - 1], Ascending(ks[..|ks| - 1]))
  }

  /** One entry of `profit_by_hour`. */
  datatype HourProfit = HourProfit(hour: int, profit: real)

  /** `dfh.groupby("hour")["profit"].sum().sort_index()`. */
  function HourTotals(rows: seq<Row>): (g: seq<HourProfit>)
  {
    var hs := Ascending(Hours(rows));
    seq(|hs|, i requires 0 <= i < |hs| => HourProfit(hs[i], HourTotal(rows, hs[i])))
  }

  /** Some record has symbol `sym`. */
  predicate HasSymbol(rows: seq<Row>, sym: string)
  {
    exists i :: 0 <= i < |rows| && rows[i].symbol == sym
  }

  /** Some record closed in hour `h`. */
  predicate HasHour(rows: seq<Row>, h: int)
  {
    exists i :: 0 <= i < |rows| && rows[i].t.Some? && rows[i].t.value.hour == h
  }

  lemma {:induction false} HoursMembers(rows: seq<Row>)
    ensures forall h :: h in Hours(rows) <==> HasHour(rows, h)
    decreases |rows|
  {
    if rows != [] {
      var init := rows[..|rows| - 1];
      HoursMembers(init);
      forall h ensures h in Hours(rows) <==> HasHour(rows, h) {
        if HasHour(rows, h) {
          var i :| 0 <= i < |rows| && rows[i].t.Some? && rows[i].t.value.hour == h;
          if i < |init| {
            assert init[i] == rows[i];
          }
        }
        if HasHour(init, h) {
          var i :| 0 <= i < |init| && init[i].t.Some? && init[i].t.value.hour == h;
          assert rows[i] == init[i];
        }
      }
    }
  }

  /** Records that are a permutation of each other have the same symbols
      and the same hours. */
  lemma SameRecordsSameKeys(a: seq<Row>, b: seq<Row>)
    requires multiset(a) == multiset(b)
    ensures forall sym :: HasSymbol(a, sym) ==> HasSymbol(b, sym)
    ensures forall h :: HasHour(a, h) ==> HasHour(b, h)
  {
    forall sym | HasSymbol(a, sym) ensures HasSymbol(b, sym) {
      var i :| 0 <= i < |a| && a[i].symbol == sym;
      assert a[i] in multiset(b);
      var j :| 0 <= j < |b| && b[j] == a[i];
    }
    forall h | HasHour(a, h) ensures HasHour(b, h) {
      var i :| 0 <= i < |a| && a[i].t.Some? && a[i].t.value.hour == h;
      assert a[i] in multiset(b);
      var j :| 0 <= j < |b| && b[j] == a[i];
    }
  }

  lemma {:induction false} SymbolTotalAppend(a: seq<Row>, b: seq<Row>, sym: string)
    ensures SymbolTotal(a + b, sym) == SymbolTotal(a, sym) + SymbolTotal(b, sym)
    decreases |b|
  {
    if b == [] {
      assert a + b == a;
    } else {
      assert (a + b)[..|a + b| - 1] == a + b[..|b| - 1];
      SymbolTotalAppend(a, b[..|b| - 1], sym);
    }
  }

  lemma {:induction false} HourTotalAppend(a: seq<Row>, b: seq<Row>, h: int)
    ensures HourTotal(a + b, h) == HourTotal(a, h) + HourTotal(b, h)
    decreases |b|
  {
    if b == [] {
      assert a + b == a;
    } else {
      assert (a + b)[..|a + b| - 1] == a + b[..|b| - 1];
      HourTotalAppend(a, b[..|b| - 1], h);
    }
  }

  lemma {:induction false} SymbolTotalInsert(x: Row, rs: seq<Row>, sym: string)
    ensures SymbolTotal(InsertByTime(x, rs), sym) == SymbolTotal(rs + [x], sym)
    decreases |rs|
  {
    SymbolTotalAppend(rs, [x], sym);
    if rs == [] {
      assert [x] == [] + [x];
    } else if RowLe(x, rs[0]) {
      SymbolTotalAppend([x], rs, sym);
    } else {
      SymbolTotalInsert(x, rs[1..], sym);
      SymbolTotalAppend([rs[0]], InsertByTime(x, rs[1..]), sym);
      SymbolTotalAppend([rs[0]], rs[1..] + [x], sym);
      assert rs + [x] == [rs[0]] + (rs[1..] + [x]);
    }
  }

  lemma {:induction false} HourTotalInsert(x: Row, rs: seq<Row>, h: int)
    ensures HourTotal(InsertByTime(x, rs), h) == HourTotal(rs + [x], h)
    decreases |rs|
  {
    HourTotalAppend(rs, [x], h);
    if rs == [] {
      assert [x] == [] + [x];
    } else if RowLe(x, rs[0]) {
      HourTotalAppend([x], rs, h);
    } else {
      HourTotalInsert(x, rs[1..], h);
      HourTotalAppend([rs[0]], InsertByTime(x, rs[1..]), h);
      HourTotalAppend([rs[0]], rs[1..] + [x], h);
      assert rs + [x] == [rs[0]] + (rs[1..] + [x]);
    }
  }

  /** Sorting by close time changes no symbol's total. */
  lemma {:induction false} SymbolTotalSort(rs: seq<Row>, sym: string)
    ensures SymbolTotal(SortByTime(rs), sym) == SymbolTotal(rs, sym)
    decreases |rs|
  {
    if rs != [] {
      var init := rs[..|rs| - 1];
      var last := rs[|rs| - 1];
      SymbolTotalSort(init, sym);
      SymbolTotalInsert(last, SortByTime(init), sym);
      assert (SortByTime(init) + [last])[..|SortByTime(init)|] == SortByTime(init);
    }
  }

  /** Sorting by close time changes no hour's total. */
  lemma {:induction false} HourTotalSort(rs: seq<Row>, h: int)
    ensures HourTotal(SortByTime(rs), h) == HourTotal(rs, h)
    decreases |rs|
  {
    if rs != [] {
      var init := rs[..|rs| - 1];
      var last := rs[|rs| - 1];
      HourTotalSort(init, h);
      HourTotalInsert(last, SortByTime(init), h);
      assert (SortByTime(init) + [last])[..|SortByTime(init)|] == SortByTime(init);
    }
  }

  /** No index of `g` names `sym` twice. */
  predicate DistinctSymbols(g: seq<SymbolProfit>)
  {
    forall i, j :: 0 <= i < j < |g| ==> g[i].symbol != g[j].symbol
  }

  lemma {:induction false} InsertDescDistinct(x: SymbolProfit, ps: seq<SymbolProfit>)
    requires DistinctSymbols(ps)
    requires forall i :: 0 <= i < |ps| ==> ps[i].symbol != x.symbol
    ensures DistinctSymbols(InsertDesc(x, ps))
    decreases |ps|
  {
    if ps != [] && x.profit < ps[0].profit {
      var t := InsertDesc(x, ps[1..]);
      var tail := ps[1..];
      assert DistinctSymbols(tail) by {
        forall i, j | 0 <= i < j < |tail| ensures tail[i].symbol != tail[j].symbol {
          assert tail[i] == ps[i + 1] && tail[j] == ps[j + 1];
        }
      }
      InsertDescDistinct(x, tail);
      assert forall j :: 0 <= j < |tail| ==> tail[j].symbol != ps[0].symbol by {
        forall j | 0 <= j < |tail| ensures tail[j].symbol != ps[0].symbol {
          assert tail[j] == ps[j + 1];
        }
      }
      InsertDescAvoids(ps[0].symbol, x, tail);
      var r := [ps[0]] + t;
      forall i, j | 0 <= i < j < |r|
        ensures r[i].symbol != r[j].symbol
      {
        assert r[j] == t[j - 1];
        if i > 0 {
          assert r[i] == t[i - 1];
        }
      }
    }
  }

  lemma {:induction false} SortDescDistinct(ps: seq<SymbolProfit>)
    requires DistinctSymbols(ps)
    ensures DistinctSymbols(SortDesc(ps))
    decreases |ps|
  {
    if ps != [] {
      var init := ps[..|ps| - 1];
      var last := ps[|ps| - 1];
      assert DistinctSymbols(init) by {
        forall i, j | 0 <= i < j < |init| ensures init[i].symbol != init[j].symbol {
          assert init[i] == ps[i] && init[j] == ps[j];
        }
      }
      SortDescDistinct(init);
      SortDescSpec(init);
      forall i | 0 <= i < |SortDesc(init)|
        ensures SortDesc(init)[i].symbol != last.symbol
      {
        assert SortDesc(init)[i] in multiset(init);
        var k :| 0 <= k < |init| && init[k] == SortDesc(init)[i];
        assert init[k] == ps[k];
      }
      InsertDescDistinct(last, SortDesc(init));
    }
  }

  /** `g` groups `rows` by symbol: one entry per symbol of `rows`, each
      with that symbol's total. */
  ghost predicate GroupsBySymbol(g: seq<SymbolProfit>, rows: seq<Row>)
  {
    && DistinctSymbols(g)
    && (forall i :: 0 <= i < |g| ==> g[i].profit == SymbolTotal(rows, g[i].symbol) && HasSymbol(rows, g[i].symbol))
    && (forall sym :: HasSymbol(rows, sym) ==> exists i :: 0 <= i < |g| && g[i].symbol == sym)
  }

  lemma SymbolTotalsGroup(rows: seq<Row>)
    ensures GroupsBySymbol(SymbolTotals(rows), rows)
  {
    var syms := Distinct(Symbols(rows));
    var t := SymbolTotals(rows);
    forall i | 0 <= i < |t| ensures HasSymbol(rows, t[i].symbol) {
      assert syms[i] in Symbols(rows);
    }
    forall sym | HasSymbol(rows, sym)
      ensures exists i :: 0 <= i < |t| && t[i].symbol == sym
    {
      var j :| 0 <= j < |rows| && rows[j].symbol == sym;
      assert Symbols(rows)[j] == sym;
      assert sym in syms;
      var k :| 0 <= k < |syms| && syms[k] == sym;
      assert t[k].symbol == sym;
    }
  }

  /** Reordering a grouping keeps it one. */
  lemma GroupsPermuted(g: seq<SymbolProfit>, g2: seq<SymbolProfit>, rows: seq<Row>)
    requires GroupsBySymbol(g, rows)
    requires multiset(g2) == multiset(g)
    requires DistinctSymbols(g2)
    ensures GroupsBySymbol(g2, rows)
  {
    forall i | 0 <= i < |g2|
      ensures g2[i].profit == SymbolTotal(rows, g2[i].symbol) && HasSymbol(rows, g2[i].symbol)
    {
      assert g2[i] in multiset(g);
      var k :| 0 <= k < |g| && g[k] == g2[i];
    }
    forall sym | HasSymbol(rows, sym)
      ensures exists i :: 0 <= i < |g2| && g2[i].symbol == sym
    {
      var k :| 0 <= k < |g| && g[k].symbol == sym;
      assert g[k] in multiset(g2);
      var i :| 0 <= i < |g2| && g2[i] == g[k];
    }
  }

  /** A grouping of the records sorted by time is a grouping of the
      records. */
  lemma GroupsOfSorted(g: seq<SymbolProfit>, rows: seq<Row>)
    requires GroupsBySymbol(g, SortByTime(rows))
    ensures GroupsBySymbol(g, rows)
  {
    SortByTimeSpec(rows);
    SameRecordsSameKeys(rows, SortByTime(rows));
    SameRecordsSameKeys(SortByTime(rows), rows);
    forall i | 0 <= i < |g| ensures g[i].profit == SymbolTotal(rows, g[i].symbol) {
      SymbolTotalSort(rows, g[i].symbol);
    }
  }

  /** `profit_by_symbol` before rounding: one entry per symbol of the
      records, each with the sum of that symbol's profits, from the largest
      sum to the smallest. */
  lemma ProfitBySymbolSpec(rows: seq<Row>)
    ensures var g := SortDesc(SymbolTotals(ChartOrder(rows)));
      NonIncreasing(g) && GroupsBySymbol(g, rows)
  {
    var df := ChartOrder(rows);
    var totals := SymbolTotals(df);
    SymbolTotalsGroup(df);
    SortDescSpec(totals);
    SortDescDistinct(totals);
    GroupsPermuted(totals, SortDesc(totals), df);
    if AnyTime(rows) {
      GroupsOfSorted(SortDesc(totals), rows);
    }
  }

  /** `profit_by_hour` before rounding: each hour at which some record
      closed, once, in increasing order, with the sum of the profits of the
      records closed in that hour. */
  lemma ProfitByHourSpec(rows: seq<Row>)
    ensures var h := HourTotals(ChartOrder(rows));
      && (forall i, j :: 0 <= i < j < |h| ==> h[i].hour < h[j].hour)
      && (forall i :: 0 <= i < |h| ==> h[i].profit == HourTotal(rows, h[i].hour))
      && (forall hr :: HasHour(rows, hr) <==> exists i :: 0 <= i < |h| && h[i].hour == hr)
  {
    var df := ChartOrder(rows);
    if AnyTime(rows) {
      SortByTimeSpec(rows);
      SameRecordsSameKeys(rows, df);
      SameRecordsSameKeys(df, rows);
    }
    HoursMembers(df);
    var hs := Ascending(Hours(df));
    var h := HourTotals(df);
    forall i | 0 <= i < |h|
      ensures h[i].profit == HourTotal(rows, h[i].hour) && HasHour(rows, h[i].hour)
    {
      assert hs[i] in Hours(df);
      if AnyTime(rows) {
        HourTotalSort(rows, h[i].hour);
      }
    }
    forall hr | HasHour(rows, hr)
      ensures exists i :: 0 <= i < |h| && h[i].hour == hr
    {
      assert hr in hs;
      var k :| 0 <= k < |hs| && hs[k] == hr;
      assert h[k].hour == hr;
    }
  }

  /** With valid close times, every hour of the series is one of 0..23. */
  lemma HoursInDay(rows: seq<Row>)
    requires forall i :: 0 <= i < |rows| && rows[i].t.Some? ==> ValidDateTime(rows[i].t.value)
    ensures var h := HourTotals(ChartOrder(rows));
      forall i :: 0 <= i < |h| ==> 0 <= h[i].hour < 24
  {
    ProfitByHourSpec(rows);
    var h := HourTotals(ChartOrder(rows));
    forall i | 0 <= i < |h| ensures 0 <= h[i].hour < 24 {
      assert HasHour(rows, h[i].hour);
    }
  }

  /** The three series `_build_charts` returns. */
  datatype Charts = Charts(equityCurve: seq<Point>, profitBySymbol: seq<SymbolProfit>, profitByHour: seq<HourProfit>)

  /** The charts `_build_charts` draws from `rows`: nothing for no records;
      otherwise the running totals of the profits in chart order, and the
      per-symbol and per-hour sums rounded for display. */
  ghost predicate ChartsOf(charts: Charts, rows: seq<Row>)
  {
    if rows == [] then charts == Charts([], [], [])
    else
      var p := Profits(ChartOrder(rows));
      var g := SortDesc(SymbolTotals(ChartOrder(rows)));
      var h := HourTotals(ChartOrder(rows));
      && |charts.equityCurve| == |rows|
      && (forall i :: 0 <= i < |rows| ==> charts.equityCurve[i] == Point(i + 1, Round2(Sum(p[..i + 1]))))
      && |charts.profitBySymbol| == |g|
      && (forall i :: 0 <= i < |g| ==> charts.profitBySymbol[i] == SymbolProfit(g[i].symbol, Round2(g[i].profit)))
      && |charts.profitByHour| == |h|
      && (forall i :: 0 <= i < |h| ==> charts.profitByHour[i] == HourProfit(h[i].hour, Round2(h[i].profit)))
  }

  /** The symbol entries as emitted, each total rounded to cents. */
  method RoundSymbolProfits(g: seq<SymbolProfit>) returns (out: seq<SymbolProfit>)
    ensures |out| == |g|
    ensures forall i :: 0 <= i < |g| ==> out[i] == SymbolProfit(g[i].symbol, Round2(g[i].profit))
  {
    out := [];
    for i := 0 to |g|
      invariant |out| == i
      invariant forall k :: 0 <= k < i ==> out[k] == SymbolProfit(g[k].symbol, Round2(g[k].profit))
    {
      out := out + [SymbolProfit(g[i].symbol, Round2(g[i].profit))];
    }
  }

  /** The hour entries as emitted, each total rounded to cents. */
  method RoundHourProfits(g: seq<HourProfit>) returns (out: seq<HourProfit>)
    ensures |out| == |g|
    ensures forall i :: 0 <= i < |g| ==> out[i] == HourProfit(g[i].hour, Round2(g[i].profit))
  {
    out := [];
    for i := 0 to |g|
      invariant |out| == i
      invariant forall k :: 0 <= k < i ==> out[k] == HourProfit(g[k].hour, Round2(g[k].profit))
    {
      out := out + [HourProfit(g[i].hour, Round2(g[i].profit))];
    }
  }

  /** `_build_charts` (analyze.py:337-372). */
  method BuildCharts(rows: seq<Row>) returns (charts: Charts)
    ensures ChartsOf(charts, rows)
  {
    if rows == [] {
      return Charts([], [], []);
    }
    var df := ChartOrder(rows);
    var equityCurve := EquityCurve(Profits(df));

    var profitBySymbol := RoundSymbolProfits(SortDesc(SymbolTotals(df)));
    var profitByHour := [];
    if AnyTime(df) {
      profitByHour := RoundHourProfits(HourTotals(df));
    } else {
      NoTimeNoHours(df);
    }
    return Charts(equityCurve, profitBySymbol, profitByHour);
  }

  /** Without close times there are no hours to group by. */
  lemma {:induction false} NoTimeNoHours(rows: seq<Row>)
    requires !AnyTime(rows)
    ensures Hours(rows) == []
    decreases |rows|
  {
    if rows != [] {
      var init := rows[..|rows| - 1];
      assert !AnyTime(init) by {
        forall i | 0 <= i < |init| ensures init[i].t.None? {
          assert init[i] == rows[i];
        }
      }
      NoTimeNoHours(init);
    }
  }
}
