/**
 * The daily view of the trading calendar: trades grouped by calendar day in the order
 * the days are first seen, each day's invested and net totals and its profit percentage,
 * and one calendar event per day.
 */
module Calendar {
  import opened Results
  import opened JsValues
  import opened Sequences
  import opened Trades

  // ---------------------------------------------------------------------
  // Grouping by day
  // ---------------------------------------------------------------------

  function OnDay(d: Day): Trade -> bool {
    (t: Trade) => t.date == d
  }

  /** The trades of day d, in feed order. */
  function TradesOn(ts: seq<Trade>, d: Day): seq<Trade> {
    Keep(ts, OnDay(d))
  }

  /** The days the trades fall on, each once, in the order of their first trade. */
  function DistinctDays(ts: seq<Trade>): (r: seq<Day>)
    ensures Distinct(r)
    ensures forall d :: d in r <==> exists i :: 0 <= i < |ts| && ts[i].date == d
  {
    if ts == [] then []
    else
      var init := ts[..|ts| - 1];
      assert forall i :: 0 <= i < |init| ==> init[i] == ts[i];
      var r := DistinctDays(init);
      if ts[|ts| - 1].date in r then r else r + [ts[|ts| - 1].date]
  }

  /** The position of the first trade on day d, or |ts| when there is none. */
  function FirstIndexOf(ts: seq<Trade>, d: Day): (k: nat)
    ensures k <= |ts|
    ensures k < |ts| ==> ts[k].date == d
    ensures forall j :: 0 <= j < k ==> ts[j].date != d
  {
    if ts == [] then 0
    else
      var init := ts[..|ts| - 1];
      assert forall j :: 0 <= j < |init| ==> init[j] == ts[j];
      var k := FirstIndexOf(init, d);
      if k < |init| then k else if ts[|ts| - 1].date == d then |init| else |ts|
  }

  /** No trade on a day that is not among the distinct days. */
  lemma NoTradesOn(ts: seq<Trade>, d: Day)
    requires d !in DistinctDays(ts)
    ensures TradesOn(ts, d) == []
  {
    var r := TradesOn(ts, d);
    if r != [] {
      assert false;
    }
  }

  /** A trade appended to the feed adds its day at the end if the day is new. */
  lemma DistinctDaysSnoc(ts: seq<Trade>, t: Trade)
    ensures DistinctDays(ts + [t]) == if t.date in DistinctDays(ts) then DistinctDays(ts) else DistinctDays(ts) + [t.date]
  {
    assert (ts + [t])[..|ts|] == ts;
  }

  /** A trade appended to the feed joins the end of its own day's trades only. */
  lemma TradesOnSnoc(ts: seq<Trade>, t: Trade)
    ensures forall d :: TradesOn(ts + [t], d) == TradesOn(ts, d) + (if t.date == d then [t] else [])
  {
    forall d
      ensures TradesOn(ts + [t], d) == TradesOn(ts, d) + (if t.date == d then [t] else [])
    {
      KeepSnoc(ts, t, OnDay(d));
    }
  }

  /** The accumulator after the trades ts: its keys in insertion order, and each key's list. */
  ghost predicate Grouped(ts: seq<Trade>, keys: seq<Day>, groups: map<Day, seq<Trade>>) {
    && keys == DistinctDays(ts)
    && (forall d :: d in groups <==> d in keys)
    && (forall d :: d in groups ==> groups[d] == TradesOn(ts, d))
  }

  /** A trade of a day already in the accumulator is pushed onto that day's list. */
  lemma GroupStepSeen(ts: seq<Trade>, t: Trade, keys: seq<Day>, groups: map<Day, seq<Trade>>)
    requires Grouped(ts, keys, groups) && t.date in groups
    ensures Grouped(ts + [t], keys, groups[t.date := groups[t.date] + [t]])
  {
    DistinctDaysSnoc(ts, t);
    TradesOnSnoc(ts, t);
  }

  /** A trade of a new day opens that day's key, with the trade as its only element. */
  lemma GroupStepNew(ts: seq<Trade>, t: Trade, keys: seq<Day>, groups: map<Day, seq<Trade>>)
    requires Grouped(ts, keys, groups) && t.date !in groups
    ensures Grouped(ts + [t], keys + [t.date], groups[t.date := [t]])
  {
    DistinctDaysSnoc(ts, t);
    TradesOnSnoc(ts, t);
    NoTradesOn(ts, t.date);
  }

  /**
   * The `reduce` that fills the accumulator object: a day's key is created (empty)
   * on its first trade and every trade is pushed onto its day's list. `keys` is the
   * accumulator's key order, which `Object.entries` returns.
   */
  method GroupByDay(ts: seq<Trade>) returns (keys: seq<Day>, groups: map<Day, seq<Trade>>)
    ensures keys == DistinctDays(ts)
    ensures forall d :: d in groups <==> d in keys
    ensures forall d :: d in groups ==> groups[d] == TradesOn(ts, d)
  {
    keys, groups := [], map[];
    for i := 0 to |ts|
      invariant Grouped(ts[..i], keys, groups)
    {
      var t := ts[i];
      PrefixSnoc(ts, i);
      if t.date !in groups {
        GroupStepNew(ts[..i], t, keys, groups);
        groups := groups[t.date := []];
        keys := keys + [t.date];
        assert groups[t.date] + [t] == [t];
      } else {
        GroupStepSeen(ts[..i], t, keys, groups);
      }
      groups := groups[t.date := groups[t.date] + [t]];
    }
    assert ts[..|ts|] == ts;
  }

  // ---------------------------------------------------------------------
  // Daily totals and percentage
  // ---------------------------------------------------------------------

  /** `trades.reduce((sum, t) => sum + amount(t), 0)`. */
  function Total(ts: seq<Trade>, amount: Trade -> Number): Number {
    if ts == [] then Finite(0.0) else Plus(Total(ts[..|ts| - 1], amount), amount(ts[|ts| - 1]))
  }

  /** The sum is NaN exactly when some amount is: NaN absorbs, and finite sums stay finite. */
  lemma {:induction false} TotalIsNaN(ts: seq<Trade>, amount: Trade -> Number)
    ensures Total(ts, amount).NaN? <==> exists i :: 0 <= i < |ts| && amount(ts[i]).NaN?
  {
    if ts != [] {
      var init := ts[..|ts| - 1];
      TotalIsNaN(init, amount);
      assert forall i :: 0 <= i < |init| ==> init[i] == ts[i];
    }
  }

  function TotalBuyPrice(): Trade -> Number { (t: Trade) => t.totalBuyPrice }

  function NetTotal(): Trade -> Number { (t: Trade) => t.netTotal }

  /** The IEEE result of (n / d) * 100 on JavaScript numbers. */
  datatype Quotient = Ratio(value: real) | PlusInfinity | MinusInfinity | NotANumber

  /**
   * `(netProfit / totalInvested) * 100`. A day whose invested total is 0 gets an infinite
   * percentage when its net is not 0, and NaN when both are 0 (a sum that starts at +0
   * is never -0, so the infinity takes the sign of the net).
   */
  function PercentOf(netProfit: Number, totalInvested: Number): (q: Quotient)
    ensures q.Ratio? <==> netProfit.Finite? && totalInvested.Finite? && totalInvested.value != 0.0
    ensures q.Ratio? ==> q.value * totalInvested.value == 100.0 * netProfit.value
    ensures q.PlusInfinity? <==> totalInvested == Finite(0.0) && netProfit.Finite? && netProfit.value > 0.0
    ensures q.MinusInfinity? <==> totalInvested == Finite(0.0) && netProfit.Finite? && netProfit.value < 0.0
  {
    match (netProfit, totalInvested)
    case (Finite(n), Finite(d)) =>
      if d != 0.0 then Ratio(n / d * 100.0)
      else if n > 0.0 then PlusInfinity
      else if n < 0.0 then MinusInfinity
      else NotANumber
    case _ => NotANumber
  }

  datatype DailyPerformance = DailyPerformance(
    date: Day,
    trades: seq<Trade>,
    totalInvested: Number,
    netProfit: Number,
    netProfitPercent: Quotient)

  /** The performance record of one day's trades. */
  function Performance(d: Day, group: seq<Trade>): DailyPerformance {
    var invested := Total(group, TotalBuyPrice());
    var net := Total(group, NetTotal());
    DailyPerformance(d, group, invested, net, PercentOf(net, invested))
  }

  /** The performance of each of the given days, in that order. */
  function PerformancesFor(ts: seq<Trade>, days: seq<Day>): (r: seq<DailyPerformance>)
    ensures |r| == |days|
    ensures forall k :: 0 <= k < |days| ==> r[k] == Performance(days[k], TradesOn(ts, days[k]))
  {
    if days == [] then []
    else
      var init := days[..|days| - 1];
      assert forall k :: 0 <= k < |init| ==> init[k] == days[k];
      PerformancesFor(ts, init) + [Performance(days[|days| - 1], TradesOn(ts, days[|days| - 1]))]
  }

  /** Reference description of `calculateDailyPerformance`. */
  function DailyPerformances(ts: seq<Trade>): seq<DailyPerformance> {
    PerformancesFor(ts, DistinctDays(ts))
  }

  /** `calculateDailyPerformance(trades)`: group, then map each (day, trades) entry to its performance. */
  method CalculateDailyPerformance(ts: seq<Trade>) returns (perfs: seq<DailyPerformance>)
    ensures perfs == DailyPerformances(ts)
  {
    var keys, groups := GroupByDay(ts);
    assert forall k :: 0 <= k < |keys| ==> keys[k] in groups && groups[keys[k]] == TradesOn(ts, keys[k]);
    perfs := seq(|keys|, k requires 0 <= k < |keys| => Performance(keys[k], groups[keys[k]]));
  }

  /**
   * One record per distinct day, in first-seen order; each holds exactly that day's
   * trades in feed order, never none, and the totals of those trades.
   */
  lemma DailyPerformanceShape(ts: seq<Trade>)
    ensures var ps, days := DailyPerformances(ts), DistinctDays(ts);
      && |ps| == |days|
      && (forall k :: 0 <= k < |ps| ==> ps[k].date == days[k] && ps[k].trades == TradesOn(ts, days[k]))
      && (forall k :: 0 <= k < |ps| ==> ps[k].trades != [])
      && (forall k, m :: 0 <= k < m < |ps| ==> ps[k].date != ps[m].date)
      && (forall k :: 0 <= k < |ps| ==> ps[k].totalInvested == Total(ps[k].trades, TotalBuyPrice()))
      && (forall k :: 0 <= k < |ps| ==> ps[k].netProfit == Total(ps[k].trades, NetTotal()))
  {
    var ps, days := DailyPerformances(ts), DistinctDays(ts);
    forall k | 0 <= k < |ps|
      ensures ps[k].trades != []
    {
      assert days[k] in days;
      var i :| 0 <= i < |ts| && ts[i].date == days[k];
      assert ts[i] in TradesOn(ts, days[k]);
    }
  }

  /** Every trade sits in the record of its own day, and a record holds only trades of its day. */
  lemma TradeInItsDay(ts: seq<Trade>, i: nat)
    requires i < |ts|
    ensures var ps := DailyPerformances(ts);
      exists k :: 0 <= k < |ps| && ps[k].date == ts[i].date && ts[i] in ps[k].trades
    ensures var ps := DailyPerformances(ts);
      forall k, j :: 0 <= k < |ps| && 0 <= j < |ps[k].trades| ==> ps[k].trades[j].date == ps[k].date
  {
    var ps, days := DailyPerformances(ts), DistinctDays(ts);
    assert ts[i].date in days;
    var k :| 0 <= k < |days| && days[k] == ts[i].date;
    assert ts[i] in ps[k].trades;
  }

  /** Within a day the trades keep their feed order: they are ts at increasing positions, all of that day's. */
  lemma DayKeepsFeedOrder(ts: seq<Trade>, d: Day)
    ensures var g, idx := TradesOn(ts, d), KeptIndices(ts, OnDay(d));
      && |g| == |idx| && Increasing(idx)
      && (forall k :: 0 <= k < |g| ==> idx[k] < |ts| && g[k] == ts[idx[k]])
      && (forall i :: 0 <= i < |ts| ==> (ts[i].date == d <==> i in idx))
  {
    KeepSelects(ts, OnDay(d));
  }

  /** The days come in the order of their first trades. */
  lemma {:induction false} FirstSeenOrder(ts: seq<Trade>)
    ensures forall a, b :: 0 <= a < b < |DistinctDays(ts)| ==>
      FirstIndexOf(ts, DistinctDays(ts)[a]) < FirstIndexOf(ts, DistinctDays(ts)[b]) < |ts|
  {
    if ts != [] {
      var init, t := ts[..|ts| - 1], ts[|ts| - 1];
      assert ts == init + [t];
      FirstSeenOrder(init);
      var days, d0 := DistinctDays(ts), DistinctDays(init);
      forall a | 0 <= a < |d0|
        ensures FirstIndexOf(ts, d0[a]) == FirstIndexOf(init, d0[a]) < |init|
      {
        assert d0[a] in d0;
        var i :| 0 <= i < |init| && init[i].date == d0[a];
        FirstIndexPrefix(init, t, d0[a]);
      }
      if t.date in d0 {
        assert days == d0;
      } else {
        assert days == d0 + [t.date];
        assert FirstIndexOf(init, t.date) == |init|;
        FirstIndexPrefix(init, t, t.date);
        forall a, b | 0 <= a < b < |days|
          ensures FirstIndexOf(ts, days[a]) < FirstIndexOf(ts, days[b]) < |ts|
        {
          assert days[a] == d0[a];
          if b < |d0| {
            assert days[b] == d0[b];
          } else {
            assert days[b] == t.date;
          }
        }
      }
    }
  }

  /** Appending a trade does not move a day's first trade, and a new day starts at the end. */
  lemma FirstIndexPrefix(init: seq<Trade>, t: Trade, d: Day)
    ensures FirstIndexOf(init, d) < |init| ==> FirstIndexOf(init + [t], d) == FirstIndexOf(init, d)
    ensures FirstIndexOf(init, d) == |init| && t.date == d ==> FirstIndexOf(init + [t], d) == |init|
  {
    var s := init + [t];
    assert forall j :: 0 <= j < |init| ==> s[j] == init[j];
    assert s[|init|] == t;
  }

  /** The first trade of a day's group is the day's first trade in the feed. */
  lemma {:induction false} FirstOfGroup(ts: seq<Trade>, d: Day)
    requires FirstIndexOf(ts, d) < |ts|
    ensures TradesOn(ts, d) != [] && TradesOn(ts, d)[0] == ts[FirstIndexOf(ts, d)]
  {
    var init, t := ts[..|ts| - 1], ts[|ts| - 1];
    assert ts == init + [t];
    KeepSnoc(init, t, OnDay(d));
    FirstIndexPrefix(init, t, d);
    if FirstIndexOf(init, d) < |init| {
      FirstOfGroup(init, d);
      assert ts[FirstIndexOf(init, d)] == init[FirstIndexOf(init, d)];
    } else {
      forall j | 0 <= j < |init|
        ensures init[j].date != d
      {
        assert init[j] == ts[j];
      }
      assert d !in DistinctDays(init);
      NoTradesOn(init, d);
    }
  }

  // ---------------------------------------------------------------------
  // Conservation: the groups split the trades, and the daily totals add up
  // ---------------------------------------------------------------------

  /** The trades of the given days, day after day. */
  function Flatten(ts: seq<Trade>, days: seq<Day>): seq<Trade> {
    if days == [] then [] else Flatten(ts, days[..|days| - 1]) + TradesOn(ts, days[|days| - 1])
  }

  /** The sum over the given days of each day's total. */
  function GroupTotals(ts: seq<Trade>, days: seq<Day>, amount: Trade -> Number): Number {
    if days == [] then Finite(0.0)
    else Plus(GroupTotals(ts, days[..|days| - 1], amount), Total(TradesOn(ts, days[|days| - 1]), amount))
  }

  predicate Distinct(days: seq<Day>) { forall i, j :: 0 <= i < j < |days| ==> days[i] != days[j] }

  lemma TotalSnoc(ts: seq<Trade>, t: Trade, amount: Trade -> Number)
    ensures Total(ts + [t], amount) == Plus(Total(ts, amount), amount(t))
  {
    assert (ts + [t])[..|ts|] == ts;
  }

  lemma PlusRegroup(a: Number, b: Number, c: Number)
    ensures Plus(a, Plus(b, c)) == Plus(Plus(a, b), c)
    ensures Plus(Plus(a, b), c) == Plus(Plus(a, c), b)
  {
  }

  /** Dropping the last day keeps the days distinct, and the last day is not among the others. */
  lemma DistinctInit(days: seq<Day>)
    requires Distinct(days) && days != []
    ensures Distinct(days[..|days| - 1]) && days[|days| - 1] !in days[..|days| - 1]
  {
  }

  /** The trades of one more day follow the trades of the days before. */
  lemma FlattenSnocDay(ts: seq<Trade>, days: seq<Day>, e: Day)
    ensures Flatten(ts, days + [e]) == Flatten(ts, days) + TradesOn(ts, e)
  {
    assert (days + [e])[..|days|] == days;
  }

  lemma GroupTotalsSnocDay(ts: seq<Trade>, days: seq<Day>, e: Day, amount: Trade -> Number)
    ensures GroupTotals(ts, days + [e], amount) == Plus(GroupTotals(ts, days, amount), Total(TradesOn(ts, e), amount))
  {
    assert (days + [e])[..|days|] == days;
  }

  lemma TotalSingle(t: Trade, amount: Trade -> Number)
    ensures Total([t], amount) == Plus(Finite(0.0), amount(t))
  {
    TotalSnoc([], t, amount);
    assert [] + [t] == [t];
  }

  /** A trade appended to the feed shows up once, in its day's group, if its day is listed. */
  lemma {:induction false} FlattenSnoc(ts: seq<Trade>, t: Trade, days: seq<Day>)
    requires Distinct(days)
    ensures multiset(Flatten(ts + [t], days))
      == multiset(Flatten(ts, days)) + (if t.date in days then multiset{t} else multiset{})
  {
    if days != [] {
      var init, e := days[..|days| - 1], days[|days| - 1];
      DistinctInit(days);
      FlattenSnoc(ts, t, init);
      KeepSnoc(ts, t, OnDay(e));
    }
  }

  /** ... and its amount is added once to the sum of the daily totals. */
  lemma {:induction false} GroupTotalsSnoc(ts: seq<Trade>, t: Trade, days: seq<Day>, amount: Trade -> Number)
    requires Distinct(days)
    ensures GroupTotals(ts + [t], days, amount)
      == if t.date in days then Plus(GroupTotals(ts, days, amount), amount(t)) else GroupTotals(ts, days, amount)
  {
    if days != [] {
      var init, e := days[..|days| - 1], days[|days| - 1];
      assert days == init + [e];
      GroupTotalsSnoc(ts, t, init, amount);
      var g, g' := GroupTotals(ts, init, amount), GroupTotals(ts + [t], init, amount);
      var h, h' := Total(TradesOn(ts, e), amount), Total(TradesOn(ts + [t], e), amount);
      var x := amount(t);
      assert GroupTotals(ts + [t], days, amount) == Plus(g', h');
      assert GroupTotals(ts, days, amount) == Plus(g, h);
      KeepSnoc(ts, t, OnDay(e));
      if t.date == e {
        assert t.date !in init;
        TotalSnoc(TradesOn(ts, e), t, amount);
        PlusRegroup(g, h, x);
      } else {
        assert TradesOn(ts + [t], e) == TradesOn(ts, e) + [] == TradesOn(ts, e);
        if t.date in init {
          PlusRegroup(g, x, h);
        }
      }
    }
  }

  /** A new day's group is the one trade that opened it. */
  lemma NewDayGroup(init: seq<Trade>, t: Trade)
    requires t.date !in DistinctDays(init)
    ensures DistinctDays(init + [t]) == DistinctDays(init) + [t.date]
    ensures TradesOn(init + [t], t.date) == [t]
  {
    assert (init + [t])[..|init|] == init;
    NoTradesOn(init, t.date);
    KeepSnoc(init, t, OnDay(t.date));
  }

  /** The groups partition the trades: together they hold the feed, every trade exactly once. */
  lemma {:induction false} GroupsPartition(ts: seq<Trade>)
    ensures multiset(Flatten(ts, DistinctDays(ts))) == multiset(ts)
  {
    if ts != [] {
      var init, t := ts[..|ts| - 1], ts[|ts| - 1];
      assert ts == init + [t];
      GroupsPartition(init);
      var d0 := DistinctDays(init);
      DistinctDaysSnoc(init, t);
      FlattenSnoc(init, t, d0);
      if t.date !in d0 {
        NewDayGroup(init, t);
        FlattenSnocDay(ts, d0, t.date);
      }
    }
  }

  /**
   * The daily totals add up to the total over all trades (NaN included: a NaN amount
   * makes both sides NaN).
   */
  lemma {:induction false} GroupTotalsAddUp(ts: seq<Trade>, amount: Trade -> Number)
    ensures GroupTotals(ts, DistinctDays(ts), amount) == Total(ts, amount)
  {
    if ts != [] {
      var init, t := ts[..|ts| - 1], ts[|ts| - 1];
      assert ts == init + [t];
      GroupTotalsAddUp(init, amount);
      var d0 := DistinctDays(init);
      DistinctDaysSnoc(init, t);
      GroupTotalsSnoc(init, t, d0, amount);
      TotalSnoc(init, t, amount);
      if t.date !in d0 {
        NewDayGroup(init, t);
        GroupTotalsSnocDay(ts, d0, t.date, amount);
        TotalSingle(t, amount);
      }
    }
  }

  /** All the trades of some records, record after record. */
  function AllTrades(ps: seq<DailyPerformance>): seq<Trade> {
    if ps == [] then [] else AllTrades(ps[..|ps| - 1]) + ps[|ps| - 1].trades
  }

  /** The sum of one numeric field over the records. */
  function SumOf(ps: seq<DailyPerformance>, field: DailyPerformance -> Number): Number {
    if ps == [] then Finite(0.0) else Plus(SumOf(ps[..|ps| - 1], field), field(ps[|ps| - 1]))
  }

  function Invested(): DailyPerformance -> Number { (p: DailyPerformance) => p.totalInvested }

  function NetProfit(): DailyPerformance -> Number { (p: DailyPerformance) => p.netProfit }

  lemma {:induction false} PerformancesForParts(ts: seq<Trade>, days: seq<Day>)
    ensures AllTrades(PerformancesFor(ts, days)) == Flatten(ts, days)
    ensures SumOf(PerformancesFor(ts, days), Invested()) == GroupTotals(ts, days, TotalBuyPrice())
    ensures SumOf(PerformancesFor(ts, days), NetProfit()) == GroupTotals(ts, days, NetTotal())
  {
    if days != [] {
      var init := days[..|days| - 1];
      PerformancesForParts(ts, init);
      var ps := PerformancesFor(ts, days);
      assert ps[..|ps| - 1] == PerformancesFor(ts, init);
    }
  }

  /**
   * The daily records hold every trade exactly once, and the daily invested and net
   * totals add up to the totals over all trades.
   */
  lemma DailyTotalsConserved(ts: seq<Trade>)
    ensures multiset(AllTrades(DailyPerformances(ts))) == multiset(ts)
    ensures SumOf(DailyPerformances(ts), Invested()) == Total(ts, TotalBuyPrice())
    ensures SumOf(DailyPerformances(ts), NetProfit()) == Total(ts, NetTotal())
  {
    PerformancesForParts(ts, DistinctDays(ts));
    GroupsPartition(ts);
    GroupTotalsAddUp(ts, TotalBuyPrice());
    GroupTotalsAddUp(ts, NetTotal());
  }

  // ---------------------------------------------------------------------
  // Calendar events
  // ---------------------------------------------------------------------

  /**
   * A calendar event. `trade` is `perf.trades[0]`, which is undefined for a record
   * without trades.
   */
  datatype CalendarEvent = CalendarEvent(
    title: string,
    start: Day,
    end: Day,
    trade: Option<Trade>,
    performance: DailyPerformance)

  /**
   * The event title. `percentText` stands for `toFixed(2)` on the percentage and
   * `amountText` for the template rendering of the net profit.
   */
  function EventTitle(perf: DailyPerformance, percentText: Quotient -> string, amountText: Number -> string): string {
    "Daily P&L: " + percentText(perf.netProfitPercent) + "% ($" + amountText(perf.netProfit) + ")"
  }

  function FirstTrade(perf: DailyPerformance): Option<Trade> {
    if perf.trades == [] then None else Some(perf.trades[0])
  }

  /** `performanceToEvents(performances)`: one all-day event per record. */
  function PerformanceToEvents(perfs: seq<DailyPerformance>, percentText: Quotient -> string, amountText: Number -> string)
    : (r: seq<CalendarEvent>)
    ensures |r| == |perfs|
    ensures forall k :: 0 <= k < |r| ==> r[k].performance == perfs[k]
    ensures forall k :: 0 <= k < |r| ==> r[k].start == perfs[k].date && r[k].end == perfs[k].date
    ensures forall k :: 0 <= k < |r| ==> (r[k].trade.Some? <==> perfs[k].trades != [])
    ensures forall k :: 0 <= k < |r| && perfs[k].trades != [] ==> r[k].trade.value == perfs[k].trades[0]
  {
    seq(|perfs|, k requires 0 <= k < |perfs| =>
      CalendarEvent(EventTitle(perfs[k], percentText, amountText), perfs[k].date, perfs[k].date, FirstTrade(perfs[k]), perfs[k]))
  }

  /**
   * The events of a trade list: one per distinct day, in first-seen order, starting and
   * ending on that day, carrying the day's first trade in the feed and the day's record.
   */
  lemma EventsOfTrades(ts: seq<Trade>, percentText: Quotient -> string, amountText: Number -> string)
    ensures var evs, days := PerformanceToEvents(DailyPerformances(ts), percentText, amountText), DistinctDays(ts);
      && |evs| == |days|
      && (forall k :: 0 <= k < |evs| ==> evs[k].start == days[k] && evs[k].end == days[k])
      && (forall k :: 0 <= k < |evs| ==> FirstIndexOf(ts, days[k]) < |ts| && evs[k].trade == Some(ts[FirstIndexOf(ts, days[k])]))
      && (forall k :: 0 <= k < |evs| ==> evs[k].performance.trades == TradesOn(ts, days[k]))
  {
    var ps, days := DailyPerformances(ts), DistinctDays(ts);
    var evs := PerformanceToEvents(ps, percentText, amountText);
    forall k | 0 <= k < |evs|
      ensures FirstIndexOf(ts, days[k]) < |ts| && evs[k].trade == Some(ts[FirstIndexOf(ts, days[k])])
    {
      assert days[k] in days;
      var i :| 0 <= i < |ts| && ts[i].date == days[k];
      FirstOfGroup(ts, days[k]);
    }
  }
}
