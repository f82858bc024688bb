/**
 The canonical metrics derived from a trade ledger: equity and gross products, drawdown,
 win rate, profit factor and expectancy, over reals. The ratios that need a standard
 deviation or a calendar span are not part of this model.
 */
module LedgerMetrics {
  import opened Options
  import opened Sequences

  const ROUNDTRIP: real := 0.004
  const SIZE: real := 0.10
  const FLOOR: real := -1000000000.0
  const PROFIT_FACTOR_CAP: real := 5.0

  datatype Trade = Trade(pnlPct: real, entryTime: real)

  datatype Metrics = Metrics(
    count: nat, totalReturn: real, grossEdge: real, costBurden: real, maxDrawdown: real,
    winRate: real, profitFactor: real, expectancy: real)

  /** The empty ledger has a report of its own; a zero equity peak makes the drawdown divide by zero. */
  datatype Outcome = NoTrades | DivisionByZero | Computed(metrics: Metrics)

  function Clip(x: real, lo: real, hi: real): real {
    var m := if x <= hi then x else hi;
    if m >= lo then m else lo
  }

  function MaxOf(x: real, y: real): real {
    if x >= y then x else y
  }

  function MinOf(x: real, y: real): real {
    if x <= y then x else y
  }

  /** Net return of one trade, scaled by the position size. */
  function Net(pnlPct: real): real {
    (pnlPct - ROUNDTRIP) * SIZE
  }

  function Gross(pnlPct: real): real {
    pnlPct * SIZE
  }

  function ByEntry(): (Trade, Trade) -> bool {
    (x: Trade, y: Trade) => x.entryTime <= y.entryTime
  }

  function Pnls(trades: seq<Trade>): seq<real> {
    Map((t: Trade) => t.pnlPct, trades)
  }

  function NetReturns(trades: seq<Trade>): seq<real> {
    Map(Net, Pnls(trades))
  }

  function GrossReturns(trades: seq<Trade>): seq<real> {
    Map(Gross, Pnls(trades))
  }

  function Grown(value: real, x: real): real {
    value * (1.0 + x)
  }

  /** The compounded value of a sequence of returns. */
  function Growth(rs: seq<real>): real {
    if rs == [] then 1.0 else Grown(Growth(rs[..|rs| - 1]), rs[|rs| - 1])
  }

  /** The equity after each trade. */
  function Curve(rs: seq<real>): seq<real> {
    seq(|rs|, i requires 0 <= i < |rs| => Growth(rs[..i + 1]))
  }

  function Sum(s: seq<real>): real {
    if s == [] then 0.0 else Sum(s[..|s| - 1]) + s[|s| - 1]
  }

  const WINNING: real -> bool := (x: real) => x > 0.0

  const LOSING: real -> bool := (x: real) => x < 0.0

  function Abs(x: real): real {
    if x < 0.0 then -x else x
  }

  lemma {:induction false} SignedSum(s: seq<real>)
    ensures (forall i :: 0 <= i < |s| ==> s[i] > 0.0) && s != [] ==> Sum(s) > 0.0
    ensures (forall i :: 0 <= i < |s| ==> s[i] < 0.0) && s != [] ==> Sum(s) < 0.0
  {
    if |s| > 1 {
      SignedSum(s[..|s| - 1]);
    }
  }

  lemma LossesSumBelowZero(rs: seq<real>)
    ensures Filter(LOSING, rs) != [] ==> Sum(Filter(LOSING, rs)) < 0.0
    ensures Filter(WINNING, rs) != [] ==> Sum(Filter(WINNING, rs)) > 0.0
  {
    var losses, wins := Filter(LOSING, rs), Filter(WINNING, rs);
    forall i | 0 <= i < |losses| ensures losses[i] < 0.0 {
      FilterAt(LOSING, rs, i);
    }
    forall i | 0 <= i < |wins| ensures wins[i] > 0.0 {
      FilterAt(WINNING, rs, i);
    }
    SignedSum(losses);
    SignedSum(wins);
  }

  /** Sum of the wins over the sum of the losses, capped at 5. */
  function ProfitFactor(rs: seq<real>): real {
    var wins, losses := Filter(WINNING, rs), Filter(LOSING, rs);
    LossesSumBelowZero(rs);
    var pf := if losses != [] then Sum(wins) / Abs(Sum(losses))
              else if wins != [] then PROFIT_FACTOR_CAP else 0.0;
    MinOf(pf, PROFIT_FACTOR_CAP)
  }

  // ------------------------------------------------------------------ drawdown

  /** The running peak over the first `n` points. */
  function Peak(curve: seq<real>, n: nat): real
    requires n <= |curve|
  {
    if n == 0 then FLOOR else MaxOf(Peak(curve, n - 1), curve[n - 1])
  }

  /** The loop reaches a point where it divides by a peak of zero. */
  ghost predicate PeaksAtZero(curve: seq<real>) {
    exists n :: 0 < n <= |curve| && Peak(curve, n) == 0.0
  }

  /** The running minimum of the drops from the peak. */
  function Drop(curve: seq<real>, n: nat): real
    requires n <= |curve|
    requires forall m :: 0 < m <= n ==> Peak(curve, m) != 0.0
  {
    if n == 0 then 0.0
    else MinOf(Drop(curve, n - 1), curve[n - 1] / Peak(curve, n) - 1.0)
  }

  lemma {:induction false} PeakSign(curve: seq<real>, n: nat)
    requires n <= |curve|
    ensures Peak(curve, n) <= 0.0 <==> forall i :: 0 <= i < n ==> curve[i] <= 0.0
    ensures Peak(curve, n) == 0.0 ==> exists i :: 0 <= i < n && curve[i] == 0.0
  {
    if n > 0 {
      PeakSign(curve, n - 1);
    }
  }

  /** Some point is zero, and none before it is positive. */
  ghost predicate ZeroBeforeGain(curve: seq<real>) {
    exists i :: 0 <= i < |curve| && curve[i] == 0.0 && forall j :: 0 <= j < i ==> curve[j] <= 0.0
  }

  /** The loop divides by zero exactly when some point is zero and no point before it is positive. */
  lemma ZeroPeak(curve: seq<real>)
    ensures PeaksAtZero(curve) <==> ZeroBeforeGain(curve)
  {
    if n :| 0 < n <= |curve| && Peak(curve, n) == 0.0 {
      PeakSign(curve, n);
      var i :| 0 <= i < n && curve[i] == 0.0;
      assert forall j :: 0 <= j < i ==> curve[j] <= 0.0;
    }
    if i :| 0 <= i < |curve| && curve[i] == 0.0 && forall j :: 0 <= j < i ==> curve[j] <= 0.0 {
      PeakSign(curve, i);
      assert Peak(curve, i + 1) == 0.0;
    }
  }

  predicate Positive(curve: seq<real>) {
    forall i :: 0 <= i < |curve| ==> curve[i] > 0.0
  }

  /** `d` is the deepest relative fall from any point to any later one. */
  ghost predicate IsDeepestFall(curve: seq<real>, d: real)
    requires Positive(curve)
  {
    && (forall i, j :: 0 <= i <= j < |curve| ==> d <= curve[j] / curve[i] - 1.0)
    && (curve != [] ==> exists i, j :: 0 <= i <= j < |curve| && d == curve[j] / curve[i] - 1.0)
  }

  /** The one-pass peak loop and the final clip. */
  method MaxDrawdown(curve: seq<real>) returns (r: Option<real>)
    ensures r.None? <==> PeaksAtZero(curve)
    ensures r.None? <==> ZeroBeforeGain(curve)
    ensures r.Some? ==> r.value == Clip(Drop(curve, |curve|), -1.0, 0.0) && -1.0 <= r.value <= 0.0
    ensures Positive(curve) ==> r.Some? && IsDeepestFall(curve, r.value) && -1.0 < r.value <= 0.0
  {
    ZeroPeak(curve);
    var peak, mdd := FLOOR, 0.0;
    for i := 0 to |curve|
      invariant forall n :: 0 < n <= i ==> Peak(curve, n) != 0.0
      invariant peak == Peak(curve, i) && mdd == Drop(curve, i)
    {
      var v := curve[i];
      peak := MaxOf(peak, v);
      if Positive(curve) {
        PositivePeak(curve, i + 1);
      }
      if peak == 0.0 {
        assert Peak(curve, i + 1) == 0.0;
        return None;
      }
      mdd := MinOf(mdd, v / peak - 1.0);
    }
    if Positive(curve) {
      DropIsDeepestFall(curve);
    }
    r := Some(Clip(mdd, -1.0, 0.0));
  }

  /** On a positive curve the peak is a point of the curve, at least every earlier point. */
  lemma {:induction false} PositivePeak(curve: seq<real>, n: nat)
    requires Positive(curve) && 0 < n <= |curve|
    ensures Peak(curve, n) > 0.0
    ensures forall i :: 0 <= i < n ==> curve[i] <= Peak(curve, n)
    ensures exists i :: 0 <= i < n && curve[i] == Peak(curve, n)
  {
    if n > 1 {
      PositivePeak(curve, n - 1);
    }
    if Peak(curve, n) == curve[n - 1] {
    } else {
      var i :| 0 <= i < n - 1 && curve[i] == Peak(curve, n - 1);
    }
  }

  lemma QuotientOrder(v: real, x: real, y: real)
    requires 0.0 < x <= y && 0.0 < v
    ensures 0.0 < v / y <= v / x
  {
    var a, b := v / x, v / y;
    assert a * x == v && b * y == v;
    if a < b {
      ProductOrder(a, b, x);
      ProductOrder(x, y, b);
    }
  }

  lemma ProductOrder(a: real, b: real, c: real)
    requires c > 0.0
    ensures a < b ==> a * c < b * c
    ensures a <= b ==> a * c <= b * c && c * a <= c * b
  {
  }

  /** No earlier point makes the latest point fall deeper than the peak does. */
  lemma LatestFall(curve: seq<real>, n: nat) returns (k: nat)
    requires Positive(curve) && 0 < n <= |curve|
    ensures k < n && Peak(curve, n) == curve[k] && curve[k] > 0.0
    ensures forall i :: 0 <= i < n ==> curve[n - 1] / curve[k] <= curve[n - 1] / curve[i]
    ensures curve[n - 1] / curve[k] > 0.0
  {
    PositivePeak(curve, n);
    k :| 0 <= k < n && curve[k] == Peak(curve, n);
    forall i | 0 <= i < n ensures curve[n - 1] / curve[k] <= curve[n - 1] / curve[i] {
      QuotientOrder(curve[n - 1], curve[i], curve[k]);
    }
    QuotientOrder(curve[n - 1], curve[k], curve[k]);
  }

  /** Relative change from one point of the curve to another. */
  function FallOf(curve: seq<real>): (int, int) -> real {
    (i: int, j: int) =>
      if 0 <= i < |curve| && 0 <= j < |curve| && curve[i] != 0.0 then curve[j] / curve[i] - 1.0 else 0.0
  }

  lemma SelfQuotient(x: real)
    requires x != 0.0
    ensures x / x == 1.0
  {
    assert x / x * x == x;
  }

  /** `d` is the deepest fall within the first `n` points. */
  ghost predicate Deepest(fall: (int, int) -> real, n: nat, d: real) {
    && -1.0 < d <= 0.0
    && (forall i, j :: 0 <= i <= j < n ==> d <= fall(i, j))
    && (n > 0 ==> exists i, j :: 0 <= i <= j < n && d == fall(i, j))
  }

  lemma DeepestStep(fall: (int, int) -> real, last: nat, before: real, k: nat)
    requires Deepest(fall, last, before)
    requires last == 0 ==> before == 0.0 && fall(0, 0) == 0.0
    requires k <= last && fall(k, last) > -1.0
    requires forall i :: 0 <= i <= last ==> fall(k, last) <= fall(i, last)
    ensures Deepest(fall, last + 1, MinOf(before, fall(k, last)))
  {
    if last > 0 && before < fall(k, last) {
      var i, j :| 0 <= i <= j < last && before == fall(i, j);
    }
  }

  /** The drop after `n` points is the deepest fall among them. */
  lemma {:induction false} DropSoFar(curve: seq<real>, n: nat)
    requires Positive(curve) && n <= |curve|
    ensures forall m :: 0 < m <= n ==> Peak(curve, m) != 0.0
    ensures Deepest(FallOf(curve), n, Drop(curve, n))
  {
    if n > 0 {
      DropSoFar(curve, n - 1);
      var k := LatestFall(curve, n);
      var fall, last := FallOf(curve), n - 1;
      forall i | 0 <= i <= last ensures fall(k, last) <= fall(i, last) {
        assert curve[last] / curve[k] <= curve[last] / curve[i];
      }
      SelfQuotient(curve[0]);
      DeepestStep(fall, last, Drop(curve, last), k);
      assert Drop(curve, n) == MinOf(Drop(curve, last), fall(k, last));
    }
  }

  lemma DropIsDeepestFall(curve: seq<real>)
    requires Positive(curve)
    ensures forall m :: 0 < m <= |curve| ==> Peak(curve, m) != 0.0
    ensures IsDeepestFall(curve, Drop(curve, |curve|)) && -1.0 < Drop(curve, |curve|) <= 0.0
  {
    DropSoFar(curve, |curve|);
    var fall, d := FallOf(curve), Drop(curve, |curve|);
    forall i, j | 0 <= i <= j < |curve| ensures d <= curve[j] / curve[i] - 1.0 {
      assert d <= fall(i, j);
    }
    if curve != [] {
      var i, j :| 0 <= i <= j < |curve| && d == fall(i, j);
    }
  }

  // ------------------------------------------------------------------ the metrics

  /** `compute_ledger_metrics` over trades in order of entry. */
  function MetricsOf(rs: seq<real>, gross: seq<real>, maxDrawdown: real): Metrics
    requires rs != []
  {
    var totalReturn, grossEdge := Growth(rs) - 1.0, Growth(gross) - 1.0;
    Metrics(|rs|, totalReturn, grossEdge, grossEdge - totalReturn, maxDrawdown,
            |Filter(WINNING, rs)| as real / |rs| as real, ProfitFactor(rs), Sum(rs) / |rs| as real)
  }

  /** The loop that builds the equity curve. */
  method BuildCurve(rs: seq<real>) returns (eq: seq<real>)
    ensures eq == Curve(rs)
  {
    var e := 1.0;
    eq := [];
    for i := 0 to |rs|
      invariant e == Growth(rs[..i]) && |eq| == i
      invariant forall j :: 0 <= j < i ==> eq[j] == Growth(rs[..j + 1])
    {
      assert rs[..i + 1][..i] == rs[..i];
      e := e * (1.0 + rs[i]);
      eq := eq + [e];
    }
  }

  /** The loop that compounds the gross returns. */
  method Compound(rs: seq<real>) returns (ge: real)
    ensures ge == Growth(rs)
  {
    ge := 1.0;
    for i := 0 to |rs|
      invariant ge == Growth(rs[..i])
    {
      assert rs[..i + 1][..i] == rs[..i];
      ge := ge * (1.0 + rs[i]);
    }
    assert rs[..|rs|] == rs;
  }

  /** The figures of trades that are already in order of entry. */
  method ReportSorted(tr: seq<Trade>) returns (outcome: Outcome)
    requires tr != []
    ensures !outcome.NoTrades?
    ensures outcome.DivisionByZero? <==> PeaksAtZero(Curve(NetReturns(tr)))
    ensures var rs := NetReturns(tr);
      outcome.Computed? ==>
        outcome.metrics == MetricsOf(rs, GrossReturns(tr), Clip(Drop(Curve(rs), |rs|), -1.0, 0.0))
    ensures var curve := Curve(NetReturns(tr));
      Positive(curve) ==>
        && outcome.Computed? && IsDeepestFall(curve, outcome.metrics.maxDrawdown)
        && -1.0 < outcome.metrics.maxDrawdown <= 0.0
  {
    var r, g := NetReturns(tr), GrossReturns(tr);
    var eq := BuildCurve(r);
    assert r[..|r|] == r;
    var totalReturn := eq[|r| - 1] - 1.0;
    var ge := Compound(g);
    var grossEdge := ge - 1.0;
    var mdd := MaxDrawdown(eq);
    if mdd.None? {
      return DivisionByZero;
    }
    var wins := Filter(WINNING, r);
    return Computed(Metrics(|r|, totalReturn, grossEdge, grossEdge - totalReturn, mdd.value,
                            |wins| as real / |r| as real, ProfitFactor(r), Sum(r) / |r| as real));
  }

  method ComputeLedgerMetrics(trades: seq<Trade>) returns (outcome: Outcome)
    ensures outcome.NoTrades? <==> trades == []
    ensures trades != [] ==>
      var tr := SortBy(ByEntry(), trades);
      var rs := NetReturns(tr);
      && (outcome.DivisionByZero? <==> PeaksAtZero(Curve(rs)))
      && (outcome.Computed? ==>
            outcome.metrics == MetricsOf(rs, GrossReturns(tr), Clip(Drop(Curve(rs), |rs|), -1.0, 0.0)))
    ensures var tr := SortBy(ByEntry(), trades);
      multiset(tr) == multiset(trades) && forall i, j :: 0 <= i < j < |tr| ==> tr[i].entryTime <= tr[j].entryTime
    ensures outcome.Computed? ==> Reports(trades, outcome.metrics)
    ensures outcome.Computed? ==>
      var m := outcome.metrics;
      && 0.0 <= m.winRate <= 1.0
      && (m.winRate == 1.0 <==> forall i :: 0 <= i < |trades| ==> trades[i].pnlPct > 0.004)
      && (m.winRate == 0.0 <==> forall i :: 0 <= i < |trades| ==> trades[i].pnlPct <= 0.004)
    ensures (forall i :: 0 <= i < |trades| ==> 1.0 + (trades[i].pnlPct - 0.004) * 0.10 > 0.0) && trades != [] ==>
      var curve := Curve(NetReturns(SortBy(ByEntry(), trades)));
      && outcome.Computed? && Positive(curve)
      && IsDeepestFall(curve, outcome.metrics.maxDrawdown) && -1.0 < outcome.metrics.maxDrawdown <= 0.0
  {
    InOrderOfEntry(trades);
    if trades == [] {
      return NoTrades;
    }
    SortedReport(trades);
    var tr := SortBy(ByEntry(), trades);
    if forall i :: 0 <= i < |trades| ==> 1.0 + (trades[i].pnlPct - 0.004) * 0.10 > 0.0 {
      SortedFactors(trades);
      CurvePositive(NetReturns(tr));
    }
    outcome := ReportSorted(tr);
    if outcome.Computed? {
      WinRateExtremes(trades, outcome.metrics);
    }
  }

  // ------------------------------------------------- the report, trade by trade

  /** What one unit becomes over the trades, each on a tenth of it and at the given cost. */
  function Compounded(trades: seq<Trade>, cost: real): real {
    if trades == [] then 1.0
    else Compounded(trades[..|trades| - 1], cost) * (1.0 + (trades[|trades| - 1].pnlPct - cost) * 0.10)
  }

  function TotalPnl(trades: seq<Trade>): real {
    if trades == [] then 0.0 else TotalPnl(trades[..|trades| - 1]) + trades[|trades| - 1].pnlPct
  }

  /** The net gains of the trades that earn more than their cost of 0.004. */
  function Gains(trades: seq<Trade>): real {
    if trades == [] then 0.0
    else
      var p := trades[|trades| - 1].pnlPct;
      Gains(trades[..|trades| - 1]) + if p > 0.004 then (p - 0.004) * 0.10 else 0.0
  }

  /** The net losses of the trades that earn less. */
  function Losses(trades: seq<Trade>): real {
    if trades == [] then 0.0
    else
      var p := trades[|trades| - 1].pnlPct;
      Losses(trades[..|trades| - 1]) + if p < 0.004 then (0.004 - p) * 0.10 else 0.0
  }

  ghost function Winners(trades: seq<Trade>): set<int> {
    set i | 0 <= i < |trades| && trades[i].pnlPct > 0.004
  }

  /** Profit over loss, capped at 5; without a loss it is 5 or, without a profit either, 0. */
  ghost predicate IsProfitFactor(trades: seq<Trade>, pf: real) {
    && Losses(trades) >= 0.0
    && (Losses(trades) == 0.0 ==> pf == if Gains(trades) > 0.0 then 5.0 else 0.0)
    && (Losses(trades) > 0.0 ==> pf == MinOf(Gains(trades) / Losses(trades), 5.0))
  }

  /** The share of the trades that earn more than their cost. */
  ghost predicate IsWinRate(trades: seq<Trade>, winRate: real) {
    winRate * |trades| as real == |Winners(trades)| as real
  }

  /** The mean return of the trades after cost, each on a tenth of the stake. */
  ghost predicate IsExpectancy(trades: seq<Trade>, expectancy: real) {
    expectancy * |trades| as real == 0.10 * (TotalPnl(trades) - 0.004 * |trades| as real)
  }

  /** The metrics other than the drawdown, in terms of the trades in whatever order. */
  ghost predicate Reports(trades: seq<Trade>, m: Metrics) {
    && m.count == |trades|
    && m.totalReturn == Compounded(trades, 0.004) - 1.0
    && m.grossEdge == Compounded(trades, 0.0) - 1.0
    && m.costBurden == Compounded(trades, 0.0) - Compounded(trades, 0.004)
    && IsWinRate(trades, m.winRate)
    && IsExpectancy(trades, m.expectancy)
    && IsProfitFactor(trades, m.profitFactor)
  }

  lemma {:induction false} InsertedMap<T>(f: T -> real, le: (T, T) -> bool, s: seq<T>, x: T)
    ensures multiset(Map(f, Insert(le, s, x))) == multiset(Map(f, s)) + multiset{f(x)}
  {
    if s == [] || le(s[|s| - 1], x) {
      assert Map(f, s + [x]) == Map(f, s) + [f(x)];
    } else {
      var init, last := s[..|s| - 1], s[|s| - 1];
      InsertedMap(f, le, init, x);
      assert Map(f, Insert(le, init, x) + [last]) == Map(f, Insert(le, init, x)) + [f(last)];
      assert Map(f, s) == Map(f, init) + [f(last)];
    }
  }

  /** Sorting rearranges whatever is computed per element. */
  lemma {:induction false} SortedMap<T>(f: T -> real, le: (T, T) -> bool, s: seq<T>)
    ensures multiset(Map(f, SortBy(le, s))) == multiset(Map(f, s))
  {
    if s != [] {
      var init, last := s[..|s| - 1], s[|s| - 1];
      SortedMap(f, le, init);
      InsertedMap(f, le, SortBy(le, init), last);
      assert Map(f, s) == Map(f, init) + [f(last)];
    }
  }

  lemma SortedReturns(trades: seq<Trade>)
    ensures multiset(NetReturns(SortBy(ByEntry(), trades))) == multiset(NetReturns(trades))
    ensures multiset(GrossReturns(SortBy(ByEntry(), trades))) == multiset(GrossReturns(trades))
  {
    var net, gross := (t: Trade) => Net(t.pnlPct), (t: Trade) => Gross(t.pnlPct);
    SortedMap(net, ByEntry(), trades);
    SortedMap(gross, ByEntry(), trades);
    var tr := SortBy(ByEntry(), trades);
    assert Map(net, tr) == NetReturns(tr) && Map(net, trades) == NetReturns(trades);
    assert Map(gross, tr) == GrossReturns(tr) && Map(gross, trades) == GrossReturns(trades);
  }

  function EnteredAt(time: real): Trade -> bool {
    (t: Trade) => t.entryTime == time
  }

  /** The sort puts the trades in ascending order of entry and keeps the order of those that enter together. */
  lemma InOrderOfEntry(trades: seq<Trade>)
    ensures var tr := SortBy(ByEntry(), trades);
      && multiset(tr) == multiset(trades)
      && (forall i, j :: 0 <= i < j < |tr| ==> tr[i].entryTime <= tr[j].entryTime)
      && (forall time :: Filter(EnteredAt(time), tr) == Filter(EnteredAt(time), trades))
  {
    SortMultiset(ByEntry(), trades);
    SortSorted(ByEntry(), trades);
    var tr := SortBy(ByEntry(), trades);
    assert forall i, j :: 0 <= i < j < |tr| ==> ByEntry()(tr[i], tr[j]);
    forall time ensures Filter(EnteredAt(time), tr) == Filter(EnteredAt(time), trades) {
      TogetherInOrder(trades, time);
    }
  }

  lemma TogetherInOrder(trades: seq<Trade>, time: real)
    ensures Filter(EnteredAt(time), SortBy(ByEntry(), trades)) == Filter(EnteredAt(time), trades)
  {
    var together := Filter(EnteredAt(time), trades);
    FilterSort(EnteredAt(time), ByEntry(), trades);
    FilterMembers(EnteredAt(time), trades);
    forall i | 0 <= i < |together| ensures together[i].entryTime == time {
      assert together[i] in together;
    }
    SortOfSorted(ByEntry(), together);
  }

  lemma SortedReport(trades: seq<Trade>)
    requires trades != []
    ensures var tr := SortBy(ByEntry(), trades);
      tr != [] && forall d :: Reports(trades, MetricsOf(NetReturns(tr), GrossReturns(tr), d))
  {
    var tr := SortBy(ByEntry(), trades);
    SortMultiset(ByEntry(), trades);
    SortedReturns(trades);
    forall d ensures Reports(trades, MetricsOf(NetReturns(tr), GrossReturns(tr), d)) {
      OrderDoesNotMatter(NetReturns(tr), NetReturns(trades), GrossReturns(tr), GrossReturns(trades), d);
      UnsortedReport(trades, d);
    }
  }

  lemma UnsortedReport(trades: seq<Trade>, d: real)
    requires trades != []
    ensures Reports(trades, MetricsOf(NetReturns(trades), GrossReturns(trades), d))
  {
    GrowthIsCompounded(trades);
    UnsortedWinRate(trades, d);
    ProfitIsGainsOverLosses(trades);
    UnsortedExpectancy(trades, d);
  }

  lemma UnsortedWinRate(trades: seq<Trade>, d: real)
    requires trades != []
    ensures IsWinRate(trades, MetricsOf(NetReturns(trades), GrossReturns(trades), d).winRate)
  {
    WinnersCounted(trades);
    QuotientTimes(|Winners(trades)| as real, |trades| as real);
  }

  lemma UnsortedExpectancy(trades: seq<Trade>, d: real)
    requires trades != []
    ensures IsExpectancy(trades, MetricsOf(NetReturns(trades), GrossReturns(trades), d).expectancy)
  {
    SumIsTotalPnl(trades);
    QuotientTimes(Sum(NetReturns(trades)), |trades| as real);
  }

  lemma QuotientTimes(x: real, n: real)
    requires n != 0.0
    ensures x / n * n == x
  {
  }

  lemma {:induction false} GrowthIsCompounded(trades: seq<Trade>)
    ensures Growth(NetReturns(trades)) == Compounded(trades, 0.004)
    ensures Growth(GrossReturns(trades)) == Compounded(trades, 0.0)
  {
    if trades != [] {
      var n := |trades| - 1;
      GrowthIsCompounded(trades[..n]);
      assert NetReturns(trades)[..n] == NetReturns(trades[..n]);
      assert GrossReturns(trades)[..n] == GrossReturns(trades[..n]);
    }
  }

  lemma {:induction false} SumIsTotalPnl(trades: seq<Trade>)
    ensures Sum(NetReturns(trades)) == 0.10 * (TotalPnl(trades) - 0.004 * |trades| as real)
  {
    if trades != [] {
      var n := |trades| - 1;
      SumIsTotalPnl(trades[..n]);
      assert NetReturns(trades)[..n] == NetReturns(trades[..n]);
    }
  }

  lemma WinnersCounted(trades: seq<Trade>)
    ensures |Filter(WINNING, NetReturns(trades))| == |Winners(trades)|
  {
    FilterCount(WINNING, NetReturns(trades));
    assert Selected(WINNING, NetReturns(trades)) == Winners(trades);
  }

  lemma {:induction false} WinsAndLosses(trades: seq<Trade>)
    ensures Sum(Filter(WINNING, NetReturns(trades))) == Gains(trades) >= 0.0
    ensures Sum(Filter(LOSING, NetReturns(trades))) == -Losses(trades) <= 0.0
  {
    var rs := NetReturns(trades);
    if trades != [] {
      var n := |trades| - 1;
      WinsAndLosses(trades[..n]);
      assert rs[..n] == NetReturns(trades[..n]);
      var wins, losses := Filter(WINNING, rs[..n]), Filter(LOSING, rs[..n]);
      assert (wins + [rs[n]])[..|wins|] == wins && (losses + [rs[n]])[..|losses|] == losses;
    }
  }

  lemma ProfitIsGainsOverLosses(trades: seq<Trade>)
    ensures IsProfitFactor(trades, ProfitFactor(NetReturns(trades)))
  {
    WinsAndLosses(trades);
    LossesSumBelowZero(NetReturns(trades));
  }

  lemma SortedFactors(trades: seq<Trade>)
    requires forall i :: 0 <= i < |trades| ==> 1.0 + (trades[i].pnlPct - 0.004) * 0.10 > 0.0
    ensures PositiveFactors(NetReturns(SortBy(ByEntry(), trades)))
  {
    var tr := SortBy(ByEntry(), trades);
    forall i | 0 <= i < |tr| ensures 1.0 + NetReturns(tr)[i] > 0.0 {
      SortAt(ByEntry(), trades, i);
    }
  }

  /** The win rate lies in [0, 1]; it is 1 exactly when every trade wins and 0 exactly when none does. */
  lemma WinRateExtremes(trades: seq<Trade>, m: Metrics)
    requires trades != [] && Reports(trades, m)
    ensures 0.0 <= m.winRate <= 1.0
    ensures m.winRate == 1.0 <==> forall i :: 0 <= i < |trades| ==> trades[i].pnlPct > 0.004
    ensures m.winRate == 0.0 <==> forall i :: 0 <= i < |trades| ==> trades[i].pnlPct <= 0.004
  {
    WinnerExtremes(trades);
    RatioExtremes(m.winRate, |Winners(trades)| as real, |trades| as real);
  }

  lemma WinnerExtremes(trades: seq<Trade>)
    ensures |Winners(trades)| <= |trades|
    ensures |Winners(trades)| == |trades| <==> forall i :: 0 <= i < |trades| ==> trades[i].pnlPct > 0.004
    ensures |Winners(trades)| == 0 <==> forall i :: 0 <= i < |trades| ==> trades[i].pnlPct <= 0.004
  {
    var rs := NetReturns(trades);
    WinnersCounted(trades);
    FilterExtremes(WINNING, rs);
    forall i | 0 <= i < |trades| ensures WINNING(rs[i]) <==> trades[i].pnlPct > 0.004 {
      assert rs[i] == (trades[i].pnlPct - 0.004) * 0.10;
    }
    if forall i :: 0 <= i < |trades| ==> trades[i].pnlPct > 0.004 {
      forall i | 0 <= i < |rs| ensures WINNING(rs[i]) {
        assert trades[i].pnlPct > 0.004;
      }
    }
    if forall i :: 0 <= i < |trades| ==> trades[i].pnlPct <= 0.004 {
      forall i | 0 <= i < |rs| ensures !WINNING(rs[i]) {
        assert trades[i].pnlPct <= 0.004;
      }
    }
  }

  lemma RatioExtremes(x: real, k: real, n: real)
    requires 0.0 < n && 0.0 <= k <= n && x * n == k
    ensures 0.0 <= x <= 1.0 && (x == 1.0 <==> k == n) && (x == 0.0 <==> k == 0.0)
  {
    ProductOrder(x, 0.0, n);
    ProductOrder(0.0, x, n);
    ProductOrder(x, 1.0, n);
    ProductOrder(1.0, x, n);
  }

  /** The expectancy is positive exactly when the mean trade earns more than its cost, and when profit exceeds loss. */
  lemma ExpectancySign(trades: seq<Trade>, m: Metrics)
    requires trades != [] && Reports(trades, m)
    ensures m.expectancy > 0.0 <==> TotalPnl(trades) > 0.004 * |trades| as real
    ensures m.expectancy > 0.0 <==> Gains(trades) > Losses(trades)
    ensures m.profitFactor > 1.0 <==> m.expectancy > 0.0
  {
    GainsLessLosses(trades);
    MeanSign(m.expectancy, |trades| as real, 0.10 * (TotalPnl(trades) - 0.004 * |trades| as real));
    GainsNotNegative(trades);
    ProfitFactorSign(trades, m.profitFactor);
  }

  lemma MeanSign(x: real, n: real, total: real)
    requires n > 0.0 && x * n == total
    ensures x > 0.0 <==> total > 0.0
  {
    if x > 0.0 {
      ProductOrder(0.0, x, n);
    } else {
      ProductOrder(x, 0.0, n);
    }
  }

  lemma {:induction false} GainsNotNegative(trades: seq<Trade>)
    ensures Gains(trades) >= 0.0
  {
    if trades != [] {
      GainsNotNegative(trades[..|trades| - 1]);
    }
  }

  lemma ProfitFactorSign(trades: seq<Trade>, pf: real)
    requires IsProfitFactor(trades, pf) && Gains(trades) >= 0.0
    ensures pf > 1.0 <==> Gains(trades) > Losses(trades)
  {
    if Losses(trades) > 0.0 {
      QuotientAboveOne(Gains(trades), Losses(trades));
    }
  }

  lemma {:induction false} GainsLessLosses(trades: seq<Trade>)
    ensures Gains(trades) - Losses(trades) == 0.10 * (TotalPnl(trades) - 0.004 * |trades| as real)
  {
    if trades != [] {
      GainsLessLosses(trades[..|trades| - 1]);
    }
  }

  // ------------------------------------------------------------- gross and net

  predicate PositiveFactors(rs: seq<real>) {
    forall i :: 0 <= i < |rs| ==> 1.0 + rs[i] > 0.0
  }

  lemma {:induction false} GrowthPositive(rs: seq<real>)
    requires PositiveFactors(rs)
    ensures Growth(rs) > 0.0
  {
    if rs != [] {
      GrowthPositive(rs[..|rs| - 1]);
      GrownPositive(Growth(rs[..|rs| - 1]), rs[|rs| - 1]);
    }
  }

  lemma GrownPositive(value: real, x: real)
    requires value > 0.0 && 1.0 + x > 0.0
    ensures Grown(value, x) > 0.0
  {
    ProductPositive(value, 1.0 + x);
  }

  lemma ProductPositive(a: real, b: real)
    requires a > 0.0 && b > 0.0
    ensures a * b > 0.0
  {
  }

  /** With positive net factors, costs strictly reduce the compounded result. */
  lemma {:induction false} GrossExceedsNet(pnls: seq<real>)
    requires PositiveFactors(Map(Net, pnls)) && pnls != []
    ensures Growth(Map(Gross, pnls)) > Growth(Map(Net, pnls)) > 0.0
  {
    var n := |pnls| - 1;
    var r, g := Map(Net, pnls), Map(Gross, pnls);
    assert r[..n] == Map(Net, pnls[..n]) && g[..n] == Map(Gross, pnls[..n]);
    assert forall i :: 0 <= i < n ==> r[..n][i] == r[i];
    GrowthPositive(r[..n]);
    GrowthPositive(r);
    if n > 0 {
      GrossExceedsNet(pnls[..n]);
    }
    GrownBeyond(Growth(g[..n]), Growth(r[..n]), g[n], r[n]);
  }

  lemma GrownBeyond(a: real, b: real, x: real, y: real)
    requires a >= b > 0.0 && x > y && 1.0 + y > 0.0
    ensures Grown(a, x) > Grown(b, y)
  {
    var f, d := 1.0 + y, x - y;
    ProductOrder(b, a, f);
    ProductPositive(a, d);
    assert a * (1.0 + x) == a * f + a * d;
  }

  /** The cost burden is positive, and a positive gross edge is never fully retained. */
  lemma CostsAlwaysShow(trades: seq<Trade>, maxDrawdown: real)
    requires trades != [] && PositiveFactors(NetReturns(trades))
    ensures var m := MetricsOf(NetReturns(trades), GrossReturns(trades), maxDrawdown);
      m.costBurden > 0.0 && (m.grossEdge > 0.0 ==> m.totalReturn / m.grossEdge < 1.0)
  {
    GrossExceedsNet(Pnls(trades));
    if Growth(GrossReturns(trades)) - 1.0 > 0.0 {
      RatioBelowOne(Growth(NetReturns(trades)) - 1.0, Growth(GrossReturns(trades)) - 1.0);
    }
  }

  lemma RatioBelowOne(t: real, g: real)
    requires t < g && g > 0.0
    ensures t / g < 1.0
  {
    var q := t / g;
    assert q * g == t;
    ProductOrder(1.0, q, g);
    ProductOrder(q, 1.0, g);
  }

  /** Not so with negative factors: two losses beyond the whole stake have a negative cost burden. */
  lemma NegativeFactorsHideCosts()
    ensures Growth(Map(Gross, [-20.0, -20.0])) < Growth(Map(Net, [-20.0, -20.0]))
  {
    var r, g := Map(Net, [-20.0, -20.0]), Map(Gross, [-20.0, -20.0]);
    assert r == [-2.0004, -2.0004] && g == [-2.0, -2.0];
    TwoReturns(-2.0004);
    TwoReturns(-2.0);
  }

  lemma TwoReturns(x: real)
    ensures Growth([x, x]) == (1.0 + x) * (1.0 + x)
  {
    assert [x, x][..1] == [x] && [x][..0] == [];
    assert Growth([x]) == 1.0 + x;
  }

  /** The curve of positive factors is positive, so the drawdown is the deepest fall. */
  lemma CurvePositive(rs: seq<real>)
    requires PositiveFactors(rs)
    ensures Positive(Curve(rs))
  {
    forall i | 0 <= i < |rs| ensures Curve(rs)[i] > 0.0 {
      GrowthPositive(rs[..i + 1]);
    }
  }

  // ------------------------------------------------- order does not matter

  /** The sum of a figure computed per return. */
  function Total(f: real -> real, s: seq<real>): real {
    if s == [] then 0.0 else Total(f, s[..|s| - 1]) + f(s[|s| - 1])
  }

  function Removed(s: seq<real>, j: nat): seq<real>
    requires j < |s|
  {
    s[..j] + s[j + 1..]
  }

  lemma {:induction false} TotalRemoved(f: real -> real, s: seq<real>, j: nat)
    requires j < |s|
    ensures Total(f, s) == Total(f, Removed(s, j)) + f(s[j])
  {
    var n := |s| - 1;
    if j == n {
      assert Removed(s, j) == s[..n];
    } else {
      TotalRemoved(f, s[..n], j);
      RemovedInit(s, j);
    }
  }

  lemma Rearrange(g: real, x: real, y: real)
    ensures Grown(Grown(g, x), y) == Grown(Grown(g, y), x)
  {
    var a, b := 1.0 + x, 1.0 + y;
    assert g * a * b == g * b * a;
  }

  /** Removing an element before the last one commutes with taking the last one off. */
  lemma RemovedInit(s: seq<real>, j: nat)
    requires j < |s| - 1
    ensures var r := Removed(s, j);
      && r[..|r| - 1] == Removed(s[..|s| - 1], j)
      && r[|r| - 1] == s[|s| - 1]
  {
  }

  lemma {:induction false} GrowthRemoved(s: seq<real>, j: nat)
    requires j < |s|
    ensures Growth(s) == Grown(Growth(Removed(s, j)), s[j])
  {
    var n := |s| - 1;
    if j == n {
      assert Removed(s, j) == s[..n];
    } else {
      GrowthRemoved(s[..n], j);
      RemovedInit(s, j);
      Rearrange(Growth(Removed(s[..n], j)), s[j], s[n]);
    }
  }

  lemma RemovedMultiset(t: seq<real>, j: nat)
    requires j < |t|
    ensures multiset(t) == multiset(Removed(t, j)) + multiset{t[j]}
  {
    assert t == t[..j] + [t[j]] + t[j + 1..];
  }

  lemma CancelOne(a: multiset<real>, b: multiset<real>, x: real)
    requires a + multiset{x} == b + multiset{x}
    ensures a == b
  {
    forall e ensures a[e] == b[e] {
      assert (a + multiset{x})[e] == (b + multiset{x})[e];
    }
  }

  /** A rearrangement holds the last element somewhere; without it the rest is a rearrangement too. */
  lemma FindLast(s: seq<real>, t: seq<real>) returns (j: nat)
    requires multiset(s) == multiset(t) && s != []
    ensures j < |t| && t[j] == s[|s| - 1]
    ensures multiset(s[..|s| - 1]) == multiset(Removed(t, j))
  {
    var n := |s| - 1;
    RemovedMultiset(s, n);
    assert Removed(s, n) == s[..n];
    assert s[n] in multiset(t);
    j :| 0 <= j < |t| && t[j] == s[n];
    RemovedMultiset(t, j);
    CancelOne(multiset(s[..n]), multiset(Removed(t, j)), s[n]);
  }

  lemma {:induction false} TotalOfRearranged(f: real -> real, s: seq<real>, t: seq<real>)
    requires multiset(s) == multiset(t)
    ensures Total(f, s) == Total(f, t)
    decreases |s|
  {
    if s == [] {
      assert |multiset(t)| == 0;
    } else {
      var j := FindLast(s, t);
      TotalOfRearranged(f, s[..|s| - 1], Removed(t, j));
      TotalRemoved(f, t, j);
    }
  }

  lemma {:induction false} GrowthOfRearranged(s: seq<real>, t: seq<real>)
    requires multiset(s) == multiset(t)
    ensures Growth(s) == Growth(t)
    decreases |s|
  {
    if s == [] {
      assert |multiset(t)| == 0;
    } else {
      var j := FindLast(s, t);
      GrowthOfRearranged(s[..|s| - 1], Removed(t, j));
      GrowthRemoved(t, j);
    }
  }

  function Part(p: real -> bool): real -> real {
    (x: real) => if p(x) then x else 0.0
  }

  function Ones(p: real -> bool): real -> real {
    (x: real) => if p(x) then 1.0 else 0.0
  }

  lemma {:induction false} FilteredTotals(p: real -> bool, s: seq<real>)
    ensures Sum(Filter(p, s)) == Total(Part(p), s)
    ensures |Filter(p, s)| as real == Total(Ones(p), s)
  {
    if s != [] {
      FilteredTotals(p, s[..|s| - 1]);
      var rest := Filter(p, s[..|s| - 1]);
      assert (rest + [s[|s| - 1]])[..|rest|] == rest;
    }
  }

  lemma {:induction false} SumIsTotal(s: seq<real>)
    ensures Sum(s) == Total((x: real) => x, s)
  {
    if s != [] {
      SumIsTotal(s[..|s| - 1]);
    }
  }

  lemma FilteredOfRearranged(p: real -> bool, s: seq<real>, t: seq<real>)
    requires multiset(s) == multiset(t)
    ensures Sum(Filter(p, s)) == Sum(Filter(p, t))
    ensures |Filter(p, s)| == |Filter(p, t)|
  {
    FilteredTotals(p, s);
    FilteredTotals(p, t);
    TotalOfRearranged(Part(p), s, t);
    TotalOfRearranged(Ones(p), s, t);
  }

  /**
   All the metrics other than the drawdown depend only on which returns were made, not on
   their order; so sorting the trades, or re-timing them, changes none of them.
   */
  lemma OrderDoesNotMatter(rs: seq<real>, rs': seq<real>, gs: seq<real>, gs': seq<real>, maxDrawdown: real)
    requires multiset(rs) == multiset(rs') && multiset(gs) == multiset(gs') && rs != []
    ensures rs' != [] && MetricsOf(rs, gs, maxDrawdown) == MetricsOf(rs', gs', maxDrawdown)
  {
    assert |multiset(rs)| == |multiset(rs')|;
    GrowthOfRearranged(rs, rs');
    GrowthOfRearranged(gs, gs');
    FilteredOfRearranged(WINNING, rs, rs');
    FilteredOfRearranged(LOSING, rs, rs');
    SumIsTotal(rs);
    SumIsTotal(rs');
    TotalOfRearranged((x: real) => x, rs, rs');
  }

  // ----------------------------------------------- profit factor and expectancy

  lemma {:induction false} SumSplits(rs: seq<real>)
    ensures Sum(rs) == Sum(Filter(WINNING, rs)) + Sum(Filter(LOSING, rs))
  {
    FilteredTotals(WINNING, rs);
    FilteredTotals(LOSING, rs);
    TotalSplits(rs);
  }

  lemma {:induction false} TotalSplits(rs: seq<real>)
    ensures Sum(rs) == Total(Part(WINNING), rs) + Total(Part(LOSING), rs)
  {
    if rs != [] {
      TotalSplits(rs[..|rs| - 1]);
    }
  }

  /** The profit factor exceeds 1 exactly when the expectancy is positive. */
  lemma ProfitFactorAgreesWithExpectancy(rs: seq<real>)
    requires rs != []
    ensures ProfitFactor(rs) > 1.0 <==> Sum(rs) / |rs| as real > 0.0
    ensures 0.0 <= ProfitFactor(rs) <= PROFIT_FACTOR_CAP
  {
    var wins, losses := Filter(WINNING, rs), Filter(LOSING, rs);
    LossesSumBelowZero(rs);
    SumSplits(rs);
    SignOfQuotient(Sum(rs), |rs| as real);
    if losses != [] {
      QuotientAboveOne(Sum(wins), -Sum(losses));
    }
  }

  lemma SignOfQuotient(x: real, n: real)
    requires n > 0.0
    ensures x / n > 0.0 <==> x > 0.0
  {
    assert x / n * n == x;
    if x > 0.0 && x / n <= 0.0 {
      ProductOrder(x / n, 0.0, n);
    }
  }

  lemma QuotientAboveOne(x: real, y: real)
    requires x >= 0.0 && y > 0.0
    ensures x / y > 1.0 <==> x > y
    ensures x / y >= 0.0
  {
    var q := x / y;
    assert q * y == x;
    ProductOrder(1.0, q, y);
    ProductOrder(q, 1.0, y);
    ProductOrder(q, 0.0, y);
  }
}
