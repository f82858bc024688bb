/**
 Average-cost accounting of one strategy's trades in one symbol, and the independent
 net-position loop of the lifecycle audit. Quantities and prices are reals.
 */
module TradePnl {

  /** The lower-cased side column; anything but "buy" and "sell" is `Other`. */
  datatype Side = Buy | Sell | Other

  datatype Trade = Trade(side: Side, quantity: real, price: real)

  datatype Account = Account(pos: real, avgPrice: real, pnl: real)

  function Abs(x: real): real {
    if x < 0.0 then -x else x
  }

  function Min(x: real, y: real): real {
    if x <= y then x else y
  }

  function Signed(t: Trade): real {
    if t.side.Buy? then t.quantity else -t.quantity
  }

  /** The trade closes or reduces the position. */
  predicate Reduces(a: Account, t: Trade) {
    (a.pos > 0.0 && t.side.Sell?) || (a.pos < 0.0 && t.side.Buy?)
  }

  /** Profit realized on the part of the quantity that closes the position. */
  function RealizedGain(pos: real, avgPrice: real, price: real, quantity: real): real {
    var realized := Min(Abs(pos), quantity);
    if pos > 0.0 then realized * (price - avgPrice) else realized * (avgPrice - price)
  }

  /** The average price of an increased position. */
  function Averaged(pos: real, avgPrice: real, price: real, quantity: real, newPos: real): real {
    if newPos != 0.0 then (avgPrice * Abs(pos) + price * quantity) / Abs(newPos) else 0.0
  }

  /** One row of the loop. */
  function Booked(a: Account, t: Trade): Account {
    if a.pos == 0.0 then Account(Signed(t), t.price, a.pnl)
    else if Reduces(a, t) then
      Account(if a.pos > 0.0 then a.pos - t.quantity else a.pos + t.quantity, a.avgPrice,
              a.pnl + RealizedGain(a.pos, a.avgPrice, t.price, t.quantity))
    else
      var newPos := a.pos + Signed(t);
      Account(newPos, Averaged(a.pos, a.avgPrice, t.price, t.quantity, newPos), a.pnl)
  }

  function Book(trades: seq<Trade>): Account {
    if trades == [] then Account(0.0, 0.0, 0.0)
    else Booked(Book(trades[..|trades| - 1]), trades[|trades| - 1])
  }

  /** The sum of the signed quantities. */
  function NetQuantity(trades: seq<Trade>): real {
    if trades == [] then 0.0 else NetQuantity(trades[..|trades| - 1]) + Signed(trades[|trades| - 1])
  }

  /** Money received for sales minus money paid for purchases. */
  function CashFlow(trades: seq<Trade>): real {
    if trades == [] then 0.0
    else CashFlow(trades[..|trades| - 1]) - Signed(trades[|trades| - 1]) * trades[|trades| - 1].price
  }

  /** The body of the loop of `check_trades_pnl`, on the running variables. */
  method BookRow(t: Trade, pos: real, avgPrice: real, totalPnl: real)
    returns (pos': real, avgPrice': real, totalPnl': real)
    ensures Account(pos', avgPrice', totalPnl') == Booked(Account(pos, avgPrice, totalPnl), t)
  {
    pos', avgPrice', totalPnl' := pos, avgPrice, totalPnl;
    var side, qty, price := t.side, t.quantity, t.price;
    if pos == 0.0 {
      pos' := if side.Buy? then qty else -qty;
      avgPrice' := price;
    } else if (pos > 0.0 && side.Sell?) || (pos < 0.0 && side.Buy?) {
      totalPnl' := totalPnl + RealizedGain(pos, avgPrice, price, qty);
      if pos > 0.0 {
        pos' := pos - qty;
      } else {
        pos' := pos + qty;
      }
    } else {
      var newPos := pos + if side.Buy? then qty else -qty;
      avgPrice' := Averaged(pos, avgPrice, price, qty, newPos);
      pos' := newPos;
    }
  }

  /** A trade that reduces the position keeps its average and realizes only on what it closes. */
  lemma ReductionRealizes(a: Account, t: Trade)
    requires (a.pos > 0.0 && t.side.Sell?) || (a.pos < 0.0 && t.side.Buy?)
    ensures Booked(a, t).avgPrice == a.avgPrice
    ensures a.pos > 0.0 && t.quantity <= a.pos ==> Booked(a, t).pnl - a.pnl == t.quantity * (t.price - a.avgPrice)
    ensures a.pos > 0.0 && t.quantity > a.pos ==> Booked(a, t).pnl - a.pnl == a.pos * (t.price - a.avgPrice)
    ensures a.pos < 0.0 && t.quantity <= -a.pos ==> Booked(a, t).pnl - a.pnl == t.quantity * (a.avgPrice - t.price)
    ensures a.pos < 0.0 && t.quantity > -a.pos ==> Booked(a, t).pnl - a.pnl == -a.pos * (a.avgPrice - t.price)
  {
  }

  /** Any other trade realizes nothing; it opens at its price or averages by quantity. */
  lemma IncreaseAverages(a: Account, t: Trade)
    requires !(a.pos > 0.0 && t.side.Sell?) && !(a.pos < 0.0 && t.side.Buy?)
    ensures Booked(a, t).pnl == a.pnl
    ensures a.pos == 0.0 ==> Booked(a, t).avgPrice == t.price
    ensures a.pos != 0.0 && Booked(a, t).pos != 0.0 ==>
      Booked(a, t).avgPrice * Abs(Booked(a, t).pos) == a.avgPrice * Abs(a.pos) + t.price * t.quantity
    ensures a.pos != 0.0 && Booked(a, t).pos == 0.0 ==> Booked(a, t).avgPrice == 0.0
  {
  }

  /** The position loop of `check_trades_pnl`. */
  method BookTrades(trades: seq<Trade>) returns (pos: real, avgPrice: real, totalPnl: real)
    ensures Account(pos, avgPrice, totalPnl) == Book(trades)
    ensures pos == NetQuantity(trades)
  {
    pos, avgPrice, totalPnl := 0.0, 0.0, 0.0;
    for i := 0 to |trades|
      invariant Account(pos, avgPrice, totalPnl) == Book(trades[..i])
    {
      BookSnoc(trades, i);
      pos, avgPrice, totalPnl := BookRow(trades[i], pos, avgPrice, totalPnl);
    }
    assert trades[..|trades|] == trades;
    PositionIsNetQuantity(trades);
  }

  lemma BookSnoc(trades: seq<Trade>, i: nat)
    requires i < |trades|
    ensures Book(trades[..i + 1]) == Booked(Book(trades[..i]), trades[i])
  {
    assert trades[..i + 1][..i] == trades[..i];
  }

  /** The position loop of `audit_lifecycle`. */
  method AuditPosition(trades: seq<Trade>) returns (pos: real, closed: bool)
    ensures pos == NetQuantity(trades) && pos == Book(trades).pos
    ensures closed <==> Abs(Book(trades).pos) < 0.001
  {
    pos := 0.0;
    for i := 0 to |trades|
      invariant pos == NetQuantity(trades[..i])
    {
      assert trades[..i + 1][..i] == trades[..i];
      if trades[i].side.Buy? {
        pos := pos + trades[i].quantity;
      } else {
        pos := pos - trades[i].quantity;
      }
    }
    assert trades[..|trades|] == trades;
    PositionIsNetQuantity(trades);
    closed := Abs(pos) < 0.001;
  }

  /** For every history, flips and unknown sides included, the position is the net quantity. */
  lemma {:induction false} PositionIsNetQuantity(trades: seq<Trade>)
    ensures Book(trades).pos == NetQuantity(trades)
  {
    if trades != [] {
      PositionIsNetQuantity(trades[..|trades| - 1]);
    }
  }

  // --------------------------------------------------------------- conservation

  /** A buy or a sale of a quantity that is not negative. */
  predicate Proper(t: Trade) {
    !t.side.Other? && t.quantity >= 0.0
  }

  predicate AllProper(trades: seq<Trade>) {
    forall i :: 0 <= i < |trades| ==> Proper(trades[i])
  }

  /** The trade goes through zero to the other side. */
  predicate Flips(a: Account, t: Trade) {
    Reduces(a, t) && t.quantity > Abs(a.pos)
  }

  /** The gain on the part of a flip beyond zero, valued at the average price that was kept. */
  function FlipGain(a: Account, t: Trade): real {
    if !Flips(a, t) then 0.0
    else (t.quantity - Abs(a.pos)) * (if a.pos > 0.0 then t.price - a.avgPrice else a.avgPrice - t.price)
  }

  /** Booking trade number `i`. */
  ghost predicate Follows(trades: seq<Trade>, accounts: seq<Account>, i: int) {
    0 <= i < |trades| && i + 1 < |accounts| && accounts[i + 1] == Booked(accounts[i], trades[i])
  }

  /** The accounts before each trade and after the last one. */
  ghost predicate IsLedger(trades: seq<Trade>, accounts: seq<Account>) {
    && |accounts| == |trades| + 1
    && accounts[0] == Account(0.0, 0.0, 0.0)
    && (forall i :: 0 <= i < |trades| ==> Follows(trades, accounts, i))
  }

  lemma LedgerOf(trades: seq<Trade>) returns (accounts: seq<Account>)
    ensures IsLedger(trades, accounts)
    ensures forall n :: 0 <= n <= |trades| ==> accounts[n] == Book(trades[..n])
  {
    accounts := seq(|trades| + 1, n requires 0 <= n <= |trades| => Book(trades[..n]));
    forall i | 0 <= i < |trades| ensures Follows(trades, accounts, i) {
      BookSnoc(trades, i);
    }
  }

  /** The flips' extra gains over the first `n` trades. */
  function FlipGains(trades: seq<Trade>, accounts: seq<Account>, n: nat): real
    requires |accounts| == |trades| + 1 && n <= |trades|
  {
    if n == 0 then 0.0 else FlipGains(trades, accounts, n - 1) + FlipGain(accounts[n - 1], trades[n - 1])
  }

  ghost predicate NoFlips(trades: seq<Trade>) {
    forall i :: 0 <= i < |trades| ==> !Flips(Book(trades[..i]), trades[i])
  }

  /** One trade: profit moves with cash and inventory, short of the flip's extra gain. */
  lemma TradeConserves(a: Account, t: Trade)
    requires Proper(t)
    ensures var b := Booked(a, t);
      b.pnl - a.pnl + FlipGain(a, t) == -Signed(t) * t.price + b.pos * b.avgPrice - a.pos * a.avgPrice
  {
    var b := Booked(a, t);
    if a.pos != 0.0 && !Reduces(a, t) {
      var value := a.avgPrice * Abs(a.pos) + t.price * t.quantity;
      assert Abs(b.pos) == Abs(a.pos) + t.quantity;
      assert b.avgPrice * Abs(b.pos) == value;
      if a.pos > 0.0 {
        assert b.pos * b.avgPrice == value;
      } else {
        assert b.pos * b.avgPrice == -(b.avgPrice * Abs(b.pos));
      }
    }
  }

  /** The books balance: profit plus flip gains is cash flow plus inventory at average cost. */
  predicate Balanced(a: Account, flips: real, cash: real) {
    a.pnl + flips == cash + a.pos * a.avgPrice
  }

  lemma BalanceStep(a: Account, flips: real, cash: real, t: Trade)
    requires Proper(t)
    ensures Balanced(a, flips, cash) <==>
            Balanced(Booked(a, t), flips + FlipGain(a, t), cash - Signed(t) * t.price)
  {
    TradeConserves(a, t);
  }

  lemma CashSnoc(trades: seq<Trade>, i: nat)
    requires i < |trades|
    ensures CashFlow(trades[..i + 1]) == CashFlow(trades[..i]) - Signed(trades[i]) * trades[i].price
  {
    assert trades[..i + 1][..i] == trades[..i];
  }

  /** The cash paid or received for trade number `i`. */
  ghost predicate Pays(trades: seq<Trade>, cash: seq<real>, i: int) {
    0 <= i < |trades| && i + 1 < |cash| && cash[i + 1] == cash[i] - Signed(trades[i]) * trades[i].price
  }

  /** The net cash flow before each trade and after the last one. */
  ghost predicate IsCash(trades: seq<Trade>, cash: seq<real>) {
    |cash| == |trades| + 1 && cash[0] == 0.0 && forall i :: 0 <= i < |trades| ==> Pays(trades, cash, i)
  }

  lemma CashOf(trades: seq<Trade>) returns (cash: seq<real>)
    ensures IsCash(trades, cash)
    ensures forall n :: 0 <= n <= |trades| ==> cash[n] == CashFlow(trades[..n])
  {
    cash := seq(|trades| + 1, n requires 0 <= n <= |trades| => CashFlow(trades[..n]));
    forall i | 0 <= i < |trades| ensures Pays(trades, cash, i) {
      CashSnoc(trades, i);
    }
  }

  /** The extra gain of trade number `i`, if it flips. */
  ghost predicate Gains(trades: seq<Trade>, accounts: seq<Account>, flips: seq<real>, i: int) {
    && 0 <= i < |trades| && i < |accounts| && i + 1 < |flips|
    && flips[i + 1] == flips[i] + FlipGain(accounts[i], trades[i])
  }

  lemma FlipGainsOf(trades: seq<Trade>, accounts: seq<Account>) returns (flips: seq<real>)
    requires |accounts| == |trades| + 1
    ensures |flips| == |trades| + 1 && flips[0] == 0.0
    ensures forall i :: 0 <= i < |trades| ==> Gains(trades, accounts, flips, i)
    ensures forall n :: 0 <= n <= |trades| ==> flips[n] == FlipGains(trades, accounts, n)
  {
    flips := seq(|trades| + 1, n requires 0 <= n <= |trades| => FlipGains(trades, accounts, n));
  }

  lemma BalanceAfter(a: Account, b: Account, t: Trade, flips: real, flips': real, cash: real, cash': real)
    requires Proper(t) && Balanced(a, flips, cash) && b == Booked(a, t)
    requires flips' == flips + FlipGain(a, t) && cash' == cash - Signed(t) * t.price
    ensures Balanced(b, flips', cash')
  {
    BalanceStep(a, flips, cash, t);
  }

  lemma {:induction false} BalancedAlong(trades: seq<Trade>, accounts: seq<Account>, cash: seq<real>, flips: seq<real>,
                                         n: nat)
    requires AllProper(trades) && IsLedger(trades, accounts) && IsCash(trades, cash) && n <= |trades|
    requires |flips| == |trades| + 1 && flips[0] == 0.0
    requires forall i :: 0 <= i < |trades| ==> Gains(trades, accounts, flips, i)
    ensures Balanced(accounts[n], flips[n], cash[n])
  {
    if n > 0 {
      var i := n - 1;
      BalancedAlong(trades, accounts, cash, flips, i);
      assert Follows(trades, accounts, i) && Pays(trades, cash, i) && Gains(trades, accounts, flips, i);
      BalanceAfter(accounts[i], accounts[n], trades[i], flips[i], flips[n], cash[i], cash[n]);
    }
  }

  /**
   Conservation for every proper history, after every trade: realized profit plus the flips'
   extra gains is net cash flow plus inventory at average cost.
   */
  lemma Conservation(trades: seq<Trade>, accounts: seq<Account>, n: nat)
    requires AllProper(trades) && IsLedger(trades, accounts) && n <= |trades|
    ensures Balanced(accounts[n], FlipGains(trades, accounts, n), CashFlow(trades[..n]))
  {
    var cash := CashOf(trades);
    var flips := FlipGainsOf(trades, accounts);
    BalancedAlong(trades, accounts, cash, flips, n);
  }

  lemma {:induction false} NoFlipGains(trades: seq<Trade>, accounts: seq<Account>, n: nat)
    requires |accounts| == |trades| + 1 && n <= |trades|
    requires forall i :: 0 <= i < n ==> !Flips(accounts[i], trades[i])
    ensures FlipGains(trades, accounts, n) == 0.0
  {
    if n > 0 {
      NoFlipGains(trades, accounts, n - 1);
    }
  }

  /** Without flips, profit is net cash flow plus inventory at cost, after every trade. */
  lemma ConservationWithoutFlips(trades: seq<Trade>, n: nat)
    requires AllProper(trades) && NoFlips(trades) && n <= |trades|
    ensures Balanced(Book(trades[..n]), 0.0, CashFlow(trades[..n]))
  {
    var accounts := LedgerOf(trades);
    forall i | 0 <= i < n ensures !Flips(accounts[i], trades[i]) {
      assert accounts[i] == Book(trades[..i]);
    }
    Conservation(trades, accounts, n);
    NoFlipGains(trades, accounts, n);
  }

  /** Balanced books stay balanced over a trade exactly when it does not flip, or flips at average cost. */
  lemma BalanceKeptIff(a: Account, cash: real, t: Trade)
    requires Proper(t) && Balanced(a, 0.0, cash)
    ensures Balanced(Booked(a, t), 0.0, cash - Signed(t) * t.price) <==> !Flips(a, t) || t.price == a.avgPrice
  {
    BalanceStep(a, 0.0, cash, t);
    if Flips(a, t) && t.price != a.avgPrice {
      var excess := t.quantity - Abs(a.pos);
      NonZeroProduct(excess, t.price - a.avgPrice);
      NonZeroProduct(excess, a.avgPrice - t.price);
    }
  }

  /** A trade that does not flip the position, or flips it at the average price that is kept. */
  predicate Harmless(a: Account, t: Trade) {
    !Flips(a, t) || t.price == a.avgPrice
  }

  /** After `n` trades profit is net cash flow plus inventory at cost. */
  predicate BalancedAt(accounts: seq<Account>, cash: seq<real>, n: int) {
    0 <= n < |accounts| && n < |cash| && Balanced(accounts[n], 0.0, cash[n])
  }

  predicate HarmlessAt(trades: seq<Trade>, accounts: seq<Account>, i: int) {
    0 <= i < |trades| && i < |accounts| && Harmless(accounts[i], trades[i])
  }

  lemma HarmlessStep(a: Account, b: Account, t: Trade, c: real, c': real)
    requires Proper(t) && Balanced(a, 0.0, c)
    requires b == Booked(a, t) && c' == c - Signed(t) * t.price
    ensures Balanced(b, 0.0, c') <==> Harmless(a, t)
  {
    BalanceKeptIff(a, c, t);
  }

  /** Balanced books stay balanced over trade number `i` exactly when it is harmless. */
  ghost predicate KeptIfHarmless(trades: seq<Trade>, accounts: seq<Account>, cash: seq<real>, i: int) {
    BalancedAt(accounts, cash, i) ==> (BalancedAt(accounts, cash, i + 1) <==> HarmlessAt(trades, accounts, i))
  }

  lemma LedgerStep(trades: seq<Trade>, accounts: seq<Account>, cash: seq<real>, i: nat)
    requires i < |trades| && Follows(trades, accounts, i) && Pays(trades, cash, i) && Proper(trades[i])
    ensures KeptIfHarmless(trades, accounts, cash, i)
  {
    if BalancedAt(accounts, cash, i) {
      HarmlessStep(accounts[i], accounts[i + 1], trades[i], cash[i], cash[i + 1]);
    }
  }

  ghost predicate BalancedThroughout(accounts: seq<Account>, cash: seq<real>, n: nat) {
    forall m :: 0 <= m <= n ==> BalancedAt(accounts, cash, m)
  }

  ghost predicate AllHarmless(trades: seq<Trade>, accounts: seq<Account>, n: nat) {
    forall i :: 0 <= i < n ==> HarmlessAt(trades, accounts, i)
  }

  lemma BalancedSnoc(trades: seq<Trade>, accounts: seq<Account>, cash: seq<real>, i: nat)
    requires KeptIfHarmless(trades, accounts, cash, i)
    requires BalancedThroughout(accounts, cash, i) <==> AllHarmless(trades, accounts, i)
    ensures BalancedThroughout(accounts, cash, i + 1) <==> AllHarmless(trades, accounts, i + 1)
  {
    assert BalancedThroughout(accounts, cash, i + 1) <==>
      BalancedThroughout(accounts, cash, i) && BalancedAt(accounts, cash, i + 1);
    assert AllHarmless(trades, accounts, i + 1) <==>
      AllHarmless(trades, accounts, i) && HarmlessAt(trades, accounts, i);
  }

  /**
   The books of a history balance after every trade exactly when each of its trades is harmless:
   it does not flip the position, or flips it at the average price that is kept.
   */
  lemma {:induction false} BalancedThroughoutIff(trades: seq<Trade>, accounts: seq<Account>, cash: seq<real>, n: nat)
    requires AllProper(trades) && IsLedger(trades, accounts) && IsCash(trades, cash) && n <= |trades|
    ensures BalancedThroughout(accounts, cash, n) <==> AllHarmless(trades, accounts, n)
  {
    if n > 0 {
      BalancedThroughoutIff(trades, accounts, cash, n - 1);
      LedgerStep(trades, accounts, cash, n - 1);
      BalancedSnoc(trades, accounts, cash, n - 1);
    }
  }

  lemma NonZeroProduct(x: real, y: real)
    requires x != 0.0 && y != 0.0
    ensures x * y != 0.0
  {
  }

  /** Sales minus purchases, each at its price. */
  function Proceeds(trades: seq<Trade>): real {
    if trades == [] then 0.0
    else
      var t := trades[|trades| - 1];
      Proceeds(trades[..|trades| - 1]) + if t.side.Buy? then 0.0 else t.quantity * t.price
  }

  function Cost(trades: seq<Trade>): real {
    if trades == [] then 0.0
    else
      var t := trades[|trades| - 1];
      Cost(trades[..|trades| - 1]) + if t.side.Buy? then t.quantity * t.price else 0.0
  }

  lemma {:induction false} CashIsProceedsLessCost(trades: seq<Trade>)
    ensures CashFlow(trades) == Proceeds(trades) - Cost(trades)
  {
    if trades != [] {
      CashIsProceedsLessCost(trades[..|trades| - 1]);
    }
  }

  /** A round trip that ends flat without flipping has earned sale proceeds minus purchase cost. */
  lemma FlatProfit(trades: seq<Trade>)
    requires AllProper(trades) && NoFlips(trades) && Book(trades).pos == 0.0
    ensures Book(trades).pnl == Proceeds(trades) - Cost(trades)
  {
    assert trades[..|trades|] == trades;
    ConservationWithoutFlips(trades, |trades|);
    CashIsProceedsLessCost(trades);
  }

  /** A flat history has earned sale proceeds minus purchase cost exactly when its flips' extra gains cancel out. */
  lemma FlatProfitIff(trades: seq<Trade>, accounts: seq<Account>)
    requires AllProper(trades) && IsLedger(trades, accounts) && accounts[|trades|].pos == 0.0
    ensures accounts[|trades|].pnl == Proceeds(trades) - Cost(trades) <==> FlipGains(trades, accounts, |trades|) == 0.0
  {
    assert trades[..|trades|] == trades;
    Conservation(trades, accounts, |trades|);
    CashIsProceedsLessCost(trades);
  }

  /** A flip keeps the old average price: here 10 was earned and 0 is booked. */
  lemma FlipMisbooksProfit()
    ensures var trades := [Trade(Buy, 1.0, 100.0), Trade(Sell, 2.0, 110.0), Trade(Buy, 1.0, 110.0)];
      && AllProper(trades)
      && Book(trades).pos == 0.0
      && Proceeds(trades) - Cost(trades) == 10.0
      && Book(trades).pnl == 0.0
  {
    var t1, t2, t3 := Trade(Buy, 1.0, 100.0), Trade(Sell, 2.0, 110.0), Trade(Buy, 1.0, 110.0);
    ThreeBooked(t1, t2, t3);
    ThreeEarned(t1, t2, t3);
  }

  lemma ThreeBooked(t1: Trade, t2: Trade, t3: Trade)
    requires t1 == Trade(Buy, 1.0, 100.0) && t2 == Trade(Sell, 2.0, 110.0) && t3 == Trade(Buy, 1.0, 110.0)
    ensures Book([t1, t2, t3]) == Account(0.0, 100.0, 0.0)
  {
    FlipBooked(t1, t2, t3);
    assert [t1, t2, t3][..2] == [t1, t2] && [t1, t2][..1] == [t1] && [t1][..0] == [];
    assert Book([t1]) == Account(1.0, 100.0, 0.0);
    assert Book([t1, t2]) == Account(-1.0, 100.0, 10.0);
  }

  lemma ThreeEarned(t1: Trade, t2: Trade, t3: Trade)
    requires t1.side.Buy? && t2.side.Sell? && t3.side.Buy?
    ensures Proceeds([t1, t2, t3]) == t2.quantity * t2.price
    ensures Cost([t1, t2, t3]) == t1.quantity * t1.price + t3.quantity * t3.price
  {
    TradeSnoc([], t1);
    TradeSnoc([t1], t2);
    TradeSnoc([t1, t2], t3);
    assert [] + [t1] == [t1] && [t1] + [t2] == [t1, t2] && [t1, t2] + [t3] == [t1, t2, t3];
  }

  lemma TradeSnoc(trades: seq<Trade>, t: Trade)
    ensures Proceeds(trades + [t]) == Proceeds(trades) + if t.side.Buy? then 0.0 else t.quantity * t.price
    ensures Cost(trades + [t]) == Cost(trades) + if t.side.Buy? then t.quantity * t.price else 0.0
  {
    assert (trades + [t])[..|trades|] == trades;
  }

  lemma FlipBooked(t1: Trade, t2: Trade, t3: Trade)
    requires t1 == Trade(Buy, 1.0, 100.0) && t2 == Trade(Sell, 2.0, 110.0) && t3 == Trade(Buy, 1.0, 110.0)
    ensures Booked(Account(0.0, 0.0, 0.0), t1) == Account(1.0, 100.0, 0.0)
    ensures Booked(Account(1.0, 100.0, 0.0), t2) == Account(-1.0, 100.0, 10.0)
    ensures Booked(Account(-1.0, 100.0, 10.0), t3) == Account(0.0, 100.0, 0.0)
  {
    assert RealizedGain(1.0, 100.0, 110.0, 2.0) == 10.0;
    assert RealizedGain(-1.0, 100.0, 110.0, 1.0) == -10.0;
  }

  /** While a position is open its average price lies between the prices traded. */
  lemma {:induction false} AverageWithinPrices(trades: seq<Trade>, accounts: seq<Account>, n: nat, lo: real, hi: real)
    requires AllProper(trades) && IsLedger(trades, accounts) && n <= |trades|
    requires forall i :: 0 <= i < |trades| ==> lo <= trades[i].price <= hi
    ensures accounts[n].pos != 0.0 ==> lo <= accounts[n].avgPrice <= hi
  {
    if n > 0 {
      AverageWithinPrices(trades, accounts, n - 1, lo, hi);
      assert Follows(trades, accounts, n - 1);
      AverageStep(accounts[n - 1], trades[n - 1], lo, hi);
    }
  }

  lemma AverageStep(a: Account, t: Trade, lo: real, hi: real)
    requires Proper(t) && lo <= t.price <= hi
    requires a.pos != 0.0 ==> lo <= a.avgPrice <= hi
    ensures Booked(a, t).pos != 0.0 ==> lo <= Booked(a, t).avgPrice <= hi
  {
    if a.pos != 0.0 && !Reduces(a, t) {
      AveragedBetween(a.pos, a.avgPrice, t.price, t.quantity, a.pos + Signed(t), lo, hi);
    }
  }

  lemma AveragedBetween(pos: real, avgPrice: real, price: real, quantity: real, newPos: real, lo: real, hi: real)
    requires pos != 0.0 && quantity >= 0.0 && Abs(newPos) == Abs(pos) + quantity
    requires lo <= avgPrice <= hi && lo <= price <= hi
    ensures lo <= Averaged(pos, avgPrice, price, quantity, newPos) <= hi
  {
    WeightedAverage(avgPrice, Abs(pos), price, quantity, lo, hi);
    AveragedIs(pos, avgPrice, price, quantity, newPos, Abs(pos), Abs(pos) + quantity);
  }

  lemma AveragedIs(pos: real, avgPrice: real, price: real, quantity: real, newPos: real, v: real, size: real)
    requires newPos != 0.0 && v == Abs(pos) && size == Abs(newPos)
    ensures Averaged(pos, avgPrice, price, quantity, newPos) == (avgPrice * v + price * quantity) / size
  {
  }

  lemma WeightedAverage(x: real, v: real, y: real, w: real, lo: real, hi: real)
    requires v > 0.0 && w >= 0.0 && lo <= x <= hi && lo <= y <= hi
    ensures lo <= (x * v + y * w) / (v + w) <= hi
  {
    ProductBounds(x, v, lo, hi);
    ProductBounds(y, w, lo, hi);
    var n, d := x * v + y * w, v + w;
    assert lo * d == lo * v + lo * w by { Distribute(lo, v, w); }
    assert hi * d == hi * v + hi * w by { Distribute(hi, v, w); }
    assert lo * d <= n;
    assert n <= hi * d;
    QuotientBounds(n, d, lo, hi);
  }

  lemma Distribute(c: real, v: real, w: real)
    ensures c * (v + w) == c * v + c * w
  {
  }

  lemma ProductBounds(x: real, v: real, lo: real, hi: real)
    requires v >= 0.0 && lo <= x <= hi
    ensures lo * v <= x * v <= hi * v
  {
  }

  lemma QuotientBounds(n: real, d: real, lo: real, hi: real)
    requires d > 0.0 && lo * d <= n <= hi * d
    ensures lo <= n / d <= hi
  {
    var q := n / d;
    assert q * d == n;
    if q < lo {
      ProductOrder(q, lo, d);
    }
    if hi < q {
      ProductOrder(hi, q, d);
    }
  }

  lemma ProductOrder(a: real, b: real, d: real)
    requires a < b && d > 0.0
    ensures a * d < b * d
  {
  }
}
