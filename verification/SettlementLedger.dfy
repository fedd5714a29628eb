/** The two-arm cash account of the late-day study: proceeds of a sale are held back for two
    sessions, and only settled cash can be spent. Exact reals stand for the program's decimals. */
module SettlementLedger {
  import opened HacVariance

  const OPENING: real := 500.0

  /** A session row. Dates are ordinals; prices matter only when the session is eligible. */
  datatype Row = Row(index: int, date: nat, eligible: bool, signal: real, previous: real, entry: real, exit: real)

  datatype Lot = Lot(due: int, value: real)

  datatype Trade = Trade(index: int, quantity: real, notional: real, proceeds: real)

  /** One arm of the ledger. The program keeps the list of trades for arm 0 only. */
  datatype Arm = Arm(cash: real, pending: seq<Lot>, trades: seq<Trade>)

  datatype Day = Day(equity: real, benchmark: real, strategyReturn: real, benchmarkReturn: real, unsettled: real)

  datatype Report = Report(ending: real, benchmarkEnding: real, drawdown: real, minimumCash: real,
                           trades: seq<Trade>, daily: seq<Day>, mean: real, variance: real)

  datatype Result<T> = Ok(value: T) | ValueError

  /** The two cost cases of the study, five and ten basis points per side. */
  type Cost = c: real | c == 0.0005 || c == 0.001 witness 0.001

  // ----- Money held and money on its way -----

  function Total(lots: seq<Lot>): real {
    if lots == [] then 0.0 else Total(lots[..|lots| - 1]) + lots[|lots| - 1].value
  }

  function DueBy(lots: seq<Lot>, now: int): seq<Lot> {
    if lots == [] then []
    else
      var rest, lot := DueBy(lots[..|lots| - 1], now), lots[|lots| - 1];
      if lot.due <= now then rest + [lot] else rest
  }

  function NotDueBy(lots: seq<Lot>, now: int): seq<Lot> {
    if lots == [] then []
    else
      var rest, lot := NotDueBy(lots[..|lots| - 1], now), lots[|lots| - 1];
      if lot.due > now then rest + [lot] else rest
  }

  function Equity(arm: Arm): real {
    arm.cash + Total(arm.pending)
  }

  // ----- One session of one arm -----

  function Settle(arm: Arm, now: int): Arm {
    arm.(cash := arm.cash + Total(DueBy(arm.pending, now)), pending := NotDueBy(arm.pending, now))
  }

  /** Six decimal places, towards zero. */
  function RoundDown(x: real): real {
    if x >= 0.0 then (x * 1000000.0).Floor as real / 1000000.0
    else -((-x * 1000000.0).Floor as real / 1000000.0)
  }

  function Min(a: real, b: real): real {
    if b < a then b else a
  }

  function Max(a: real, b: real): real {
    if b > a then b else a
  }

  predicate Priced(row: Row) {
    row.signal > 0.0 && row.previous > 0.0 && row.entry > 0.0 && row.exit > 0.0
  }

  function BuyPrice(row: Row, cost: Cost): real {
    row.entry * (1.0 + cost)
  }

  function SellPrice(row: Row, cost: Cost): real {
    row.exit * (1.0 - cost)
  }

  /** Arm 0 trades on a positive signal only; arm 1 trades every eligible session. A run is refused
      at an eligible row that is not priced. */
  predicate Wants(row: Row, strategy: bool) {
    row.eligible && Priced(row) && (strategy ==> row.signal > row.previous)
  }

  /** The quantity bought: nine percent of the equity, or all cash if that is less. */
  function Quantity(arm: Arm, price: real): real
    requires price > 0.0
  {
    RoundDown(Min(0.09 * Equity(arm), arm.cash) / price)
  }

  function Bought(row: Row, cost: Cost, quantity: real): Trade {
    Trade(row.index, quantity, quantity * BuyPrice(row, cost), quantity * SellPrice(row, cost))
  }

  function Record(arm: Arm, trade: Trade): Arm {
    Arm(arm.cash - trade.notional, arm.pending + [Lot(trade.index + 2, trade.proceeds)], arm.trades + [trade])
  }

  function Trading(arm: Arm, row: Row, cost: Cost): Arm
    requires BuyPrice(row, cost) > 0.0
  {
    var quantity := Quantity(arm, BuyPrice(row, cost));
    if quantity <= 0.0 then arm
    else
      Record(arm, Bought(row, cost, quantity))
  }

  ghost predicate AllPositive(row: Row) {
    0.0 < row.signal && 0.0 < row.previous && 0.0 < row.entry && 0.0 < row.exit
  }

  /** The first k rows are chronological, and priced where eligible. */
  ghost predicate Accepted(rows: seq<Row>, k: nat)
    requires k <= |rows|
  {
    && (forall i | 0 <= i < k :: rows[i].index >= 0 && (rows[i].eligible ==> AllPositive(rows[i])))
    && (forall i, j | 0 <= i < j < k :: rows[i].index < rows[j].index && rows[i].date < rows[j].date)
  }

  function Session(arm: Arm, row: Row, cost: Cost, strategy: bool): Arm {
    var settled := Settle(arm, row.index);
    if Wants(row, strategy) then
      Prices(row, cost);
      Trading(settled, row, cost)
    else settled
  }

  const OPENING_ARM := Arm(OPENING, [], [])

  /** An arm after the first k sessions. */
  function Run(rows: seq<Row>, k: nat, cost: Cost, strategy: bool): Arm
    requires k <= |rows|
  {
    if k == 0 then OPENING_ARM else Session(Run(rows, k - 1, cost, strategy), rows[k - 1], cost, strategy)
  }

  // ----- The reference account: what cash and pending must be, from the trades alone -----

  /** Cash once every sale at least two sessions old has settled and nothing younger has. */
  ghost function CashAt(trades: seq<Trade>, now: int): real {
    if trades == [] then 500.0
    else
      var rest, last := CashAt(trades[..|trades| - 1], now), trades[|trades| - 1];
      if last.index + 2 <= now then rest - last.notional + last.proceeds else rest - last.notional
  }

  ghost function Outstanding(trades: seq<Trade>, now: int): seq<Lot> {
    if trades == [] then []
    else
      var rest, last := Outstanding(trades[..|trades| - 1], now), trades[|trades| - 1];
      if last.index + 2 > now then rest + [Lot(last.index + 2, last.proceeds)] else rest
  }

  ghost function Profit(trades: seq<Trade>): real {
    if trades == [] then 0.0
    else Profit(trades[..|trades| - 1]) + trades[|trades| - 1].proceeds - trades[|trades| - 1].notional
  }

  /** The opening balance and all profit, settled or not. */
  ghost function Worth(trades: seq<Trade>): real {
    500.0 + Profit(trades)
  }

  /** What every session keeps, `now` being its index. */
  ghost predicate Sound(arm: Arm, now: int) {
    && 0.0 <= arm.cash == CashAt(arm.trades, now)
    && arm.pending == Outstanding(arm.trades, now)
    && Equity(arm) == Worth(arm.trades) > 0.0
    && Ordered(arm.trades, now)
  }

  ghost predicate Ordered(trades: seq<Trade>, now: int) {
    && (forall i | 0 <= i < |trades| :: trades[i].index <= now && trades[i].proceeds > 0.0)
    && (forall i, j | 0 <= i < j < |trades| :: trades[i].index < trades[j].index)
  }

  // ----- Settlement -----

  lemma OneMoreLot(lots: seq<Lot>, lot: Lot, now: int)
    ensures Total(lots + [lot]) == Total(lots) + lot.value
    ensures DueBy(lots + [lot], now) == if lot.due <= now then DueBy(lots, now) + [lot] else DueBy(lots, now)
    ensures NotDueBy(lots + [lot], now) == if lot.due > now then NotDueBy(lots, now) + [lot] else NotDueBy(lots, now)
  {
    assert (lots + [lot])[..|lots|] == lots;
  }

  lemma OneMoreTrade(trades: seq<Trade>, trade: Trade, now: int)
    ensures Profit(trades + [trade]) == Profit(trades) + trade.proceeds - trade.notional
    ensures trade.index + 2 > now ==>
      CashAt(trades + [trade], now) == CashAt(trades, now) - trade.notional &&
      Outstanding(trades + [trade], now) == Outstanding(trades, now) + [Lot(trade.index + 2, trade.proceeds)]
    ensures trade.index + 2 <= now ==>
      CashAt(trades + [trade], now) == CashAt(trades, now) - trade.notional + trade.proceeds &&
      Outstanding(trades + [trade], now) == Outstanding(trades, now)
  {
    assert (trades + [trade])[..|trades|] == trades;
  }

  lemma {:induction false} SettlementIsTimely(trades: seq<Trade>, before: int, now: int)
    requires before <= now
    ensures CashAt(trades, now) == CashAt(trades, before) + Total(DueBy(Outstanding(trades, before), now))
    ensures Outstanding(trades, now) == NotDueBy(Outstanding(trades, before), now)
  {
    if trades != [] {
      var earlier, last := trades[..|trades| - 1], trades[|trades| - 1];
      SettlementIsTimely(earlier, before, now);
      assert trades == earlier + [last];
      OneMoreTrade(earlier, last, before);
      OneMoreTrade(earlier, last, now);
      var rest, lot := Outstanding(earlier, before), Lot(last.index + 2, last.proceeds);
      OneMoreLot(rest, lot, now);
      OneMoreLot(DueBy(rest, now), lot, now);
    }
  }

  lemma {:induction false} SettlingMovesMoney(lots: seq<Lot>, now: int)
    ensures Total(lots) == Total(DueBy(lots, now)) + Total(NotDueBy(lots, now))
  {
    if lots != [] {
      var rest, lot := lots[..|lots| - 1], lots[|lots| - 1];
      SettlingMovesMoney(rest, now);
      OneMoreLot(DueBy(rest, now), lot, now);
      OneMoreLot(NotDueBy(rest, now), lot, now);
    }
  }

  lemma {:induction false} PaymentsAreGains(lots: seq<Lot>, now: int)
    requires forall i | 0 <= i < |lots| :: lots[i].value > 0.0
    ensures Total(DueBy(lots, now)) >= 0.0
  {
    if lots != [] {
      var rest, lot := lots[..|lots| - 1], lots[|lots| - 1];
      PaymentsAreGains(rest, now);
      OneMoreLot(DueBy(rest, now), lot, now);
    }
  }

  lemma {:induction false} OutstandingIsPositive(trades: seq<Trade>, now: int)
    requires forall i | 0 <= i < |trades| :: trades[i].proceeds > 0.0
    ensures forall i | 0 <= i < |Outstanding(trades, now)| :: Outstanding(trades, now)[i].value > 0.0
  {
    if trades != [] {
      OutstandingIsPositive(trades[..|trades| - 1], now);
    }
  }

  lemma SettleKeepsSound(arm: Arm, before: int, now: int)
    requires Sound(arm, before) && before <= now
    ensures Sound(Settle(arm, now), now) && Equity(Settle(arm, now)) == Equity(arm)
    ensures Settle(arm, now).trades == arm.trades
  {
    SettlementIsTimely(arm.trades, before, now);
    SettlingMovesMoney(arm.pending, now);
    OutstandingIsPositive(arm.trades, before);
    PaymentsAreGains(arm.pending, now);
  }

  /** At most two sales are ever on their way: only those of this session and the one before it. */
  lemma {:induction false} AtMostTwoPending(trades: seq<Trade>, now: int)
    requires forall i | 0 <= i < |trades| :: trades[i].index <= now
    requires forall i, j | 0 <= i < j < |trades| :: trades[i].index < trades[j].index
    ensures |Outstanding(trades, now)| <= 2
    ensures trades != [] && trades[|trades| - 1].index < now ==> |Outstanding(trades, now)| <= 1
    ensures trades != [] && trades[|trades| - 1].index < now - 1 ==> Outstanding(trades, now) == []
  {
    if trades != [] {
      AtMostTwoPending(trades[..|trades| - 1], now);
    }
  }

  // ----- Buying -----

  lemma Millionths(x: real, units: int)
    ensures units as real / 1000000.0 <= x <==> units as real <= x * 1000000.0
  {
  }

  /** Rounding down gives the largest number of six decimals that does not exceed its argument. */
  lemma RoundDownIsLargest(x: real, units: int)
    requires x >= 0.0
    ensures 0.0 <= RoundDown(x) <= x
    ensures units as real / 1000000.0 <= x ==> units as real / 1000000.0 <= RoundDown(x)
  {
    var scaled := x * 1000000.0;
    Millionths(x, scaled.Floor);
    Millionths(x, units);
    if units as real <= scaled {
      assert units <= scaled.Floor;
    }
  }

  lemma Spending(limit: real, price: real, quantity: real)
    requires price > 0.0 && 0.0 <= quantity <= limit / price
    ensures 0.0 <= quantity * price <= limit
  {
    assert quantity * price <= (limit / price) * price;
  }

  lemma PositiveProduct(a: real, b: real)
    requires a > 0.0 && b > 0.0
    ensures a * b > 0.0
  {
  }

  lemma Prices(row: Row, cost: Cost)
    requires Priced(row)
    ensures BuyPrice(row, cost) > 0.0 && SellPrice(row, cost) > 0.0
  {
  }

  lemma OrderedExtends(trades: seq<Trade>, trade: Trade)
    requires Ordered(trades, trade.index - 1) && trade.proceeds > 0.0
    ensures Ordered(trades + [trade], trade.index)
  {
  }

  lemma RecordKeepsSound(arm: Arm, trade: Trade)
    requires Sound(arm, trade.index) && Ordered(arm.trades, trade.index - 1)
    requires 0.0 <= trade.notional <= arm.cash && trade.notional <= 0.09 * Equity(arm) && trade.proceeds > 0.0
    ensures Sound(Record(arm, trade), trade.index)
    ensures Equity(Record(arm, trade)) >= 0.91 * Equity(arm)
  {
    hide CashAt, Outstanding, Profit, Total, DueBy, NotDueBy;
    var after := Record(arm, trade);
    OneMoreLot(arm.pending, Lot(trade.index + 2, trade.proceeds), trade.index);
    OneMoreTrade(arm.trades, trade, trade.index);
    OrderedExtends(arm.trades, trade);
    assert Equity(after) == Equity(arm) - trade.notional + trade.proceeds;
  }

  lemma QuantityIsAffordable(arm: Arm, price: real)
    requires price > 0.0 && arm.cash >= 0.0 && Equity(arm) >= 0.0
    ensures 0.0 <= Quantity(arm, price) * price <= arm.cash
    ensures Quantity(arm, price) * price <= 0.09 * Equity(arm)
  {
    var limit := Min(0.09 * Equity(arm), arm.cash);
    NonNegativeQuotient(limit, price);
    RoundDownIsLargest(limit / price, 0);
    Spending(limit, price, RoundDown(limit / price));
  }

  /** A trade spends settled cash only, and at most nine percent of the equity. */
  lemma TradingKeepsSound(arm: Arm, row: Row, cost: Cost)
    requires Priced(row) && Sound(arm, row.index) && Ordered(arm.trades, row.index - 1)
    ensures BuyPrice(row, cost) > 0.0
    ensures Sound(Trading(arm, row, cost), row.index)
    ensures Equity(Trading(arm, row, cost)) >= 0.91 * Equity(arm)
  {
    Prices(row, cost);
    var price := BuyPrice(row, cost);
    var quantity := Quantity(arm, price);
    QuantityIsAffordable(arm, price);
    if quantity > 0.0 {
      PositiveProduct(quantity, SellPrice(row, cost));
      var trade := Bought(row, cost, quantity);
      RecordKeepsSound(arm, trade);
    }
  }

  lemma NonNegativeQuotient(a: real, b: real)
    requires a >= 0.0 && b > 0.0
    ensures a / b >= 0.0
  {
  }

  lemma SessionKeepsSound(arm: Arm, row: Row, cost: Cost, strategy: bool, before: int)
    requires Sound(arm, before) && before < row.index
    ensures Sound(Session(arm, row, cost, strategy), row.index)
    ensures Equity(Session(arm, row, cost, strategy)) >= 0.91 * Equity(arm)
  {
    SettleKeepsSound(arm, before, row.index);
    if Wants(row, strategy) {
      TradingKeepsSound(Settle(arm, row.index), row, cost);
    }
  }

  function LastIndex(rows: seq<Row>, k: nat): int
    requires k <= |rows|
  {
    if k == 0 then -1 else rows[k - 1].index
  }

  lemma OpeningIsSound()
    ensures Sound(OPENING_ARM, -1)
  {
  }

  lemma SoundPending(arm: Arm, now: int)
    requires Sound(arm, now)
    ensures |arm.pending| <= 2
  {
    AtMostTwoPending(arm.trades, now);
  }

  /** Main result, for both arms after any number of accepted sessions: cash is never negative and
      is exactly what two-session settlement allows, equity is the opening balance plus all profit,
      and no more than two sales are unsettled. */
  lemma {:induction false} LedgerIsSound(rows: seq<Row>, k: nat, cost: Cost, strategy: bool)
    requires k <= |rows| && Accepted(rows, k)
    ensures Sound(Run(rows, k, cost, strategy), LastIndex(rows, k))
    ensures |Run(rows, k, cost, strategy).pending| <= 2
  {
    hide Session, Sound, Priced;
    if k == 0 {
      OpeningIsSound();
    } else {
      LedgerIsSound(rows, k - 1, cost, strategy);
      SessionKeepsSound(Run(rows, k - 1, cost, strategy), rows[k - 1], cost, strategy, LastIndex(rows, k - 1));
    }
    SoundPending(Run(rows, k, cost, strategy), LastIndex(rows, k));
  }

  /** No session loses more than nine percent, so no return ever divides by zero. */
  lemma EquityFloor(rows: seq<Row>, k: nat, cost: Cost, strategy: bool)
    requires k < |rows| && Accepted(rows, k + 1)
    ensures Equity(Run(rows, k + 1, cost, strategy)) >= 0.91 * Equity(Run(rows, k, cost, strategy)) > 0.0
  {
    LedgerIsSound(rows, k, cost, strategy);
    SessionKeepsSound(Run(rows, k, cost, strategy), rows[k], cost, strategy, LastIndex(rows, k));
  }

  // ----- The rules of trading, from the rows and the earlier trades alone -----

  /** A number of millionths. */
  ghost function SixPlaces(units: int): real {
    units as real / 1000000.0
  }

  /** A purchase within nine percent of the equity and within the settled cash. */
  ghost predicate Affordable(quantity: real, price: real, equity: real, cash: real) {
    quantity * price <= 0.09 * equity && quantity * price <= cash
  }

  /** The largest affordable number of millionths. */
  ghost predicate LargestAffordable(quantity: real, price: real, equity: real, cash: real) {
    && (exists units: int :: quantity == SixPlaces(units))
    && Affordable(quantity, price, equity, cash)
    && forall units: int :: Affordable(SixPlaces(units), price, equity, cash) ==> SixPlaces(units) <= quantity
  }

  /** The session calls for a trade, and something can be bought. */
  ghost predicate Calls(row: Row, cost: real, signalled: bool, equity: real, cash: real) {
    && row.eligible && (signalled ==> row.signal > row.previous)
    && exists units: int :: units > 0 && Affordable(SixPlaces(units), row.entry * (1.0 + cost), equity, cash)
  }

  /** Bought at the entry price plus the cost, sold at the exit price less the cost. */
  ghost predicate Follows(trade: Trade, row: Row, cost: real, equity: real, cash: real) {
    && trade.index == row.index
    && LargestAffordable(trade.quantity, row.entry * (1.0 + cost), equity, cash)
    && trade.notional == trade.quantity * (row.entry * (1.0 + cost))
    && trade.proceeds == trade.quantity * (row.exit * (1.0 - cost))
  }

  /** What one session adds to the trades; `signalled` demands a close above the previous one. */
  ghost predicate SessionLaw(row: Row, cost: real, signalled: bool, before: seq<Trade>, after: seq<Trade>) {
    var equity, cash := Worth(before), CashAt(before, row.index);
    if Calls(row, cost, signalled, equity, cash) then
      |after| == |before| + 1 && after[..|before|] == before && Follows(after[|before|], row, cost, equity, cash)
    else after == before
  }

  /** The trades after each session of an arm. */
  ghost predicate History(rows: seq<Row>, cost: real, signalled: bool, history: seq<seq<Trade>>) {
    && |history| == |rows| + 1 && history[0] == []
    && forall k | 0 <= k < |rows| :: Obeyed(rows, cost, signalled, history, k)
  }

  ghost predicate Obeyed(rows: seq<Row>, cost: real, signalled: bool, history: seq<seq<Trade>>, k: nat)
    requires k < |rows| && |history| == |rows| + 1
  {
    SessionLaw(rows[k], cost, signalled, history[k], history[k + 1])
  }

  /** The rules leave no choice: they determine every trade. */
  lemma {:induction false} HistoryIsUnique(rows: seq<Row>, cost: real, signalled: bool, a: seq<seq<Trade>>, b: seq<seq<Trade>>, k: nat)
    requires History(rows, cost, signalled, a) && History(rows, cost, signalled, b) && k <= |rows|
    ensures a[k] == b[k]
  {
    if k > 0 {
      hide SessionLaw;
      HistoryIsUnique(rows, cost, signalled, a, b, k - 1);
      ghost var last := k - 1;
      assert Obeyed(rows, cost, signalled, a, last) && Obeyed(rows, cost, signalled, b, last);
      SessionLawDecides(rows[last], cost, signalled, a[last], a[k], b[k]);
    }
  }

  lemma SessionLawDecides(row: Row, cost: real, signalled: bool, before: seq<Trade>, a: seq<Trade>, b: seq<Trade>)
    requires SessionLaw(row, cost, signalled, before, a) && SessionLaw(row, cost, signalled, before, b)
    ensures a == b
  {
    hide Worth, CashAt, Calls, LargestAffordable;
    var n, equity, cash := |before|, Worth(before), CashAt(before, row.index);
    if Calls(row, cost, signalled, equity, cash) {
      LargestIsUnique(a[n].quantity, b[n].quantity, row.entry * (1.0 + cost), equity, cash);
      assert a[n] == b[n];
      assert a == before + [a[n]] && b == before + [b[n]];
    }
  }

  lemma LargestIsUnique(p: real, q: real, price: real, equity: real, cash: real)
    requires LargestAffordable(p, price, equity, cash) && LargestAffordable(q, price, equity, cash)
    ensures p == q
  {
    hide Affordable;
  }

  lemma AffordableUnits(units: int, price: real, limit: real)
    requires price > 0.0
    ensures SixPlaces(units) * price <= limit <==> SixPlaces(units) <= limit / price
  {
    var quantity, most := SixPlaces(units), limit / price;
    assert most * price == limit;
    ProductsCompare(quantity, most, price);
  }

  lemma ProductsCompare(x: real, y: real, price: real)
    requires price > 0.0
    ensures x * price <= y * price <==> x <= y
  {
    if x <= y {
      NotLess(x, y, price);
    } else {
      Less(y, x, price);
    }
  }

  lemma NotLess(x: real, y: real, price: real)
    requires price > 0.0 && x <= y
    ensures x * price <= y * price
  {
  }

  lemma Less(x: real, y: real, price: real)
    requires price > 0.0 && x < y
    ensures x * price < y * price
  {
  }

  lemma QuantityIsLargest(arm: Arm, price: real)
    requires price > 0.0 && arm.cash >= 0.0 && Equity(arm) >= 0.0
    ensures LargestAffordable(Quantity(arm, price), price, Equity(arm), arm.cash)
    ensures Quantity(arm, price) > 0.0 <==>
      exists units: int :: units > 0 && Affordable(SixPlaces(units), price, Equity(arm), arm.cash)
  {
    hide Equity, RoundDown;
    var equity, cash := Equity(arm), arm.cash;
    var limit := Min(0.09 * equity, cash);
    var most, quantity := limit / price, Quantity(arm, price);
    NonNegativeQuotient(limit, price);
    QuantityIsAffordable(arm, price);
    forall units: int ensures Affordable(SixPlaces(units), price, equity, cash) <==> SixPlaces(units) <= quantity {
      AffordableUnits(units, price, limit);
      RoundDownIsLargest(most, units);
    }
    var whole := MillionthsOf(most);
    assert quantity == SixPlaces(whole);
    assert quantity > 0.0 ==> whole > 0 && Affordable(SixPlaces(whole), price, equity, cash);
  }

  lemma MillionthsOf(x: real) returns (units: int)
    requires x >= 0.0
    ensures RoundDown(x) == SixPlaces(units)
  {
    units := (x * 1000000.0).Floor;
  }

  /** The program's session obeys the rules, in both arms. */
  lemma SessionObeys(rows: seq<Row>, k: nat, cost: Cost, strategy: bool)
    requires k < |rows| && Accepted(rows, k + 1)
    ensures SessionLaw(rows[k], cost, strategy, Run(rows, k, cost, strategy).trades, Run(rows, k + 1, cost, strategy).trades)
  {
    hide CashAt, Profit, Outstanding, LargestAffordable, Affordable, Quantity, Ordered, Run, Accepted;
    var row, arm := rows[k], Run(rows, k, cost, strategy);
    AcceptedRow(rows, k);
    LedgerIsSound(rows, k, cost, strategy);
    RunStep(rows, k, cost, strategy);
    SettleKeepsSound(arm, LastIndex(rows, k), row.index);
    var settled := Settle(arm, row.index);
    assert settled.cash == CashAt(arm.trades, row.index) && Equity(settled) == Worth(arm.trades);
    if row.eligible {
      Prices(row, cost);
      QuantityIsLargest(settled, BuyPrice(row, cost));
    }
  }

  lemma AcceptedRow(rows: seq<Row>, k: nat)
    requires k < |rows| && Accepted(rows, k + 1)
    ensures Accepted(rows, k) && LastIndex(rows, k) < rows[k].index && (rows[k].eligible ==> Priced(rows[k]))
  {
  }

  lemma RunStep(rows: seq<Row>, k: nat, cost: Cost, strategy: bool)
    requires k < |rows|
    ensures Run(rows, k + 1, cost, strategy) == Session(Run(rows, k, cost, strategy), rows[k], cost, strategy)
  {
    hide Session;
  }

  ghost function Histories(rows: seq<Row>, cost: Cost, strategy: bool): seq<seq<Trade>> {
    seq(|rows| + 1, k requires 0 <= k <= |rows| => Run(rows, k, cost, strategy).trades)
  }

  lemma RunIsHistory(rows: seq<Row>, cost: Cost, strategy: bool)
    requires Accepted(rows, |rows|)
    ensures History(rows, cost, strategy, Histories(rows, cost, strategy))
  {
    hide Session, SessionLaw, Run, Accepted;
    var history := Histories(rows, cost, strategy);
    RunStarts(rows, cost, strategy);
    forall k | 0 <= k < |rows| ensures Obeyed(rows, cost, strategy, history, k) {
      AcceptedBefore(rows, k + 1);
      SessionObeys(rows, k, cost, strategy);
    }
  }

  lemma RunStarts(rows: seq<Row>, cost: Cost, strategy: bool)
    ensures Run(rows, 0, cost, strategy) == OPENING_ARM
  {
  }

  lemma AcceptedBefore(rows: seq<Row>, k: nat)
    requires k <= |rows| && Accepted(rows, |rows|)
    ensures Accepted(rows, k)
  {
  }

  // ----- The program's loop -----

  lemma SplitExtends(lots: seq<Lot>, i: nat, now: int)
    requires i < |lots|
    ensures lots[i].due <= now ==>
      Total(DueBy(lots[..i + 1], now)) == Total(DueBy(lots[..i], now)) + lots[i].value &&
      NotDueBy(lots[..i + 1], now) == NotDueBy(lots[..i], now)
    ensures lots[i].due > now ==>
      DueBy(lots[..i + 1], now) == DueBy(lots[..i], now) &&
      NotDueBy(lots[..i + 1], now) == NotDueBy(lots[..i], now) + [lots[i]]
  {
    assert lots[..i + 1] == lots[..i] + [lots[i]];
    OneMoreLot(lots[..i], lots[i], now);
    OneMoreLot(DueBy(lots[..i], now), lots[i], now);
  }

  method SettleArm(arm: Arm, now: int) returns (settled: Arm)
    ensures settled == Settle(arm, now)
  {
    var lots := arm.pending;
    var released, waiting: seq<Lot> := 0.0, [];
    for i := 0 to |lots|
      invariant released == Total(DueBy(lots[..i], now)) && waiting == NotDueBy(lots[..i], now)
    {
      SplitExtends(lots, i, now);
      if lots[i].due <= now {
        released := released + lots[i].value;
      } else {
        waiting := waiting + [lots[i]];
      }
    }
    assert lots[..|lots|] == lots;
    settled := Arm(arm.cash + released, waiting, arm.trades);
  }

  method TradeArm(arm: Arm, row: Row, cost: Cost, strategy: bool) returns (after: Arm, pnl: real)
    requires (row.eligible ==> Priced(row))
    ensures row.eligible ==> BuyPrice(row, cost) > 0.0
    ensures after == if Wants(row, strategy) then Trading(arm, row, cost) else arm
    ensures pnl == Equity(after) - Equity(arm)
  {
    after, pnl := arm, 0.0;
    if row.eligible {
      Prices(row, cost);
      if !strategy || row.signal > row.previous {
        var quantity := Quantity(arm, BuyPrice(row, cost));
        if quantity > 0.0 {
          var trade := Bought(row, cost, quantity);
          after := Record(arm, trade);
          pnl := trade.proceeds - trade.notional;
          OneMoreLot(arm.pending, Lot(row.index + 2, trade.proceeds), row.index);
        }
      }
    }
  }

  /** Session k of one arm, with the equity before it and the profit it made. */
  method PlaySession(rows: seq<Row>, k: nat, cost: Cost, strategy: bool, arm: Arm)
    returns (after: Arm, opening: real, pnl: real)
    requires k < |rows| && Accepted(rows, k + 1) && arm == Run(rows, k, cost, strategy)
    ensures after == Run(rows, k + 1, cost, strategy) && after.cash >= 0.0
    ensures opening == Equity(arm) > 0.0 && opening + pnl == Equity(after) > 0.0
  {
    hide CashAt, Outstanding, Profit, Ordered, Total, Trading, Priced;
    var row := rows[k];
    LedgerIsSound(rows, k, cost, strategy);
    LedgerIsSound(rows, k + 1, cost, strategy);
    var settled := SettleArm(arm, row.index);
    SettleKeepsSound(arm, LastIndex(rows, k), row.index);
    opening := settled.cash + Total(settled.pending);
    after, pnl := TradeArm(settled, row, cost, strategy);
  }

  // ----- The sampled drawdown -----

  function RelativeFall(peak: real, equity: real): real
    requires peak > 0.0
  {
    (peak - equity) / peak
  }

  /** What is left of x after a relative fall. */
  function Left(fall: real, x: real): real {
    (1.0 - fall) * x
  }

  lemma FallBelowOne(peak: real, equity: real)
    requires 0.0 < equity <= peak
    ensures 0.0 <= RelativeFall(peak, equity) < 1.0 && Left(RelativeFall(peak, equity), peak) == equity
  {
    var fall := RelativeFall(peak, equity);
    assert fall * peak == peak - equity;
    FactorBounds(fall, peak);
  }

  lemma FactorBounds(x: real, y: real)
    requires y > 0.0
    ensures 0.0 <= x * y ==> 0.0 <= x
    ensures x * y < y ==> x < 1.0
  {
  }

  lemma LeftIsMonotone(fall: real, deeper: real, x: real, y: real)
    requires fall <= deeper <= 1.0 && 0.0 < x <= y
    ensures Left(deeper, x) <= Left(fall, y)
  {
    assert (1.0 - deeper) * x <= (1.0 - deeper) * y;
    assert (1.0 - deeper) * y <= (1.0 - fall) * y;
  }

  /** `drawdown` is the deepest relative fall of the path from any earlier point, and is reached. */
  ghost predicate DeepestFall(path: seq<real>, drawdown: real) {
    && 0.0 <= drawdown < 1.0
    && (forall j, k | 0 <= j <= k < |path| :: path[k] >= Left(drawdown, path[j]))
    && (exists j, k :: 0 <= j <= k < |path| && path[k] == Left(drawdown, path[j]))
  }

  ghost predicate IsPeak(path: seq<real>, peak: real) {
    peak in path && forall j | 0 <= j < |path| :: 0.0 < path[j] <= peak
  }

  lemma DrawdownStep(path: seq<real>, equity: real, peak: real, drawdown: real)
    requires DeepestFall(path, drawdown) && IsPeak(path, peak) && equity > 0.0
    ensures var top := Max(peak, equity);
      top > 0.0 && IsPeak(path + [equity], top) && DeepestFall(path + [equity], Max(drawdown, RelativeFall(top, equity)))
  {
    var longer, top := path + [equity], Max(peak, equity);
    var n := |path|;
    assert peak > 0.0;
    assert IsPeak(longer, top) by {
      assert longer[n] == equity;
      var j :| 0 <= j < n && path[j] == peak;
      assert longer[j] == peak;
    }
    FallBelowOne(top, equity);
    var fall := RelativeFall(top, equity);
    var deepest := Max(drawdown, fall);
    forall j, k | 0 <= j <= k < |longer| ensures longer[k] >= Left(deepest, longer[j]) {
      if k < n {
        assert path[k] >= Left(drawdown, path[j]);
        LeftIsMonotone(drawdown, deepest, longer[j], longer[j]);
      } else {
        LeftIsMonotone(fall, deepest, longer[j], top);
      }
    }
    if deepest == drawdown {
      var j, k :| 0 <= j <= k < n && path[k] == Left(drawdown, path[j]);
      assert longer[k] == Left(deepest, longer[j]);
    } else {
      var j :| 0 <= j <= n && longer[j] == top;
      assert longer[n] == Left(deepest, longer[j]);
    }
  }

  /** What the program reports for session k, `opening` being the strategy's equity before it. */
  ghost predicate Reported(rows: seq<Row>, k: nat, cost: Cost, opening: real, day: Day, minimumCash: real)
    requires k < |rows|
  {
    var after := Run(rows, k + 1, cost, true);
    && opening == Equity(Run(rows, k, cost, true))
    && day.equity == Equity(after) == Left(-day.strategyReturn, opening)
    && day.benchmark == Equity(Run(rows, k + 1, cost, false))
                     == Left(-day.benchmarkReturn, Equity(Run(rows, k, cost, false)))
    && day.unsettled == Total(after.pending)
    && minimumCash <= after.cash
  }

  /** The minimum cash is the opening balance or what some session left. */
  ghost predicate Reached(rows: seq<Row>, n: nat, cost: Cost, minimumCash: real)
    requires n <= |rows|
  {
    minimumCash <= OPENING &&
    (minimumCash == OPENING || exists k :: 0 <= k < n && CashAfter(rows, k, cost) == minimumCash)
  }

  /** The strategy's cash when session k closes. */
  function CashAfter(rows: seq<Row>, k: nat, cost: Cost): real
    requires k < |rows|
  {
    Run(rows, k + 1, cost, true).cash
  }

  /** One entry a session, along the path of the strategy arm's equity. */
  ghost predicate Books(rows: seq<Row>, cost: Cost, path: seq<real>, daily: seq<Day>, minimumCash: real) {
    && |path| == |daily| + 1 <= |rows| + 1
    && path[|daily|] == Equity(Run(rows, |daily|, cost, true))
    && Reached(rows, |daily|, cost, minimumCash)
    && forall k | 0 <= k < |daily| :: Reported(rows, k, cost, path[k], daily[k], minimumCash)
  }

  lemma ReachedStep(rows: seq<Row>, n: nat, cost: Cost, minimumCash: real)
    requires n < |rows| && Reached(rows, n, cost, minimumCash)
    ensures Reached(rows, n + 1, cost, Min(minimumCash, CashAfter(rows, n, cost)))
  {
    hide CashAfter;
  }

  lemma ReportedLower(rows: seq<Row>, k: nat, cost: Cost, opening: real, day: Day, minimumCash: real, least: real)
    requires k < |rows| && Reported(rows, k, cost, opening, day, minimumCash) && least <= minimumCash
    ensures Reported(rows, k, cost, opening, day, least)
  {
    hide Run, Left, Equity;
  }

  lemma ReportedEquity(rows: seq<Row>, k: nat, cost: Cost, opening: real, day: Day, minimumCash: real)
    requires k < |rows| && Reported(rows, k, cost, opening, day, minimumCash)
    ensures day.equity == Equity(Run(rows, k + 1, cost, true))
  {
  }

  lemma BooksExtend(rows: seq<Row>, cost: Cost, path: seq<real>, daily: seq<Day>, minimumCash: real, day: Day, least: real)
    requires Books(rows, cost, path, daily, minimumCash) && |daily| < |rows|
    requires least == Min(minimumCash, CashAfter(rows, |daily|, cost))
    requires Reported(rows, |daily|, cost, path[|daily|], day, least)
    ensures Books(rows, cost, path + [day.equity], daily + [day], least)
  {
    hide Reported, Reached, CashAfter, Run;
    forall k | 0 <= k < |daily| ensures Reported(rows, k, cost, path[k], daily[k], least) {
      ReportedLower(rows, k, cost, path[k], daily[k], minimumCash, least);
    }
    ReportedEquity(rows, |daily|, cost, path[|daily|], day, least);
    ReachedStep(rows, |daily|, cost, minimumCash);
  }

  lemma AcceptedExtends(rows: seq<Row>, k: nat)
    requires k < |rows| && Accepted(rows, k)
    requires LastIndex(rows, k) < rows[k].index && 0 <= rows[k].index && (rows[k].eligible ==> Priced(rows[k]))
    requires k > 0 ==> rows[k - 1].date < rows[k].date
    ensures Accepted(rows, k + 1)
  {
  }

  /** The reported return: what scales the opening equity to the closing one. */
  method DailyReturn(opening: real, pnl: real) returns (r: real)
    requires opening > 0.0
    ensures Left(-r, opening) == opening + pnl
  {
    r := pnl / opening;
  }

  method SampleDrawdown(ghost path: seq<real>, equity: real, peak: real, drawdown: real) returns (top: real, deepest: real)
    requires DeepestFall(path, drawdown) && IsPeak(path, peak) && equity > 0.0
    ensures IsPeak(path + [equity], top) && DeepestFall(path + [equity], deepest)
  {
    DrawdownStep(path, equity, peak, drawdown);
    top := Max(peak, equity);
    deepest := Max(drawdown, RelativeFall(top, equity));
  }

  /** The variables of the program's loop. */
  datatype Study = Study(strategy: Arm, benchmark: Arm, daily: seq<Day>, peak: real, drawdown: real, minimumCash: real)

  ghost predicate Progress(rows: seq<Row>, k: nat, cost: Cost, path: seq<real>, study: Study) {
    && k <= |rows| && |study.daily| == k
    && study.strategy == Run(rows, k, cost, true) && study.benchmark == Run(rows, k, cost, false)
    && Books(rows, cost, path, study.daily, study.minimumCash)
    && IsPeak(path, study.peak) && DeepestFall(path, study.drawdown) && 0.0 <= study.minimumCash
  }

  method PlayDay(rows: seq<Row>, k: nat, cost: Cost, study: Study, ghost path: seq<real>) returns (next: Study)
    requires k < |rows| && Accepted(rows, k + 1) && Progress(rows, k, cost, path, study)
    ensures next.daily != [] && Progress(rows, k + 1, cost, path + [next.daily[|next.daily| - 1].equity], next)
  {
    hide Session, Left, IsPeak, DeepestFall, Equity;
    var strategy, opening, pnl := PlaySession(rows, k, cost, true, study.strategy);
    var benchmark, benchmarkOpening, benchmarkPnl := PlaySession(rows, k, cost, false, study.benchmark);
    var after := opening + pnl;
    var peak, drawdown := SampleDrawdown(path, after, study.peak, study.drawdown);
    var minimumCash := Min(study.minimumCash, strategy.cash);
    var strategyReturn := DailyReturn(opening, pnl);
    var benchmarkReturn := DailyReturn(benchmarkOpening, benchmarkPnl);
    var day := Day(after, benchmarkOpening + benchmarkPnl, strategyReturn, benchmarkReturn, Total(strategy.pending));
    BooksExtend(rows, cost, path, study.daily, study.minimumCash, day, minimumCash);
    next := Study(strategy, benchmark, study.daily + [day], peak, drawdown, minimumCash);
  }

  /** The strategy's return less the benchmark's, on the eligible ones of the first k sessions. */
  ghost function Differences(rows: seq<Row>, daily: seq<Day>, k: nat): seq<real>
    requires k <= |rows| && k <= |daily|
  {
    if k == 0 then []
    else
      var rest := Differences(rows, daily, k - 1);
      if rows[k - 1].eligible then rest + [daily[k - 1].strategyReturn - daily[k - 1].benchmarkReturn] else rest
  }

  method PairedDifferences(rows: seq<Row>, daily: seq<Day>) returns (differences: seq<real>)
    requires |rows| == |daily|
    ensures differences == Differences(rows, daily, |rows|)
  {
    differences := [];
    for k := 0 to |rows|
      invariant differences == Differences(rows, daily, k)
    {
      if rows[k].eligible {
        differences := differences + [daily[k].strategyReturn - daily[k].benchmarkReturn];
      }
    }
  }

  /** The reported mean and long-run variance: the latter a mean of squared windows, and zero
      without eligible sessions. */
  ghost predicate Estimates(mean: real, variance: real, differences: seq<real>) {
    && variance >= 0.0
    && (differences == [] ==> mean == 0.0 == variance)
    && (differences != [] ==> Estimated(differences, mean, variance))
  }

  method Estimate(rows: seq<Row>, daily: seq<Day>) returns (mean: real, variance: real)
    requires |rows| == |daily|
    ensures Estimates(mean, variance, Differences(rows, daily, |rows|))
  {
    hide Differences;
    var differences := PairedDifferences(rows, daily);
    var average, _, clamped := PairedVariance(differences);
    mean, variance := average, clamped;
  }

  lemma StudyOpens(rows: seq<Row>, cost: Cost)
    ensures Progress(rows, 0, cost, [OPENING], Study(OPENING_ARM, OPENING_ARM, [], OPENING, 0.0, OPENING))
  {
    var path := [OPENING];
    assert path[0] == Left(0.0, path[0]);
  }

  lemma StudyCloses(rows: seq<Row>, cost: Cost, path: seq<real>, study: Study)
    requires Progress(rows, |rows|, cost, path, study)
    ensures |study.daily| == |rows| && Books(rows, cost, path, study.daily, study.minimumCash)
    ensures |path| == |rows| + 1 && study.strategy.cash + Total(study.strategy.pending) == path[|rows|]
    ensures study.benchmark.cash + Total(study.benchmark.pending) == Equity(Run(rows, |rows|, cost, false))
    ensures study.strategy == Run(rows, |rows|, cost, true)
    ensures DeepestFall(path, study.drawdown) && study.minimumCash >= 0.0
  {
    hide Run, DeepestFall, IsPeak, Reported, Reached;
  }

  // ----- The report, from the two arms' trades alone -----

  ghost predicate ToldDay(rows: seq<Row>, own: seq<seq<Trade>>, other: seq<seq<Trade>>, k: nat, day: Day)
    requires k < |rows| && |own| == |rows| + 1 && |other| == |rows| + 1
  {
    && day.equity == Worth(own[k + 1]) && day.strategyReturn * Worth(own[k]) == Worth(own[k + 1]) - Worth(own[k])
    && day.benchmark == Worth(other[k + 1]) && day.benchmarkReturn * Worth(other[k]) == Worth(other[k + 1]) - Worth(other[k])
    && day.unsettled == Worth(own[k + 1]) - CashAt(own[k + 1], rows[k].index)
  }

  /** The smallest of the opening balance and the strategy's cash at each close. */
  ghost predicate LeastCash(rows: seq<Row>, own: seq<seq<Trade>>, least: real)
    requires |own| == |rows| + 1
  {
    && least <= 500.0 && (forall k | 0 <= k < |rows| :: least <= Closing(rows, own, k))
    && (least == 500.0 || exists k :: 0 <= k < |rows| && least == Closing(rows, own, k))
  }

  ghost function Closing(rows: seq<Row>, own: seq<seq<Trade>>, k: nat): real
    requires k < |rows| && |own| == |rows| + 1
  {
    CashAt(own[k + 1], rows[k].index)
  }

  ghost predicate Tells(rows: seq<Row>, report: Report, own: seq<seq<Trade>>, other: seq<seq<Trade>>)
    requires |own| == |rows| + 1 && |other| == |rows| + 1
  {
    && report.trades == own[|rows|] && report.ending == Worth(own[|rows|]) && report.benchmarkEnding == Worth(other[|rows|])
    && |report.daily| == |rows| && (forall k | 0 <= k < |rows| :: ToldDay(rows, own, other, k, report.daily[k]))
    && LeastCash(rows, own, report.minimumCash)
    && DeepestFall(seq(|own|, k requires 0 <= k < |own| => Worth(own[k])), report.drawdown)
  }

  /** `at` lists the eligible sessions, and `differences` what the strategy returned over the
      benchmark in each of them. */
  ghost predicate PairedAt(rows: seq<Row>, daily: seq<Day>, n: nat, at: seq<nat>, differences: seq<real>)
    requires n <= |rows| && n <= |daily|
  {
    && |at| == |differences| && (forall k | 0 <= k < n && rows[k].eligible :: k in at)
    && (forall i, j | 0 <= i < j < |at| :: at[i] < at[j])
    && (forall i | 0 <= i < |at| :: at[i] < n && rows[at[i]].eligible &&
          differences[i] == daily[at[i]].strategyReturn - daily[at[i]].benchmarkReturn)
  }

  /** The estimates are those of the paired differences. */
  ghost predicate Judged(rows: seq<Row>, daily: seq<Day>, mean: real, variance: real)
    requires |rows| == |daily|
  {
    exists at, differences :: PairedAt(rows, daily, |rows|, at, differences) && Estimates(mean, variance, differences)
  }

  lemma RunWorth(rows: seq<Row>, k: nat, cost: Cost, strategy: bool)
    requires k <= |rows| && Accepted(rows, |rows|)
    ensures var arm := Run(rows, k, cost, strategy);
      && Equity(arm) == Worth(arm.trades) && arm.cash == CashAt(arm.trades, LastIndex(rows, k))
      && Total(arm.pending) == Worth(arm.trades) - arm.cash
  {
    hide Run, CashAt, Outstanding, Ordered, Worth;
    AcceptedBefore(rows, k);
    LedgerIsSound(rows, k, cost, strategy);
  }

  lemma ReturnOf(r: real, opening: real, closing: real)
    requires Left(-r, opening) == closing
    ensures r * opening == closing - opening
  {
  }

  lemma DayIsTold(rows: seq<Row>, cost: Cost, k: nat, opening: real, day: Day, minimumCash: real)
    requires k < |rows| && Accepted(rows, |rows|) && Reported(rows, k, cost, opening, day, minimumCash)
    ensures ToldDay(rows, Histories(rows, cost, true), Histories(rows, cost, false), k, day)
    ensures minimumCash <= Closing(rows, Histories(rows, cost, true), k) == CashAfter(rows, k, cost)
    ensures opening == Worth(Histories(rows, cost, true)[k])
  {
    hide Run, CashAt, Worth, Equity, Total, Left, Accepted;
    RunWorth(rows, k, cost, true);
    RunWorth(rows, k + 1, cost, true);
    RunWorth(rows, k, cost, false);
    RunWorth(rows, k + 1, cost, false);
    ReturnOf(day.strategyReturn, opening, day.equity);
    ReturnOf(day.benchmarkReturn, Equity(Run(rows, k, cost, false)), day.benchmark);
  }

  lemma ReportTells(rows: seq<Row>, cost: Cost, path: seq<real>, report: Report)
    requires Accepted(rows, |rows|) && |report.daily| == |rows|
    requires Books(rows, cost, path, report.daily, report.minimumCash) && DeepestFall(path, report.drawdown)
    requires report.ending == path[|rows|] && report.benchmarkEnding == Equity(Run(rows, |rows|, cost, false))
    requires report.trades == Run(rows, |rows|, cost, true).trades
    ensures Tells(rows, report, Histories(rows, cost, true), Histories(rows, cost, false))
  {
    hide Run, CashAfter, Worth, Equity, Accepted, Reported, ToldDay, Closing, DeepestFall;
    var own, other := Histories(rows, cost, true), Histories(rows, cost, false);
    forall k | 0 <= k < |rows|
      ensures ToldDay(rows, own, other, k, report.daily[k]) && path[k] == Worth(own[k])
      ensures report.minimumCash <= Closing(rows, own, k) == CashAfter(rows, k, cost)
    {
      DayIsTold(rows, cost, k, path[k], report.daily[k], report.minimumCash);
    }
    RunWorth(rows, |rows|, cost, true);
    RunWorth(rows, |rows|, cost, false);
    assert path == seq(|own|, k requires 0 <= k < |own| => Worth(own[k]));
  }

  lemma PairedStep(rows: seq<Row>, daily: seq<Day>, n: nat, at: seq<nat>, differences: seq<real>)
    requires n < |rows| && n < |daily| && PairedAt(rows, daily, n, at, differences)
    ensures !rows[n].eligible ==> PairedAt(rows, daily, n + 1, at, differences)
    ensures rows[n].eligible ==>
      PairedAt(rows, daily, n + 1, at + [n], differences + [daily[n].strategyReturn - daily[n].benchmarkReturn])
  {
    var longer := at + [n];
    forall k | 0 <= k <= n && rows[k].eligible ensures k in longer {
      assert k < n ==> k in at;
      assert longer[|at|] == n;
    }
  }

  lemma OneMoreDifference(rows: seq<Row>, daily: seq<Day>, n: nat)
    requires n < |rows| && n < |daily|
    ensures Differences(rows, daily, n + 1) ==
      if rows[n].eligible then Differences(rows, daily, n) + [daily[n].strategyReturn - daily[n].benchmarkReturn]
      else Differences(rows, daily, n)
  {
  }

  lemma NothingListed(rows: seq<Row>, daily: seq<Day>)
    ensures Differences(rows, daily, 0) == [] && PairedAt(rows, daily, 0, [], [])
  {
  }

  lemma {:induction false} EligibleListed(rows: seq<Row>, daily: seq<Day>, k: nat) returns (at: seq<nat>)
    requires |rows| == |daily| && k <= |rows|
    ensures PairedAt(rows, daily, k, at, Differences(rows, daily, k))
  {
    hide PairedAt, Differences;
    at := [];
    if k == 0 {
      NothingListed(rows, daily);
    } else {
      var rest := EligibleListed(rows, daily, k - 1);
      PairedStep(rows, daily, k - 1, rest, Differences(rows, daily, k - 1));
      OneMoreDifference(rows, daily, k - 1);
      at := if rows[k - 1].eligible then rest + [k - 1] else rest;
    }
  }

  lemma DifferencesAreJudged(rows: seq<Row>, daily: seq<Day>, mean: real, variance: real)
    requires |rows| == |daily| && Estimates(mean, variance, Differences(rows, daily, |rows|))
    ensures Judged(rows, daily, mean, variance)
  {
    hide Estimates, Differences, PairedAt;
    var at := EligibleListed(rows, daily, |rows|);
    assert PairedAt(rows, daily, |rows|, at, Differences(rows, daily, |rows|));
  }

  /** One run. `own` and `other` are the trades of the strategy and of the benchmark after each
      session; the rules determine them, and the whole report is told in terms of them. */
  method Simulate(rows: seq<Row>, costBps: int)
    returns (result: Result<Report>, ghost path: seq<real>, ghost own: seq<seq<Trade>>, ghost other: seq<seq<Trade>>)
    ensures result.Ok? <==> (costBps == 5 || costBps == 10) && Accepted(rows, |rows|)
    ensures result.Ok? ==>
      var cost := costBps as real / 10000.0;
      && History(rows, cost, true, own) && History(rows, cost, false, other)
      && Tells(rows, result.value, own, other)
      && Judged(rows, result.value.daily, result.value.mean, result.value.variance)
    ensures result.Ok? ==>
      var cost: Cost := costBps as real / 10000.0;
      var report := result.value;
      |report.daily| == |rows| && Books(rows, cost, path, report.daily, report.minimumCash) &&
      report.ending == path[|rows|] && report.benchmarkEnding == Equity(Run(rows, |rows|, cost, false)) &&
      report.trades == Run(rows, |rows|, cost, true).trades &&
      DeepestFall(path, report.drawdown) && report.minimumCash >= 0.0 &&
      Estimates(report.mean, report.variance, Differences(rows, report.daily, |rows|))
  {
    hide Run, Estimates, Progress, DeepestFall, Books, Equity, Differences, Tells, History, Judged;
    path, own, other := [OPENING], [], [];
    if costBps != 5 && costBps != 10 {
      return ValueError, path, own, other;
    }
    var cost: Cost := costBps as real / 10000.0;
    var study := Study(OPENING_ARM, OPENING_ARM, [], OPENING, 0.0, OPENING);
    var priorIndex: int, priorDate: int := -1, -1;
    StudyOpens(rows, cost);
    for i := 0 to |rows|
      invariant Accepted(rows, i) && priorIndex == LastIndex(rows, i)
      invariant priorDate == if i == 0 then -1 else rows[i - 1].date
      invariant Progress(rows, i, cost, path, study)
    {
      var row := rows[i];
      if row.index <= priorIndex || row.date <= priorDate || (row.eligible && !Priced(row)) {
        return ValueError, path, own, other;
      }
      AcceptedExtends(rows, i);
      study := PlayDay(rows, i, cost, study, path);
      path := path + [study.daily[|study.daily| - 1].equity];
      priorIndex, priorDate := row.index, row.date;
    }
    StudyCloses(rows, cost, path, study);
    var mean, variance := Estimate(rows, study.daily);
    result := Ok(Report(study.strategy.cash + Total(study.strategy.pending),
                        study.benchmark.cash + Total(study.benchmark.pending),
                        study.drawdown, study.minimumCash, study.strategy.trades, study.daily,
                        mean, variance));
    own, other := Histories(rows, cost, true), Histories(rows, cost, false);
    RunIsHistory(rows, cost, true);
    RunIsHistory(rows, cost, false);
    ReportTells(rows, cost, path, result.value);
    DifferencesAreJudged(rows, study.daily, mean, variance);
  }
}
