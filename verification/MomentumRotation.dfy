/** Monthly momentum rotation, rebalanced a fixed number of trading days into each month. The month
    table is built from the whole calendar before the first session is scored, so the absence of
    look-ahead has to be shown, not read off. */
module MomentumRotation {
  import opened Options
  import opened StringOrder

  const TRADING_DAYS: nat := 252
  const SKIP: nat := 21

  type Closes = map<string, map<string, real>>

  datatype Scored = Scored(score: real, symbol: string)

  datatype Result<T> = Ok(value: T) | ZeroDivision

  datatype State = State(daily: seq<real>, holdings: seq<string>)

  function Close(closes: Closes, symbol: string, day: string): Option<real> {
    if symbol in closes && day in closes[symbol] then Some(closes[symbol][day]) else None
  }

  function Month(day: string): string {
    if |day| < 7 then day else day[..7]
  }

  ghost predicate Distinct(dates: seq<string>) {
    forall i, j | 0 <= i < j < |dates| :: dates[i] != dates[j]
  }

  // ----- One session -----

  /** Gains of the holdings that were quoted on both days. */
  function Earned(closes: Closes, holdings: seq<string>, prev: string, day: string): Result<seq<real>> {
    if holdings == [] then Ok([])
    else
      var rest := Earned(closes, holdings[..|holdings| - 1], prev, day);
      var now := Close(closes, holdings[|holdings| - 1], day);
      var then_ := Close(closes, holdings[|holdings| - 1], prev);
      if rest.ZeroDivision? || now.None? || then_.None? then rest
      else if then_.value == 0.0 then ZeroDivision
      else Ok(rest.value + [now.value / then_.value - 1.0])
  }

  function Sum(a: seq<real>): real {
    if a == [] then 0.0 else Sum(a[..|a| - 1]) + a[|a| - 1]
  }

  function Mean(a: seq<real>): real {
    if a == [] then 0.0 else Sum(a) / (|a| as real)
  }

  /** Higher scores first; equal scores by symbol, descending. */
  predicate Before(a: Scored, b: Scored) {
    a.score > b.score || (a.score == b.score && (a.symbol == b.symbol || Less(b.symbol, a.symbol)))
  }

  function Place(x: Scored, ranked: seq<Scored>): (r: seq<Scored>)
    ensures |r| == |ranked| + 1
  {
    if ranked == [] || Before(x, ranked[0]) then [x] + ranked else [ranked[0]] + Place(x, ranked[1..])
  }

  function Rank(closes: Closes, universe: seq<string>, start: string, end: string): Result<seq<Scored>> {
    if universe == [] then Ok([])
    else
      var rest := Rank(closes, universe[..|universe| - 1], start, end);
      var symbol := universe[|universe| - 1];
      var first, last := Close(closes, symbol, start), Close(closes, symbol, end);
      if rest.ZeroDivision? || first.None? || last.None? then rest
      else if first.value == 0.0 then ZeroDivision
      else Ok(Place(Scored(last.value / first.value - 1.0, symbol), rest.value))
  }

  function Top(ranked: seq<Scored>, n: nat): seq<string> {
    var kept := if n < |ranked| then ranked[..n] else ranked;
    seq(|kept|, i requires 0 <= i < |kept| => kept[i].symbol)
  }

  // ----- The causal reference: a run that only ever looks back -----

  /** How many of the first i dates fall in the month. */
  function MonthCount(dates: seq<string>, i: nat, month: string): nat
    requires i <= |dates|
  {
    if i == 0 then 0 else MonthCount(dates, i - 1, month) + if Month(dates[i - 1]) == month then 1 else 0
  }

  /** Day i is the one `offset` trading days into its month, judged by the dates up to it. */
  predicate Rebalances(dates: seq<string>, i: nat, offset: nat)
    requires i < |dates|
  {
    MonthCount(dates, i, Month(dates[i])) == offset
  }

  function Session(dates: seq<string>, closes: Closes, universe: seq<string>, topN: nat, rebalance: bool,
                   i: nat, st: State): Result<State>
    requires 1 <= i < |dates|
  {
    var earned := Earned(closes, st.holdings, dates[i - 1], dates[i]);
    if earned.ZeroDivision? then ZeroDivision
    else
      var daily := st.daily + [Mean(earned.value)];
      if rebalance && i >= TRADING_DAYS then
        var ranked := Rank(closes, universe, dates[i - TRADING_DAYS], dates[i - SKIP]);
        if ranked.ZeroDivision? then ZeroDivision else Ok(State(daily, Top(ranked.value, topN)))
      else Ok(State(daily, st.holdings))
  }

  /** The run over the first n dates. */
  function Run(dates: seq<string>, closes: Closes, universe: seq<string>, offset: nat, topN: nat, n: nat): Result<State>
    requires n <= |dates|
  {
    if n <= 1 then Ok(State([], []))
    else
      match Run(dates, closes, universe, offset, topN, n - 1)
      case ZeroDivision => ZeroDivision
      case Ok(st) => Session(dates, closes, universe, topN, Rebalances(dates, n - 1, offset), n - 1, st)
  }

  // ----- The program -----

  /** The dates among the first i that fall in the month, in order. */
  function DaysOf(dates: seq<string>, i: nat, month: string): seq<string>
    requires i <= |dates|
  {
    if i == 0 then []
    else if Month(dates[i - 1]) == month then DaysOf(dates, i - 1, month) + [dates[i - 1]]
    else DaysOf(dates, i - 1, month)
  }

  lemma {:induction false} DaysOfAt(dates: seq<string>, n: nat, month: string, j: nat)
    requires j < n <= |dates| && Month(dates[j]) == month
    ensures var k := MonthCount(dates, j, month);
      k < |DaysOf(dates, n, month)| && DaysOf(dates, n, month)[k] == dates[j]
    ensures |DaysOf(dates, n, month)| == MonthCount(dates, n, month)
    decreases n
  {
    DaysOfLength(dates, n - 1, month);
    if j < n - 1 {
      DaysOfAt(dates, n - 1, month, j);
    }
  }

  lemma {:induction false} DaysOfLength(dates: seq<string>, n: nat, month: string)
    requires n <= |dates|
    ensures |DaysOf(dates, n, month)| == MonthCount(dates, n, month)
  {
    if n > 0 {
      DaysOfLength(dates, n - 1, month);
    }
  }

  /** The k-th day of a month is some date of that month with k dates of the month before it. */
  lemma {:induction false} DaysOfSource(dates: seq<string>, n: nat, month: string, k: nat) returns (j: nat)
    requires n <= |dates| && k < |DaysOf(dates, n, month)|
    ensures j < n && dates[j] == DaysOf(dates, n, month)[k]
    ensures Month(dates[j]) == month && MonthCount(dates, j, month) == k
    decreases n
  {
    if Month(dates[n - 1]) == month && k == |DaysOf(dates, n - 1, month)| {
      DaysOfLength(dates, n - 1, month);
      j := n - 1;
    } else {
      j := DaysOfSource(dates, n - 1, month, k);
    }
  }

  /** The days of the month table at place `offset`. Although the table holds every date, past and
      future, a date is in the set exactly when it is `offset` days into its month. */
  method RebalanceDays(dates: seq<string>, offset: nat) returns (days: set<string>)
    requires Distinct(dates)
    ensures forall i | 0 <= i < |dates| :: dates[i] in days <==> Rebalances(dates, i, offset)
  {
    var byMonth: map<string, seq<string>> := map[];
    for i := 0 to |dates|
      invariant forall month :: month in byMonth <==> DaysOf(dates, i, month) != []
      invariant forall month | month in byMonth :: byMonth[month] == DaysOf(dates, i, month)
    {
      var month := Month(dates[i]);
      var before := if month in byMonth then byMonth[month] else [];
      byMonth := byMonth[month := before + [dates[i]]];
    }
    days := set month | month in byMonth && |byMonth[month]| > offset :: byMonth[month][offset];
    forall i | 0 <= i < |dates| ensures dates[i] in days <==> Rebalances(dates, i, offset) {
      DaysOfAt(dates, |dates|, Month(dates[i]), i);
      if dates[i] in days {
        var month :| month in byMonth && |byMonth[month]| > offset && byMonth[month][offset] == dates[i];
        var j := DaysOfSource(dates, |dates|, month, offset);
        assert j == i;
      }
    }
  }

  lemma EarnedExtends(closes: Closes, holdings: seq<string>, prev: string, day: string, k: nat)
    requires k < |holdings|
    ensures var rest, all := Earned(closes, holdings[..k], prev, day), Earned(closes, holdings[..k + 1], prev, day);
      var now, then_ := Close(closes, holdings[k], day), Close(closes, holdings[k], prev);
      all == if rest.ZeroDivision? || now.None? || then_.None? then rest
             else if then_.value == 0.0 then ZeroDivision
             else Ok(rest.value + [now.value / then_.value - 1.0])
  {
    assert holdings[..k + 1][..k] == holdings[..k];
  }

  lemma {:induction false} EarnedFails(closes: Closes, holdings: seq<string>, prev: string, day: string, k: nat)
    requires k <= |holdings| && Earned(closes, holdings[..k], prev, day).ZeroDivision?
    ensures Earned(closes, holdings, prev, day).ZeroDivision?
    decreases |holdings| - k
  {
    if k == |holdings| {
      assert holdings[..k] == holdings;
    } else {
      EarnedExtends(closes, holdings, prev, day, k);
      EarnedFails(closes, holdings, prev, day, k + 1);
    }
  }

  predicate QuotedBoth(closes: Closes, symbol: string, prev: string, day: string) {
    symbol in closes && prev in closes[symbol] && day in closes[symbol]
  }

  /** The holdings quoted on both days, in order. */
  function Quoted(closes: Closes, holdings: seq<string>, prev: string, day: string): (q: seq<string>)
    ensures forall s :: s in q <==> s in holdings && QuotedBoth(closes, s, prev, day)
  {
    if holdings == [] then []
    else
      var front, last := holdings[..|holdings| - 1], holdings[|holdings| - 1];
      assert holdings == front + [last];
      var rest := Quoted(closes, front, prev, day);
      if QuotedBoth(closes, last, prev, day) then rest + [last] else rest
  }

  /** The relative change of a symbol between two days it is quoted on. */
  ghost predicate IsChange(gain: real, closes: Closes, symbol: string, prev: string, day: string) {
    QuotedBoth(closes, symbol, prev, day) &&
    closes[symbol][prev] != 0.0 && (1.0 + gain) * closes[symbol][prev] == closes[symbol][day]
  }

  ghost predicate AreChanges(gains: seq<real>, closes: Closes, symbols: seq<string>, prev: string, day: string) {
    |gains| == |symbols| && forall i | 0 <= i < |gains| :: IsChange(gains[i], closes, symbols[i], prev, day)
  }

  ghost predicate ClosedAtZero(closes: Closes, symbols: seq<string>, day: string) {
    exists s :: s in symbols && s in closes && day in closes[s] && closes[s][day] == 0.0
  }

  lemma OneMoreHolding(closes: Closes, symbols: seq<string>, symbol: string, gains: seq<real>, prev: string, day: string)
    requires QuotedBoth(closes, symbol, prev, day)
    ensures var was, now := closes[symbol][prev], closes[symbol][day];
      && (ClosedAtZero(closes, symbols + [symbol], prev) <==> ClosedAtZero(closes, symbols, prev) || was == 0.0)
      && (was != 0.0 && AreChanges(gains, closes, symbols, prev, day) ==>
            AreChanges(gains + [now / was - 1.0], closes, symbols + [symbol], prev, day))
  {
    var was, now := closes[symbol][prev], closes[symbol][day];
    if ClosedAtZero(closes, symbols, prev) {
      var s :| s in symbols && s in closes && prev in closes[s] && closes[s][prev] == 0.0;
      assert s in symbols + [symbol];
    }
    assert symbol in symbols + [symbol];
    if was != 0.0 {
      ChangeScales(was, now);
    }
  }

  lemma ChangeScales(was: real, now: real)
    requires was != 0.0
    ensures (1.0 + (now / was - 1.0)) * was == now
  {
    var ratio := now / was;
    assert ratio * was == now;
  }

  /** One gain for every holding quoted on both days, in order; none at all if one of them closed at
      zero before. */
  lemma {:induction false} EarnedIsChanges(closes: Closes, holdings: seq<string>, prev: string, day: string)
    ensures var earned, quoted := Earned(closes, holdings, prev, day), Quoted(closes, holdings, prev, day);
      && (earned.ZeroDivision? <==> ClosedAtZero(closes, quoted, prev))
      && (earned.Ok? ==> AreChanges(earned.value, closes, quoted, prev, day))
  {
    hide AreChanges, ClosedAtZero;
    if holdings == [] {
      NoChanges(closes, prev, day);
    } else {
      var front, last := holdings[..|holdings| - 1], holdings[|holdings| - 1];
      EarnedIsChanges(closes, front, prev, day);
      var rest := Earned(closes, front, prev, day);
      if QuotedBoth(closes, last, prev, day) {
        OneMoreHolding(closes, Quoted(closes, front, prev, day), last, if rest.Ok? then rest.value else [], prev, day);
      }
    }
  }

  lemma NoChanges(closes: Closes, prev: string, day: string)
    ensures AreChanges([], closes, [], prev, day) && !ClosedAtZero(closes, [], prev)
  {
  }

  method Gains(closes: Closes, holdings: seq<string>, prev: string, day: string) returns (earned: Result<seq<real>>)
    ensures earned == Earned(closes, holdings, prev, day)
    ensures earned.ZeroDivision? <==> ClosedAtZero(closes, Quoted(closes, holdings, prev, day), prev)
    ensures earned.Ok? ==> AreChanges(earned.value, closes, Quoted(closes, holdings, prev, day), prev, day)
  {
    hide Earned, Quoted, Close, AreChanges;
    EarnedIsChanges(closes, holdings, prev, day);
    NothingHeld(closes);
    var gains: seq<real> := [];
    for k := 0 to |holdings|
      invariant Earned(closes, holdings[..k], prev, day) == Ok(gains)
    {
      EarnedExtends(closes, holdings, prev, day, k);
      var now, then_ := Close(closes, holdings[k], day), Close(closes, holdings[k], prev);
      if now.Some? && then_.Some? {
        if then_.value == 0.0 {
          EarnedFails(closes, holdings, prev, day, k + 1);
          return ZeroDivision;
        }
        gains := gains + [now.value / then_.value - 1.0];
      }
    }
    assert holdings[..|holdings|] == holdings;
    earned := Ok(gains);
  }

  lemma {:induction false} RunFails(dates: seq<string>, closes: Closes, universe: seq<string>, offset: nat, topN: nat, k: nat, n: nat)
    requires k <= n <= |dates| && Run(dates, closes, universe, offset, topN, k).ZeroDivision?
    ensures Run(dates, closes, universe, offset, topN, n).ZeroDivision?
  {
    hide Session;
    if k < n {
      RunFails(dates, closes, universe, offset, topN, k, n - 1);
    }
  }

  lemma NothingHeld(closes: Closes)
    ensures forall prev: string, day: string :: Earned(closes, [], prev, day) == Ok([])
    ensures Mean([]) == 0.0
  {
  }

  lemma RunStarts(dates: seq<string>, closes: Closes, universe: seq<string>, offset: nat, topN: nat)
    ensures Run(dates, closes, universe, offset, topN, 0) == Ok(State([], []))
    ensures dates != [] ==> Run(dates, closes, universe, offset, topN, 1) == Ok(State([], []))
  {
  }

  lemma RunExtends(dates: seq<string>, closes: Closes, universe: seq<string>, offset: nat, topN: nat, i: nat)
    requires 1 <= i < |dates| && Run(dates, closes, universe, offset, topN, i).Ok?
    ensures Run(dates, closes, universe, offset, topN, i + 1) ==
      Session(dates, closes, universe, topN, Rebalances(dates, i, offset), i, Run(dates, closes, universe, offset, topN, i).value)
  {
    hide Session, Rebalances;
  }

  lemma RotatedBegins(dates: seq<string>, closes: Closes, universe: seq<string>, offset: nat, topN: nat)
    requires dates != []
    ensures Rotated(dates, closes, universe, offset, topN, [], [[]], 1)
  {
  }

  /** The program. `held` are the holdings after each session. */
  method Rotate(dates: seq<string>, closes: Closes, universe: seq<string>, offset: nat, topN: nat)
    returns (daily: Result<seq<real>>, ghost held: seq<seq<string>>)
    requires Distinct(dates)
    ensures dates == [] ==> daily == Ok([])
    ensures dates != [] && daily.Ok? ==> Rotated(dates, closes, universe, offset, topN, daily.value, held, |dates|)
    ensures daily.ZeroDivision? ==>
      && 1 <= |held| < |dates| && Stops(dates, closes, universe, offset, held[|held| - 1], |held|)
      && exists earned :: Rotated(dates, closes, universe, offset, topN, earned, held, |held|)
    ensures var run := Run(dates, closes, universe, offset, topN, |dates|);
      daily == if run.ZeroDivision? then ZeroDivision else Ok(run.value.daily)
  {
    hide Earned, Rank, Top, Mean, Rebalances, Close, Run, Quoted, AreChanges, ClosedAtZero;
    hide Rotated, Stops, Earns, Chosen, Due;
    NothingHeld(closes);
    RunStarts(dates, closes, universe, offset, topN);
    var rebalanceDays := RebalanceDays(dates, offset);
    var holdings, returns_: seq<real> := [], [];
    held := [];
    if dates == [] {
      return Ok([]), held;
    }
    held := [[]];
    RotatedBegins(dates, closes, universe, offset, topN);
    for index := 1 to |dates|
      invariant Run(dates, closes, universe, offset, topN, index) == Ok(State(returns_, holdings))
      invariant |held| == index && held[index - 1] == holdings && |returns_| == index - 1
      invariant Rotated(dates, closes, universe, offset, topN, returns_, held, index)
    {
      SessionRotates(dates, closes, universe, offset, topN, index, State(returns_, holdings));
      ghost var before := returns_;
      var day, prev := dates[index], dates[index - 1];
      RunExtends(dates, closes, universe, offset, topN, index);
      if holdings != [] {
        var earned := Gains(closes, holdings, prev, day);
        if earned.ZeroDivision? {
          RunFails(dates, closes, universe, offset, topN, index + 1, |dates|);
          return ZeroDivision, held;
        }
        returns_ := returns_ + [if earned.value != [] then Mean(earned.value) else 0.0];
      } else {
        returns_ := returns_ + [0.0];
      }
      if day in rebalanceDays && index >= TRADING_DAYS {
        var ranked := Rank(closes, universe, dates[index - TRADING_DAYS], dates[index - SKIP]);
        if ranked.ZeroDivision? {
          RunFails(dates, closes, universe, offset, topN, index + 1, |dates|);
          return ZeroDivision, held;
        }
        holdings := Top(ranked.value, topN);
      }
      RotatedExtends(dates, closes, universe, offset, topN, before, held, index, returns_[index - 1], holdings);
      held := held + [holdings];
    }
    daily := Ok(returns_);
  }

  // ----- No look-ahead -----

  /** Two worlds that a run over the first k dates cannot tell apart. */
  ghost predicate SamePast(dates: seq<string>, dates': seq<string>, closes: Closes, closes': Closes, k: nat) {
    && k <= |dates| && k <= |dates'|
    && (forall i | 0 <= i < k :: dates[i] == dates'[i])
    && (forall symbol, i | 0 <= i < k :: Close(closes, symbol, dates[i]) == Close(closes', symbol, dates[i]))
  }

  lemma {:induction false} SameMonthCount(dates: seq<string>, dates': seq<string>, i: nat, month: string)
    requires i <= |dates| && i <= |dates'| && forall j | 0 <= j < i :: dates[j] == dates'[j]
    ensures MonthCount(dates, i, month) == MonthCount(dates', i, month)
  {
    if i > 0 {
      SameMonthCount(dates, dates', i - 1, month);
    }
  }

  lemma {:induction false} SameEarned(closes: Closes, closes': Closes, holdings: seq<string>, prev: string, day: string)
    requires forall symbol :: Close(closes, symbol, prev) == Close(closes', symbol, prev)
    requires forall symbol :: Close(closes, symbol, day) == Close(closes', symbol, day)
    ensures Earned(closes, holdings, prev, day) == Earned(closes', holdings, prev, day)
  {
    if holdings != [] {
      SameEarned(closes, closes', holdings[..|holdings| - 1], prev, day);
    }
  }

  lemma {:induction false} SameRank(closes: Closes, closes': Closes, universe: seq<string>, start: string, end: string)
    requires forall symbol :: Close(closes, symbol, start) == Close(closes', symbol, start)
    requires forall symbol :: Close(closes, symbol, end) == Close(closes', symbol, end)
    ensures Rank(closes, universe, start, end) == Rank(closes', universe, start, end)
  {
    if universe != [] {
      SameRank(closes, closes', universe[..|universe| - 1], start, end);
    }
  }

  /** Main result: whatever dates follow the first k, and whatever the closes after them are, the
      run over the first k dates has the same returns and the same holdings. */
  lemma {:induction false} NoLookAhead(dates: seq<string>, dates': seq<string>, closes: Closes, closes': Closes,
                                       universe: seq<string>, offset: nat, topN: nat, k: nat)
    requires SamePast(dates, dates', closes, closes', k)
    ensures Run(dates, closes, universe, offset, topN, k) == Run(dates', closes', universe, offset, topN, k)
    decreases k
  {
    hide Earned, Rank, Top, Mean;
    if k > 1 {
      var i := k - 1;
      NoLookAhead(dates, dates', closes, closes', universe, offset, topN, i);
      SameMonthCount(dates, dates', i, Month(dates[i]));
      var st := Run(dates, closes, universe, offset, topN, i);
      if st.Ok? {
        SameEarned(closes, closes', st.value.holdings, dates[i - 1], dates[i]);
        if i >= TRADING_DAYS {
          SameRank(closes, closes', universe, dates[i - TRADING_DAYS], dates[i - SKIP]);
        }
      }
    }
  }

  /** The returns of a longer run start with those of a shorter one. */
  lemma {:induction false} ReturnsAreFinal(dates: seq<string>, closes: Closes, universe: seq<string>, offset: nat, topN: nat,
                                           k: nat, n: nat)
    requires 1 <= k <= n <= |dates| && Run(dates, closes, universe, offset, topN, n).Ok?
    ensures Run(dates, closes, universe, offset, topN, k).Ok?
    ensures |Run(dates, closes, universe, offset, topN, n).value.daily| == n - 1
    ensures Run(dates, closes, universe, offset, topN, k).value.daily
         == Run(dates, closes, universe, offset, topN, n).value.daily[..k - 1]
    decreases n
  {
    hide Earned, Rank, Top, Mean, Rebalances;
    if n > 1 {
      ReturnsAreFinal(dates, closes, universe, offset, topN, if k < n then k else n - 1, n - 1);
    }
  }

  /** Truncating the calendar after k dates truncates the returns after k - 1 entries. */
  lemma TruncationKeepsReturns(dates: seq<string>, closes: Closes, universe: seq<string>, offset: nat, topN: nat, k: nat)
    requires 1 <= k <= |dates| && Run(dates, closes, universe, offset, topN, |dates|).Ok?
    ensures Run(dates[..k], closes, universe, offset, topN, k).Ok?
    ensures |Run(dates, closes, universe, offset, topN, |dates|).value.daily| == |dates| - 1
    ensures Run(dates[..k], closes, universe, offset, topN, k).value.daily
         == Run(dates, closes, universe, offset, topN, |dates|).value.daily[..k - 1]
  {
    hide Run;
    NoLookAhead(dates, dates[..k], closes, closes, universe, offset, topN, k);
    ReturnsAreFinal(dates, closes, universe, offset, topN, k, |dates|);
  }

  // ----- The ranking -----

  ghost predicate Ranked(r: seq<Scored>) {
    forall i, j | 0 <= i < j < |r| :: Before(r[i], r[j])
  }

  lemma BeforeIsTotalOrder(a: Scored, b: Scored, c: Scored)
    ensures Before(a, b) || Before(b, a)
    ensures Before(a, b) && Before(b, c) ==> Before(a, c)
  {
    Total(a.symbol, b.symbol);
    if Less(b.symbol, a.symbol) && Less(c.symbol, b.symbol) {
      Transitive(c.symbol, b.symbol, a.symbol);
    }
  }

  lemma {:induction false} PlaceKeepsRanked(x: Scored, r: seq<Scored>)
    requires Ranked(r)
    ensures Ranked(Place(x, r)) && multiset(Place(x, r)) == multiset{x} + multiset(r)
    ensures Place(x, r)[0] == x || (r != [] && Place(x, r)[0] == r[0])
  {
    hide Before;
    if r != [] {
      if Before(x, r[0]) {
        forall j | 0 < j < |r| ensures Before(x, r[j]) {
          BeforeIsTotalOrder(x, r[0], r[j]);
        }
      } else {
        PlaceKeepsRanked(x, r[1..]);
        var t := Place(x, r[1..]);
        BeforeIsTotalOrder(x, r[0], x);
        forall j | 0 <= j < |t| ensures Before(r[0], t[j]) {
          BeforeIsTotalOrder(r[0], t[0], t[j]);
        }
        assert r == [r[0]] + r[1..];
      }
    }
  }

  /** A scored symbol: quoted at both ends of the window, with the change between them. */
  ghost predicate Measured(x: Scored, closes: Closes, start: string, end: string) {
    IsChange(x.score, closes, x.symbol, start, end)
  }

  lemma ChangeIsUnique(gain: real, was: real, now: real)
    requires was != 0.0
    ensures (1.0 + gain) * was == now <==> gain == now / was - 1.0
  {
    ChangeScales(was, now);
    var ratio := now / was;
    if (1.0 + gain) * was == now {
      SameFactor(1.0 + gain, ratio, was);
    }
  }

  lemma SameFactor(a: real, b: real, c: real)
    requires c != 0.0 && a * c == b * c
    ensures a == b
  {
    assert (a - b) * c == 0.0;
  }

  /** Best first: by score, and among equals by symbol from the end of the alphabet. */
  ghost predicate BestFirst(r: seq<Scored>) {
    forall i, j | 0 <= i < j < |r| ::
      r[i].score > r[j].score ||
      (r[i].score == r[j].score && (r[i].symbol == r[j].symbol || Less(r[j].symbol, r[i].symbol)))
  }

  lemma RankedIsBestFirst(r: seq<Scored>)
    requires Ranked(r)
    ensures BestFirst(r)
  {
  }

  /** Each symbol of the universe is placed if it is measurable and passed over if it is not. */
  lemma RankStep(closes: Closes, shorter: seq<string>, symbol: string, start: string, end: string)
    returns (x: Option<Scored>)
    requires Rank(closes, shorter + [symbol], start, end).Ok?
    ensures Rank(closes, shorter, start, end).Ok?
    ensures forall y: Scored :: y.symbol == symbol && Measured(y, closes, start, end) <==> x == Some(y)
    ensures Rank(closes, shorter + [symbol], start, end).value ==
      var rest := Rank(closes, shorter, start, end).value;
      if x.Some? then Place(x.value, rest) else rest
  {
    hide Place;
    assert (shorter + [symbol])[..|shorter|] == shorter;
    x := None;
    if QuotedBoth(closes, symbol, start, end) {
      var was, now := closes[symbol][start], closes[symbol][end];
      x := Some(Scored(now / was - 1.0, symbol));
      forall y: Scored | y.symbol == symbol ensures Measured(y, closes, start, end) <==> x == Some(y) {
        ChangeIsUnique(y.score, was, now);
        assert y == Scored(y.score, y.symbol);
      }
    }
  }

  /** No symbol of the universe that is quoted at both ends closed at zero at the first. */
  ghost predicate NoZero(closes: Closes, universe: seq<string>, start: string, end: string) {
    forall s | s in universe && QuotedBoth(closes, s, start, end) :: closes[s][start] != 0.0
  }

  lemma {:induction false} RankFails(closes: Closes, universe: seq<string>, start: string, end: string)
    ensures Rank(closes, universe, start, end).Ok? <==> NoZero(closes, universe, start, end)
  {
    hide Place;
    if universe != [] {
      var symbol, shorter := universe[|universe| - 1], universe[..|universe| - 1];
      RankFails(closes, shorter, start, end);
      assert universe == shorter + [symbol];
    }
  }

  /** Every measurable symbol is ranked as often as the universe lists it. */
  lemma {:induction false} RankCounts(closes: Closes, universe: seq<string>, start: string, end: string, y: Scored)
    requires Rank(closes, universe, start, end).Ok?
    ensures multiset(Rank(closes, universe, start, end).value)[y] ==
      if Measured(y, closes, start, end) then multiset(universe)[y.symbol] else 0
  {
    if universe != [] {
      hide Ranked, Place, Close, Rank, Measured;
      var symbol, shorter := universe[|universe| - 1], universe[..|universe| - 1];
      assert universe == shorter + [symbol];
      var x := RankStep(closes, shorter, symbol, start, end);
      RankIsRanked(closes, shorter, start, end);
      RankCounts(closes, shorter, start, end, y);
      if x.Some? {
        PlaceKeepsRanked(x.value, Rank(closes, shorter, start, end).value);
      }
    }
  }

  // ----- The rules of the rotation, from the calendar and the closes alone -----

  /** The two days' first seven characters, year and month, agree. */
  ghost predicate SameMonth(a: string, b: string) {
    forall k | 0 <= k < 7 :: AgreeAt(a, b, k)
  }

  ghost predicate AgreeAt(a: string, b: string, k: nat) {
    (k < |a| <==> k < |b|) && (k < |a| && k < |b| ==> a[k] == b[k])
  }

  /** The places among the first n dates that fall in the month of date i. */
  ghost function InMonth(dates: seq<string>, n: nat, i: nat): (days: set<nat>)
    requires n <= i < |dates|
    ensures forall j: nat :: j in days <==> j < n && SameMonth(dates[j], dates[i])
  {
    set j: nat | j < n && SameMonth(dates[j], dates[i])
  }

  /** Session i is the rebalance of its month: far enough into the calendar, and `offset` dates of the
      month come before it. */
  ghost predicate Due(dates: seq<string>, i: nat, offset: nat)
    requires i < |dates|
  {
    i >= 252 && |InMonth(dates, i, i)| == offset
  }

  ghost function SumOfAll(a: seq<real>): real {
    if a == [] then 0.0 else a[0] + SumOfAll(a[1..])
  }

  /** What a session earns: the mean of the gains of the holdings quoted on both days, or nothing. */
  ghost predicate Earns(daily: real, closes: Closes, held: seq<string>, prev: string, day: string) {
    exists gains :: AreChanges(gains, closes, Quoted(closes, held, prev, day), prev, day) &&
      if gains == [] then daily == 0.0 else daily * (|gains| as real) == SumOfAll(gains)
  }

  /** The `topN` best of the symbols measurable from `start` to `end`, or all of them if fewer. */
  ghost predicate Chosen(held: seq<string>, closes: Closes, universe: seq<string>, topN: nat, start: string, end: string) {
    NoZero(closes, universe, start, end) &&
    exists ranked: seq<Scored> ::
      && BestFirst(ranked)
      && (forall y: Scored :: multiset(ranked)[y] ==
            if IsChange(y.score, closes, y.symbol, start, end) then multiset(universe)[y.symbol] else 0)
      && |held| == (if topN < |ranked| then topN else |ranked|)
      && forall i | 0 <= i < |held| :: held[i] == ranked[i].symbol
  }

  /** Session i, with `held` the holdings after each session so far. */
  ghost predicate Rotates(dates: seq<string>, closes: Closes, universe: seq<string>, offset: nat, topN: nat,
                          daily: seq<real>, held: seq<seq<string>>, i: nat)
    requires 1 <= i < |dates| && i <= |daily| && i < |held|
  {
    && Earns(daily[i - 1], closes, held[i - 1], dates[i - 1], dates[i])
    && if Due(dates, i, offset) then Chosen(held[i], closes, universe, topN, dates[i - 252], dates[i - 21])
       else held[i] == held[i - 1]
  }

  /** The first n dates of a run. */
  ghost predicate Rotated(dates: seq<string>, closes: Closes, universe: seq<string>, offset: nat, topN: nat,
                          daily: seq<real>, held: seq<seq<string>>, n: nat)
    requires 1 <= n <= |dates|
  {
    && |daily| == n - 1 && |held| == n && held[0] == []
    && forall i | 1 <= i < n :: Rotates(dates, closes, universe, offset, topN, daily, held, i)
  }

  /** Where a run stops: a holding quoted on both days, or a symbol to be scored, closed at zero. */
  ghost predicate Stops(dates: seq<string>, closes: Closes, universe: seq<string>, offset: nat, held: seq<string>, i: nat)
    requires 1 <= i < |dates|
  {
    || ClosedAtZero(closes, Quoted(closes, held, dates[i - 1], dates[i]), dates[i - 1])
    || (Due(dates, i, offset) && !NoZero(closes, universe, dates[i - 252], dates[i - 21]))
  }

  lemma {:induction false} MonthCountIs(dates: seq<string>, n: nat, i: nat)
    requires n <= i < |dates|
    ensures MonthCount(dates, n, Month(dates[i])) == |InMonth(dates, n, i)|
  {
    hide SameMonth, Month;
    if n == 0 {
      NoneBefore(dates, i);
    } else {
      MonthCountIs(dates, n - 1, i);
      SameMonthIff(dates[n - 1], dates[i]);
      OneMoreDate(dates, n, i);
    }
  }

  lemma NoneBefore(dates: seq<string>, i: nat)
    requires i < |dates|
    ensures InMonth(dates, 0, i) == {}
  {
    hide SameMonth;
  }

  lemma OneMoreDate(dates: seq<string>, n: nat, i: nat)
    requires 0 < n <= i < |dates|
    ensures |InMonth(dates, n, i)| == |InMonth(dates, n - 1, i)| + if SameMonth(dates[n - 1], dates[i]) then 1 else 0
  {
    hide SameMonth;
    var before, now := InMonth(dates, n - 1, i), InMonth(dates, n, i);
    assert now == if SameMonth(dates[n - 1], dates[i]) then before + {n - 1} else before;
  }

  lemma SameMonthIff(a: string, b: string)
    ensures SameMonth(a, b) <==> Month(a) == Month(b)
  {
    if Month(a) == Month(b) {
      forall k | 0 <= k < 7 ensures AgreeAt(a, b, k) {
        assert k < |a| ==> k < |Month(a)| && Month(a)[k] == a[k];
        assert k < |b| ==> k < |Month(b)| && Month(b)[k] == b[k];
      }
    }
    if SameMonth(a, b) {
      assert |a| < 7 ==> AgreeAt(a, b, |a|);
      assert |b| < 7 ==> AgreeAt(a, b, |b|);
      assert |Month(a)| == |Month(b)|;
      forall k | 0 <= k < |Month(a)| ensures Month(a)[k] == Month(b)[k] {
        assert AgreeAt(a, b, k);
      }
    }
  }

  lemma DueIff(dates: seq<string>, i: nat, offset: nat)
    requires i < |dates|
    ensures Due(dates, i, offset) <==> i >= TRADING_DAYS && Rebalances(dates, i, offset)
  {
    MonthCountIs(dates, i, i);
  }

  lemma {:induction false} SumFromBack(a: seq<real>)
    ensures Sum(a) == SumOfAll(a)
  {
    if a != [] {
      SumFromBack(a[..|a| - 1]);
      SumSplits(a);
    }
  }

  lemma {:induction false} SumSplits(a: seq<real>)
    requires a != []
    ensures SumOfAll(a) == SumOfAll(a[..|a| - 1]) + a[|a| - 1]
  {
    if |a| == 1 {
      assert a[1..] == [] && a[..0] == [];
    } else {
      SumSplits(a[1..]);
      assert a[1..][..|a| - 2] == a[..|a| - 1][1..];
    }
  }

  lemma MeanTimes(gains: seq<real>)
    ensures if gains == [] then Mean(gains) == 0.0 else Mean(gains) * (|gains| as real) == SumOfAll(gains)
  {
    SumFromBack(gains);
    if gains != [] {
      Dividing(Sum(gains), |gains| as real);
    }
  }

  lemma Dividing(a: real, b: real)
    requires b != 0.0
    ensures a / b * b == a
  {
  }

  lemma EarnedEarns(closes: Closes, held: seq<string>, prev: string, day: string)
    ensures var earned := Earned(closes, held, prev, day);
      && (earned.Ok? ==> Earns(Mean(earned.value), closes, held, prev, day))
      && (earned.ZeroDivision? <==> ClosedAtZero(closes, Quoted(closes, held, prev, day), prev))
  {
    hide Earned, Quoted, AreChanges, ClosedAtZero, Mean;
    EarnedIsChanges(closes, held, prev, day);
    var earned := Earned(closes, held, prev, day);
    if earned.Ok? {
      MeanTimes(earned.value);
    }
  }

  lemma TopIsChosen(closes: Closes, universe: seq<string>, topN: nat, start: string, end: string)
    requires Rank(closes, universe, start, end).Ok?
    ensures Chosen(Top(Rank(closes, universe, start, end).value, topN), closes, universe, topN, start, end)
  {
    hide Rank, IsChange, BestFirst, NoZero;
    var ranked := Rank(closes, universe, start, end).value;
    RankFails(closes, universe, start, end);
    RankIsRanked(closes, universe, start, end);
    RankedIsBestFirst(ranked);
    forall y: Scored ensures multiset(ranked)[y] ==
      if IsChange(y.score, closes, y.symbol, start, end) then multiset(universe)[y.symbol] else 0
    {
      RankCounts(closes, universe, start, end, y);
    }
  }

  lemma SessionRotates(dates: seq<string>, closes: Closes, universe: seq<string>, offset: nat, topN: nat, i: nat, st: State)
    requires 1 <= i < |dates|
    ensures var next := Session(dates, closes, universe, topN, Rebalances(dates, i, offset), i, st);
      if next.ZeroDivision? then Stops(dates, closes, universe, offset, st.holdings, i)
      else
        && |next.value.daily| == |st.daily| + 1 && next.value.daily[..|st.daily|] == st.daily
        && Earns(next.value.daily[|st.daily|], closes, st.holdings, dates[i - 1], dates[i])
        && if Due(dates, i, offset) then Chosen(next.value.holdings, closes, universe, topN, dates[i - 252], dates[i - 21])
           else next.value.holdings == st.holdings
  {
    hide Earned, Rank, Top, Mean, Rebalances, Earns, Chosen, Due, Quoted, ClosedAtZero, NoZero;
    EarnedEarns(closes, st.holdings, dates[i - 1], dates[i]);
    DueIff(dates, i, offset);
    if i >= TRADING_DAYS {
      RankFails(closes, universe, dates[i - TRADING_DAYS], dates[i - SKIP]);
      if Rank(closes, universe, dates[i - TRADING_DAYS], dates[i - SKIP]).Ok? {
        TopIsChosen(closes, universe, topN, dates[i - TRADING_DAYS], dates[i - SKIP]);
      }
    }
  }

  lemma RotatedExtends(dates: seq<string>, closes: Closes, universe: seq<string>, offset: nat, topN: nat,
                       daily: seq<real>, held: seq<seq<string>>, n: nat, earned: real, next: seq<string>)
    requires 1 <= n < |dates| && Rotated(dates, closes, universe, offset, topN, daily, held, n)
    requires Earns(earned, closes, held[n - 1], dates[n - 1], dates[n])
    requires if Due(dates, n, offset) then Chosen(next, closes, universe, topN, dates[n - 252], dates[n - 21])
             else next == held[n - 1]
    ensures Rotated(dates, closes, universe, offset, topN, daily + [earned], held + [next], n + 1)
  {
    hide Earns, Chosen, Due;
    var longer, after := daily + [earned], held + [next];
    forall i | 1 <= i <= n ensures Rotates(dates, closes, universe, offset, topN, longer, after, i) {
      if i < n {
        assert Rotates(dates, closes, universe, offset, topN, daily, held, i);
      }
    }
  }

  /** The ranking holds exactly the measurable symbols of the universe, best first, so the holdings
      taken from its front never rank below a symbol passed over. */
  lemma {:induction false} RankIsRanked(closes: Closes, universe: seq<string>, start: string, end: string)
    requires Rank(closes, universe, start, end).Ok?
    ensures Ranked(Rank(closes, universe, start, end).value)
    ensures forall x :: x in Rank(closes, universe, start, end).value <==>
      x.symbol in universe && Measured(x, closes, start, end)
  {
    if universe != [] {
      hide Ranked, Place, Close, Rank, Measured;
      var symbol, shorter := universe[|universe| - 1], universe[..|universe| - 1];
      assert universe == shorter + [symbol];
      var x := RankStep(closes, shorter, symbol, start, end);
      RankIsRanked(closes, shorter, start, end);
      var rest, r := Rank(closes, shorter, start, end).value, Rank(closes, universe, start, end).value;
      if x.Some? {
        PlaceKeepsRanked(x.value, rest);
        forall y ensures y in r <==> y == x.value || y in rest {
          assert y in r <==> y in multiset(r);
          assert y in rest <==> y in multiset(rest);
        }
      }
    }
  }
}
