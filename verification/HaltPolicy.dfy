/** The drawdown-halt study: five halt policies run against a stream of returns, where the halt
    decides the exposure, the exposure moves the equity, and the equity decides the next halt. */
module HaltPolicy {

  const HALT_AT: real := 0.15
  const START: real := 100.0

  datatype Policy = Current | Hysteresis | ResetHighWater | Floor | Lookback | Unknown(name: string)

  datatype Settings = Settings(policy: Policy, resumeAt: real, floor: real, lookback: int)

  datatype State = State(equity: real, highWater: real, history: seq<real>, halted: bool,
                         haltedSessions: nat, escapes: nat, peak: real, maxDrawdown: real)

  datatype Error = UnknownPolicy | EmptyWindow | NoSessions

  datatype Result<T> = Ok(value: T) | Raised(error: Error)

  datatype Report = Report(wealth: real, haltedShare: real, maxDrawdown: real, escapes: nat)

  function Max(a: real, b: real): real {
    if a < b then b else a
  }

  function MaxOf(s: seq<real>): (m: real)
    requires s != []
    ensures m in s && forall i | 0 <= i < |s| :: s[i] <= m
  {
    if |s| == 1 then s[0] else Max(MaxOf(s[..|s| - 1]), s[|s| - 1])
  }

  /** The trailing slice of a list that starts `lookback` places before its end. As in the source
      language, zero keeps the whole list and a negative count drops that many from the front. */
  function Trailing(history: seq<real>, lookback: int): seq<real> {
    if lookback > 0 then
      if lookback < |history| then history[|history| - lookback..] else history
    else
      if -lookback < |history| then history[-lookback..] else []
  }

  function Drawdown(highWater: real, equity: real): real {
    if highWater > 0.0 then (highWater - equity) / highWater else 0.0
  }

  function Grow(equity: real, exposure: real, r: real): real {
    equity * (1.0 + exposure * r)
  }

  function FallFrom(peak: real, equity: real): real
    requires peak >= START
  {
    (peak - equity) / peak
  }

  // ----- One session, as a function -----

  const INITIAL := State(START, START, [START], false, 0, 0, START, 0.0)

  /** The high-water mark the session measures against. */
  function Mark(settings: Settings, st: State): Result<real> {
    if settings.policy.Lookback? then
      var window := Trailing(st.history, settings.lookback);
      if window == [] then Raised(EmptyWindow) else Ok(MaxOf(window))
    else
      Ok(st.highWater)
  }

  /** The halt decision: the new mark, halt flag and escape count. */
  function Decide(settings: Settings, st: State, mark: real): Result<(real, bool, nat)> {
    var deep := Drawdown(mark, st.equity) >= HALT_AT;
    match settings.policy
    case Current => Ok((mark, deep, st.escapes))
    case Hysteresis =>
      if !st.halted && deep then Ok((mark, true, st.escapes))
      else if st.halted && Drawdown(mark, st.equity) <= settings.resumeAt then Ok((mark, false, st.escapes + 1))
      else Ok((mark, st.halted, st.escapes))
    case ResetHighWater => if deep then Ok((st.equity, false, st.escapes + 1)) else Ok((mark, false, st.escapes))
    case Floor => Ok((mark, false, st.escapes))
    case Lookback => Ok((mark, deep, if st.halted && !deep then st.escapes + 1 else st.escapes))
    case Unknown(_) => Raised(UnknownPolicy)
  }

  function Exposure(settings: Settings, st: State, mark: real, halted: bool): real {
    if settings.policy.Floor? then
      if Drawdown(mark, st.equity) >= HALT_AT then settings.floor else 1.0
    else if halted then 0.0
    else 1.0
  }

  function Step(settings: Settings, st: State, r: real): (next: Result<State>)
    requires st.peak >= START
    ensures next.Ok? ==> next.value.peak >= START
  {
    match Mark(settings, st)
    case Raised(e) => Raised(e)
    case Ok(mark) =>
      match Decide(settings, st, mark)
      case Raised(e) => Raised(e)
      case Ok((highWater, halted, escapes)) =>
        var equity := Grow(st.equity, Exposure(settings, st, mark, halted), r);
        var peak := Max(st.peak, equity);
        Ok(State(equity, if settings.policy.Lookback? then highWater else Max(highWater, equity),
                 st.history + [equity], halted, st.haltedSessions + if halted then 1 else 0, escapes,
                 peak, Max(st.maxDrawdown, FallFrom(peak, equity))))
  }

  /** The state after a whole stream of sessions. */
  function Run(settings: Settings, daily: seq<real>): (final: Result<State>)
    ensures final.Ok? ==> final.value.peak >= START
  {
    if daily == [] then Ok(INITIAL)
    else
      match Run(settings, daily[..|daily| - 1])
      case Raised(e) => Raised(e)
      case Ok(st) => Step(settings, st, daily[|daily| - 1])
  }

  function Outcome(settings: Settings, daily: seq<real>): Result<Report> {
    match Run(settings, daily)
    case Raised(e) => Raised(e)
    case Ok(st) =>
      if daily == [] then Raised(NoSessions)
      else Ok(Report(st.equity, st.haltedSessions as real / |daily| as real, st.maxDrawdown, st.escapes))
  }

  // ----- The rules of the policies, said of two states of the account -----

  /** The equity stands at least fifteen percent below the mark. */
  ghost predicate Deep(mark: real, equity: real) {
    mark > 0.0 && mark - equity >= 0.15 * mark
  }

  /** It stands no further below the mark than the release level. */
  ghost predicate Shallow(mark: real, equity: real, resumeAt: real) {
    if mark > 0.0 then mark - equity <= resumeAt * mark else 0.0 <= resumeAt
  }

  /** The largest of the last `lookback` recorded values; with a count of zero or less, of those from
      place -lookback on. */
  ghost predicate WindowHigh(history: seq<real>, lookback: int, mark: real) {
    var first := if 0 < lookback < |history| then |history| - lookback else if lookback > 0 then 0 else -lookback;
    && first < |history| && (exists i :: first <= i < |history| && history[i] == mark)
    && forall i | first <= i < |history| :: history[i] <= mark
  }

  /** A window count that drops even the opening record. */
  ghost predicate EmptiesWindow(lookback: int) {
    lookback < 0
  }

  /** One session from `a` to `b`, judged against `mark`. */
  ghost predicate Judged(settings: Settings, r: real, a: State, b: State, mark: real) {
    var deep := Deep(mark, a.equity);
    && (settings.policy.Current? || settings.policy.Lookback? ==> (b.halted <==> deep))
    && (settings.policy.Hysteresis? ==>
          (b.halted <==> if a.halted then !Shallow(mark, a.equity, settings.resumeAt) else deep))
    && (settings.policy.ResetHighWater? || settings.policy.Floor? ==> !b.halted)
    && (b.equity == if b.halted then a.equity
                    else if settings.policy.Floor? && deep then a.equity * (1.0 + settings.floor * r)
                    else a.equity * (1.0 + r))
    && (b.escapes == if (if settings.policy.ResetHighWater? then deep
                         else !settings.policy.Current? && !settings.policy.Floor? && a.halted && !b.halted)
                     then a.escapes + 1 else a.escapes)
    && (settings.policy.Lookback? ==> b.highWater == mark)
    && (!settings.policy.Lookback? ==>
          IsGreater(b.highWater, if settings.policy.ResetHighWater? && deep then a.equity else a.highWater, b.equity))
  }

  ghost predicate IsGreater(m: real, x: real, y: real) {
    m >= x && m >= y && (m == x || m == y)
  }

  ghost predicate Obeys(settings: Settings, r: real, a: State, b: State) {
    && b.history == a.history + [b.equity]
    && b.haltedSessions == (if b.halted then a.haltedSessions + 1 else a.haltedSessions)
    && IsGreater(b.peak, a.peak, b.equity)
    && exists mark ::
         (if settings.policy.Lookback? then WindowHigh(a.history, settings.lookback, mark) else mark == a.highWater) &&
         Judged(settings, r, a, b, mark)
  }

  /** The states of the first n sessions. */
  ghost predicate Course(settings: Settings, daily: seq<real>, states: seq<State>, n: nat)
    requires n <= |daily|
  {
    && |states| == n + 1
    && states[0] == State(100.0, 100.0, [100.0], false, 0, 0, 100.0, 0.0)
    && forall k | 0 <= k < n :: Obeys(settings, daily[k], states[k], states[k + 1])
  }

  lemma CourseBegins(settings: Settings, daily: seq<real>)
    ensures Course(settings, daily, [INITIAL], 0)
  {
  }

  lemma CourseExtends(settings: Settings, daily: seq<real>, states: seq<State>, n: nat, next: State)
    requires n < |daily| && Course(settings, daily, states, n) && Obeys(settings, daily[n], states[n], next)
    ensures Course(settings, daily, states + [next], n + 1)
  {
    hide Obeys;
    var longer := states + [next];
    forall k | 0 <= k <= n ensures Obeys(settings, daily[k], longer[k], longer[k + 1]) {
      if k < n {
        assert Obeys(settings, daily[k], states[k], states[k + 1]);
      }
    }
  }

  /** How many of the first n sessions were halted. */
  ghost function HaltedCount(states: seq<State>, n: nat): nat
    requires n < |states|
  {
    |HaltedSessions(states, n)|
  }

  ghost function HaltedSessions(states: seq<State>, n: nat): (sessions: set<nat>)
    requires n < |states|
    ensures forall k :: k in sessions <==> 1 <= k <= n && states[k].halted
  {
    set k | 1 <= k <= n && states[k].halted
  }

  /** The report is that of the last state; the halted share times the sessions is how many were. */
  ghost predicate Reports(states: seq<State>, report: Report)
    requires |states| > 1
  {
    var n := |states| - 1;
    && report.wealth == states[n].equity && report.escapes == states[n].escapes
    && report.haltedShare * (n as real) == HaltedCount(states, n) as real
    && states[n].history != [] && states[n].history[0] == START && Deepest(states[n].history, report.maxDrawdown)
  }

  lemma DeepIffDrawdown(mark: real, equity: real, resumeAt: real)
    ensures Drawdown(mark, equity) >= 0.15 <==> Deep(mark, equity)
    ensures Drawdown(mark, equity) <= resumeAt <==> Shallow(mark, equity, resumeAt)
  {
    hide Deep, Shallow;
    if mark > 0.0 {
      FallCompares(mark - equity, mark, 0.15);
      FallCompares(mark - equity, mark, resumeAt);
    }
    MarkedDepth(mark, equity, resumeAt);
  }

  lemma MarkedDepth(mark: real, equity: real, resumeAt: real)
    ensures mark > 0.0 ==> (Deep(mark, equity) <==> mark - equity >= 0.15 * mark)
    ensures mark > 0.0 ==> (Shallow(mark, equity, resumeAt) <==> mark - equity <= resumeAt * mark)
    ensures mark <= 0.0 ==> !Deep(mark, equity) && (Shallow(mark, equity, resumeAt) <==> 0.0 <= resumeAt)
  {
  }

  lemma FallCompares(fall: real, mark: real, level: real)
    requires mark > 0.0
    ensures fall / mark <= level <==> fall <= level * mark
    ensures fall / mark >= level <==> fall >= level * mark
  {
    var share := fall / mark;
    assert share * mark == fall;
    ProductsCompare(share, level, mark);
    ProductsCompare(level, share, mark);
  }

  lemma ProductsCompare(x: real, y: real, scale: real)
    requires scale > 0.0
    ensures x <= y <==> x * scale <= y * scale
  {
    if x <= y {
      ProductsOrdered(x, y, scale);
    } else {
      ProductsStrict(y, x, scale);
    }
  }

  lemma ProductsOrdered(x: real, y: real, scale: real)
    requires scale > 0.0 && x <= y
    ensures x * scale <= y * scale
  {
  }

  lemma ProductsStrict(x: real, y: real, scale: real)
    requires scale > 0.0 && x < y
    ensures x * scale < y * scale
  {
  }

  lemma TrailingIsWindow(history: seq<real>, lookback: int)
    requires history != []
    ensures Trailing(history, lookback) == [] <==> lookback <= -|history|
    ensures Trailing(history, lookback) != [] ==> WindowHigh(history, lookback, MaxOf(Trailing(history, lookback)))
  {
    var window := Trailing(history, lookback);
    if window != [] {
      var first := |history| - |window|;
      assert forall i | 0 <= i < |window| :: window[i] == history[first + i];
      var m := MaxOf(window);
      var i :| 0 <= i < |window| && window[i] == m;
      assert history[first + i] == m;
      forall k | first <= k < |history| ensures history[k] <= m {
        assert window[k - first] == history[k];
      }
    }
  }

  // ----- The program's loop -----

  /** The halt and exposure decision of one session of the loop. */
  method Control(settings: Settings, st: State, mark: real) returns (decided: Result<(real, bool, nat)>, exposure: real)
    ensures decided == Decide(settings, st, mark)
    ensures decided.Ok? ==> exposure == Exposure(settings, st, mark, decided.value.1)
  {
    var highWater, halted, escapes := mark, st.halted, st.escapes;
    var drawdown := Drawdown(highWater, st.equity);
    exposure := 1.0;
    match settings.policy {
      case Current =>
        halted := drawdown >= HALT_AT;
      case Hysteresis =>
        if !halted && drawdown >= HALT_AT {
          halted := true;
        } else if halted && drawdown <= settings.resumeAt {
          halted := false;
          escapes := escapes + 1;
        }
      case ResetHighWater =>
        if drawdown >= HALT_AT {
          highWater := st.equity;
          escapes := escapes + 1;
        }
        halted := false;
      case Floor =>
        halted := false;
      case Lookback =>
        var wasHalted := halted;
        halted := drawdown >= HALT_AT;
        if wasHalted && !halted {
          escapes := escapes + 1;
        }
      case Unknown(_) =>
        return Raised(UnknownPolicy), exposure;
    }
    if settings.policy.Floor? {
      exposure := if drawdown >= HALT_AT then settings.floor else 1.0;
    } else {
      exposure := if halted then 0.0 else 1.0;
    }
    decided := Ok((highWater, halted, escapes));
  }

  /** One pass of the loop body over the session state. */
  method Session(settings: Settings, st: State, r: real) returns (next: Result<State>)
    requires st.peak >= START
    ensures next == Step(settings, st, r)
  {
    var mark := st.highWater;
    if settings.policy.Lookback? {
      var window := Trailing(st.history, settings.lookback);
      if window == [] {
        return Raised(EmptyWindow);
      }
      mark := MaxOf(window);
    }
    var decided, exposure := Control(settings, st, mark);
    if decided.Raised? {
      return Raised(decided.error);
    }
    var (highWater, halted, escapes) := decided.value;
    var haltedSessions := st.haltedSessions;
    if halted {
      haltedSessions := haltedSessions + 1;
    }
    var equity := Grow(st.equity, exposure, r);
    var history := st.history + [equity];
    if !settings.policy.Lookback? {
      highWater := Max(highWater, equity);
    }
    var peak := Max(st.peak, equity);
    var maxDrawdown := Max(st.maxDrawdown, FallFrom(peak, equity));
    next := Ok(State(equity, highWater, history, halted, haltedSessions, escapes, peak, maxDrawdown));
  }

  lemma StepFails(settings: Settings, st: State, r: real)
    requires st.peak >= START && st.history != []
    ensures Step(settings, st, r).Raised? <==>
      settings.policy.Unknown? || (settings.policy.Lookback? && settings.lookback <= -|st.history|)
  {
    hide Trailing, MaxOf, Grow, Drawdown, FallFrom;
    TrailingIsWindow(st.history, settings.lookback);
  }

  lemma DecisionObeys(settings: Settings, a: State, r: real, mark: real, b: State)
    requires Decide(settings, a, mark).Ok? && (!settings.policy.Lookback? ==> mark == a.highWater)
    requires var decided := Decide(settings, a, mark).value;
      && b.halted == decided.1 && b.escapes == decided.2
      && b.equity == Grow(a.equity, Exposure(settings, a, mark, decided.1), r)
      && b.highWater == if settings.policy.Lookback? then decided.0 else Max(decided.0, b.equity)
    ensures Judged(settings, r, a, b, mark)
  {
    hide Grow, Deep, Shallow, Drawdown;
    DeepIffDrawdown(mark, a.equity, settings.resumeAt);
    GrowsBy(a.equity, 0.0, r);
    GrowsBy(a.equity, 1.0, r);
    GrowsBy(a.equity, settings.floor, r);
  }

  lemma StepObeys(settings: Settings, st: State, r: real)
    requires st.peak >= START && st.history != [] && Step(settings, st, r).Ok?
    ensures Obeys(settings, r, st, Step(settings, st, r).value)
    ensures |Step(settings, st, r).value.history| == |st.history| + 1
  {
    hide Judged, WindowHigh, Trailing, MaxOf, Grow, FallFrom, Decide, Exposure;
    TrailingIsWindow(st.history, settings.lookback);
    var mark := Mark(settings, st).value;
    DecisionObeys(settings, st, r, mark, Step(settings, st, r).value);
  }

  lemma {:induction false} CountsAgree(settings: Settings, daily: seq<real>, states: seq<State>, n: nat)
    requires n <= |daily| && Course(settings, daily, states, |daily|)
    ensures |states| == |daily| + 1 && states[n].haltedSessions == HaltedCount(states, n)
  {
    hide Obeys, HaltedCount;
    if n == 0 {
      NoneHalted(states);
    } else {
      CountsAgree(settings, daily, states, n - 1);
      OneMoreSession(states, n);
      ghost var last := n - 1;
      assert Obeys(settings, daily[last], states[last], states[last + 1]);
      ObeysCounts(settings, daily[last], states[last], states[n]);
    }
  }

  lemma ObeysCounts(settings: Settings, r: real, a: State, b: State)
    requires Obeys(settings, r, a, b)
    ensures b.haltedSessions == if b.halted then a.haltedSessions + 1 else a.haltedSessions
  {
  }

  lemma NoneHalted(states: seq<State>)
    requires states != []
    ensures HaltedCount(states, 0) == 0
  {
    assert HaltedSessions(states, 0) == {};
  }

  lemma OneMoreSession(states: seq<State>, n: nat)
    requires 0 < n < |states|
    ensures HaltedCount(states, n) == HaltedCount(states, n - 1) + if states[n].halted then 1 else 0
  {
    var before, now := HaltedSessions(states, n - 1), HaltedSessions(states, n);
    assert now == if states[n].halted then before + {n} else before;
  }

  lemma ShareTimes(halted: nat, sessions: nat)
    requires sessions > 0
    ensures (halted as real / sessions as real) * (sessions as real) == halted as real
  {
  }

  /** The program's loop. `states` are the account before the first session and after each: by the
      rules of the policy, one session after the other. */
  method Simulate(daily: seq<real>, settings: Settings) returns (result: Result<Report>, ghost states: seq<State>)
    ensures result == Outcome(settings, daily)
    ensures result.Raised? <==> daily == [] || settings.policy.Unknown? || (settings.policy.Lookback? && EmptiesWindow(settings.lookback))
    ensures result.Ok? ==> Course(settings, daily, states, |daily|) && Reports(states, result.value)
  {
    hide Step, Obeys, Course, HaltedCount, Deepest;
    var st := INITIAL;
    states := [st];
    CourseBegins(settings, daily);
    for i := 0 to |daily|
      invariant Run(settings, daily[..i]) == Ok(st) && st.peak >= START
      invariant Course(settings, daily, states, i) && |states| == i + 1 && states[i] == st && |st.history| == i + 1
      invariant i > 0 ==> !settings.policy.Unknown? && !(settings.policy.Lookback? && EmptiesWindow(settings.lookback))
    {
      RunExtends(settings, daily, i);
      var next := Session(settings, st, daily[i]);
      StepFails(settings, st, daily[i]);
      if next.Raised? {
        FailureIsFinal(settings, daily, i + 1);
        return Raised(next.error), states;
      }
      StepObeys(settings, st, daily[i]);
      CourseExtends(settings, daily, states, i, next.value);
      st := next.value;
      states := states + [st];
    }
    assert daily[..|daily|] == daily;
    if daily == [] {
      return Raised(NoSessions), states;
    }
    CountsAgree(settings, daily, states, |daily|);
    ShareTimes(st.haltedSessions, |daily|);
    DrawdownIsDeepest(settings, daily);
    result := Ok(Report(st.equity, st.haltedSessions as real / |daily| as real, st.maxDrawdown, st.escapes));
  }

  lemma RunExtends(settings: Settings, daily: seq<real>, i: nat)
    requires i < |daily| && Run(settings, daily[..i]).Ok?
    ensures Run(settings, daily[..i + 1]) == Step(settings, Run(settings, daily[..i]).value, daily[i])
  {
    hide Step;
    assert daily[..i + 1][..i] == daily[..i];
  }

  /** A run that raised on a prefix raises the same error on the whole stream. */
  lemma {:induction false} FailureIsFinal(settings: Settings, daily: seq<real>, k: nat)
    requires k <= |daily| && Run(settings, daily[..k]).Raised?
    ensures Run(settings, daily) == Run(settings, daily[..k])
    decreases |daily| - k
  {
    hide Step;
    if k == |daily| {
      assert daily[..k] == daily;
    } else {
      assert daily[..k + 1][..k] == daily[..k];
      FailureIsFinal(settings, daily, k + 1);
    }
  }

  // ----- What every policy reports -----

  /** How far session j stands below the best equity up to then. */
  ghost function FallAt(history: seq<real>, j: nat): real
    requires j < |history| && history[0] == START
  {
    var path := history[..j + 1];
    assert path[0] == START;
    FallFrom(MaxOf(path), history[j])
  }

  ghost predicate Traced(st: State, sessions: nat) {
    && |st.history| == sessions + 1 && st.history[0] == START && st.history[sessions] == st.equity
    && st.peak == MaxOf(st.history)
    && Deepest(st.history, st.maxDrawdown)
  }

  /** No session stands further below the best one before it, and one stands as far below. */
  ghost predicate Deepest(history: seq<real>, drawdown: real)
    requires history != [] && history[0] == START
  {
    && (forall j | 0 <= j < |history| :: FallAt(history, j) <= drawdown)
    && (exists j :: 0 <= j < |history| && FallAt(history, j) == drawdown)
  }

  lemma StepKeepsTraced(settings: Settings, st: State, r: real, sessions: nat)
    requires Traced(st, sessions) && st.peak >= START && Step(settings, st, r).Ok?
    ensures Traced(Step(settings, st, r).value, sessions + 1)
  {
    hide Step, Deepest, MaxOf, FallFrom;
    var next := Step(settings, st, r).value;
    StepRecords(settings, st, r);
    PeakExtends(st.history, next.equity);
    DeepestExtends(st.history, next.equity, st.maxDrawdown);
  }

  lemma PeakExtends(history: seq<real>, equity: real)
    requires history != []
    ensures MaxOf(history + [equity]) == Max(MaxOf(history), equity)
  {
    assert (history + [equity])[..|history|] == history;
  }

  /** Each fall of the longer path is one of the shorter path or the new one at its end. */
  lemma DeepestExtends(history: seq<real>, equity: real, drawdown: real)
    requires history != [] && history[0] == START && Deepest(history, drawdown)
    ensures var peak := MaxOf(history + [equity]);
      peak >= START && Deepest(history + [equity], Max(drawdown, FallFrom(peak, equity)))
  {
    var longer, n := history + [equity], |history|;
    hide FallAt, MaxOf, FallFrom;
    FallAtEnd(longer);
    forall j | 0 <= j < n ensures FallAt(longer, j) == FallAt(history, j) {
      EarlierFall(history, longer, j);
    }
    var deepest := Max(drawdown, FallFrom(MaxOf(longer), equity));
    if deepest == drawdown {
      var k :| 0 <= k < n && FallAt(history, k) == drawdown;
      assert FallAt(longer, k) == deepest;
    } else {
      assert FallAt(longer, n) == deepest;
    }
  }

  /** What one session does to the account, whatever the policy: it earns the whole return, nothing
      while it is halted, or a share of it under the floor; a halted session is counted, and never as
      an escape; only the lookback's mark can fall behind the equity. */
  lemma SessionEffects(settings: Settings, st: State, r: real)
    requires st.peak >= START && Step(settings, st, r).Ok?
    ensures var next, floored := Step(settings, st, r).value, settings.policy.Floor?;
      && (next.halted ==> next.equity == st.equity && next.escapes == st.escapes)
      && (!next.halted && !floored ==> next.equity == st.equity * (1.0 + r))
      && (floored ==> !next.halted && next.equity in {st.equity * (1.0 + r), st.equity * (1.0 + settings.floor * r)})
      && next.haltedSessions == st.haltedSessions + (if next.halted then 1 else 0)
      && st.escapes <= next.escapes <= st.escapes + 1
      && (!settings.policy.Lookback? ==> next.highWater >= next.equity)
      && next.peak >= next.equity && next.peak >= st.peak && next.maxDrawdown >= st.maxDrawdown
  {
    hide Step, Grow;
    SessionEarns(settings, st, r);
    SessionCounts(settings, st, r);
    GrowsBy(st.equity, 0.0, r);
    GrowsBy(st.equity, 1.0, r);
    GrowsBy(st.equity, settings.floor, r);
  }

  lemma SessionEarns(settings: Settings, st: State, r: real)
    requires st.peak >= START && Step(settings, st, r).Ok?
    ensures var next, floored := Step(settings, st, r).value, settings.policy.Floor?;
      && (next.halted ==> next.equity == Grow(st.equity, 0.0, r) && !floored)
      && (!next.halted && !floored ==> next.equity == Grow(st.equity, 1.0, r))
      && (floored ==> next.equity == Grow(st.equity, 1.0, r) || next.equity == Grow(st.equity, settings.floor, r))
  {
    hide Grow, FallFrom, Drawdown;
  }

  lemma GrowsBy(equity: real, share: real, r: real)
    ensures Grow(equity, share, r) == equity * (1.0 + share * r)
    ensures share == 0.0 ==> Grow(equity, share, r) == equity
    ensures share == 1.0 ==> Grow(equity, share, r) == equity * (1.0 + r)
  {
  }

  lemma SessionCounts(settings: Settings, st: State, r: real)
    requires st.peak >= START && Step(settings, st, r).Ok?
    ensures var next := Step(settings, st, r).value;
      && (next.halted ==> next.escapes == st.escapes)
      && next.haltedSessions == st.haltedSessions + (if next.halted then 1 else 0)
      && st.escapes <= next.escapes <= st.escapes + 1
      && (!settings.policy.Lookback? ==> next.highWater >= next.equity)
      && next.peak >= next.equity && next.peak >= st.peak && next.maxDrawdown >= st.maxDrawdown
  {
    hide Grow, FallFrom, Drawdown;
  }

  lemma StepRecords(settings: Settings, st: State, r: real)
    requires st.peak >= START && Step(settings, st, r).Ok?
    ensures var next := Step(settings, st, r).value;
      && next.history == st.history + [next.equity]
      && next.peak == Max(st.peak, next.equity) >= START
      && next.maxDrawdown == Max(st.maxDrawdown, FallFrom(next.peak, next.equity))
  {
  }

  lemma FallAtEnd(history: seq<real>)
    requires history != [] && history[0] == START
    ensures MaxOf(history) >= START && FallAt(history, |history| - 1) == FallFrom(MaxOf(history), history[|history| - 1])
  {
    assert history[..|history|] == history;
  }

  lemma EarlierFall(before: seq<real>, after: seq<real>, j: nat)
    requires j < |before| <= |after| && before[0] == START && before <= after
    ensures FallAt(after, j) == FallAt(before, j)
  {
    assert after[..j + 1] == before[..j + 1];
  }

  /** Under every policy the reported drawdown is the deepest fall of the equity path from its
      running peak, and is reached. */
  lemma {:induction false} DrawdownIsDeepest(settings: Settings, daily: seq<real>)
    requires Run(settings, daily).Ok?
    ensures Traced(Run(settings, daily).value, |daily|)
  {
    hide Step;
    if daily == [] {
      FallAtEnd([START]);
      assert FallAt([START], 0) == 0.0;
      assert INITIAL.history == [START];
    } else {
      var n := |daily| - 1;
      DrawdownIsDeepest(settings, daily[..n]);
      StepKeepsTraced(settings, Run(settings, daily[..n]).value, daily[n], n);
    }
  }

  /** Two of the policies never stop trading altogether. */
  lemma {:induction false} NeverHalts(settings: Settings, daily: seq<real>)
    requires settings.policy.ResetHighWater? || settings.policy.Floor?
    ensures Run(settings, daily).Ok?
    ensures !Run(settings, daily).value.halted && Run(settings, daily).value.haltedSessions == 0
  {
    if daily != [] {
      NeverHalts(settings, daily[..|daily| - 1]);
    }
  }

  // ----- Hysteresis -----

  lemma NoExposureNoChange(equity: real, r: real)
    ensures Grow(equity, 0.0, r) == equity
  {
  }

  /** What every session keeps under both policies. */
  ghost predicate FrozenWhenHalted(st: State) {
    st.escapes == 0 && st.peak >= START && st.highWater >= st.equity &&
    (st.halted ==> Drawdown(st.highWater, st.equity) >= HALT_AT)
  }

  lemma HysteresisStep(s: Settings, t: Settings, st: State, r: real)
    requires s.policy.Hysteresis? && s.resumeAt < HALT_AT && t.policy.Current?
    requires FrozenWhenHalted(st)
    ensures Step(s, st, r) == Step(t, st, r)
    ensures Step(t, st, r).Ok? && FrozenWhenHalted(Step(t, st, r).value)
    ensures st.halted ==> Step(t, st, r).value.halted && Step(t, st, r).value.equity == st.equity
  {
    NoExposureNoChange(st.equity, r);
    assert Mark(s, st) == Ok(st.highWater) == Mark(t, st);
    assert Decide(s, st, st.highWater) == Decide(t, st, st.highWater);
  }

  /** Below the halt threshold a release level is never reached: the halted account's equity and
      mark are both frozen, so its drawdown stays at the level that halted it. */
  lemma {:induction false} HysteresisIsCurrent(daily: seq<real>, s: Settings, t: Settings)
    requires s.policy.Hysteresis? && s.resumeAt < HALT_AT && t.policy.Current?
    ensures Run(s, daily) == Run(t, daily) && Run(t, daily).Ok?
    ensures FrozenWhenHalted(Run(t, daily).value)
  {
    hide Step;
    if daily != [] {
      var shorter := daily[..|daily| - 1];
      HysteresisIsCurrent(shorter, s, t);
      HysteresisStep(s, t, Run(t, shorter).value, daily[|daily| - 1]);
    }
  }

  /** Main result: hysteresis reports the same wealth, halted share, drawdown and escapes as the
      policy it was meant to fix, on every stream, exactly when it releases below the threshold. */
  lemma HysteresisChangesNothingIff(s: Settings, t: Settings)
    requires s.policy.Hysteresis? && t.policy.Current?
    ensures s.resumeAt < HALT_AT <==> forall daily :: Outcome(s, daily) == Outcome(t, daily)
  {
    if s.resumeAt < HALT_AT {
      forall daily ensures Outcome(s, daily) == Outcome(t, daily) {
        HysteresisIsCurrent(daily, s, t);
      }
    } else {
      ShallowReleaseEscapes(s, t);
      assert Outcome(s, [-0.15, 0.0, 0.0]) != Outcome(t, [-0.15, 0.0, 0.0]);
    }
  }

  lemma ShallowReleaseEscapes(s: Settings, t: Settings)
    requires s.policy.Hysteresis? && t.policy.Current? && s.resumeAt >= HALT_AT
    ensures Outcome(s, [-0.15, 0.0, 0.0]).Ok? && Outcome(s, [-0.15, 0.0, 0.0]).value.escapes == 1
    ensures Outcome(t, [-0.15, 0.0, 0.0]).Ok? && Outcome(t, [-0.15, 0.0, 0.0]).value.escapes == 0
  {
    hide Step;
    var daily := [-0.15, 0.0, 0.0];
    FirstLoss(s);
    FirstLoss(t);
    ThenHalts(s);
    ThenHalts(t);
    ThenReleases(s);
    ThenReleases(t);
    assert daily[..0] == [] && daily[..3] == daily;
    RunExtends(s, daily, 0);
    RunExtends(s, daily, 1);
    RunExtends(s, daily, 2);
    RunExtends(t, daily, 0);
    RunExtends(t, daily, 1);
    RunExtends(t, daily, 2);
  }

  lemma FirstLoss(s: Settings)
    requires s.policy.Hysteresis? || s.policy.Current?
    ensures Step(s, INITIAL, -0.15) == Ok(State(85.0, START, [START, 85.0], false, 0, 0, START, 0.15))
  {
    assert Drawdown(START, START) == 0.0;
    assert Mark(s, INITIAL) == Ok(START);
    assert Decide(s, INITIAL, START) == Ok((START, false, 0));
    assert Exposure(s, INITIAL, START, false) == 1.0;
    assert Grow(START, 1.0, -0.15) == 85.0;
    assert FallFrom(START, 85.0) == 0.15;
    assert Max(START, 85.0) == START && Max(0.0, 0.15) == 0.15;
    assert INITIAL.history + [85.0] == [START, 85.0];
  }

  lemma ThenHalts(s: Settings)
    requires s.policy.Hysteresis? || s.policy.Current?
    ensures Step(s, State(85.0, START, [START, 85.0], false, 0, 0, START, 0.15), 0.0)
         == Ok(State(85.0, START, [START, 85.0, 85.0], true, 1, 0, START, 0.15))
  {
    var fallen := State(85.0, START, [START, 85.0], false, 0, 0, START, 0.15);
    assert Drawdown(START, 85.0) == 0.15;
    assert Mark(s, fallen) == Ok(START);
    assert Decide(s, fallen, START) == Ok((START, true, 0));
    assert Exposure(s, fallen, START, true) == 0.0;
    NoExposureNoChange(85.0, 0.0);
    assert FallFrom(START, 85.0) == 0.15;
    assert fallen.history + [85.0] == [START, 85.0, 85.0];
  }

  /** Frozen at the halting drawdown, hysteresis lets go if its release level reaches that far. */
  lemma ThenReleases(s: Settings)
    requires (s.policy.Hysteresis? && s.resumeAt >= HALT_AT) || s.policy.Current?
    ensures var next := Step(s, State(85.0, START, [START, 85.0, 85.0], true, 1, 0, START, 0.15), 0.0);
      next.Ok? && next.value.escapes == if s.policy.Current? then 0 else 1
  {
    assert Drawdown(START, 85.0) == 0.15;
  }

  predicate HaltedAt(settings: Settings, daily: seq<real>, session: nat)
    requires session < |daily|
  {
    var st := Run(settings, daily[..session + 1]);
    st.Ok? && st.value.halted
  }

  /** The defect the study measures: under the current policy a halt is never left. */
  lemma {:induction false} CurrentHaltAbsorbs(settings: Settings, daily: seq<real>, i: nat, j: nat)
    requires settings.policy.Current? && i <= j < |daily| && HaltedAt(settings, daily, i)
    ensures HaltedAt(settings, daily, j)
    ensures Run(settings, daily[..j + 1]).value.equity == Run(settings, daily[..i + 1]).value.equity
    decreases j
  {
    hide Step;
    if i < j {
      CurrentHaltAbsorbs(settings, daily, i, j - 1);
      assert daily[..j + 1][..j] == daily[..j];
      var anyBelow := Settings(Hysteresis, 0.0, 0.0, 0);
      HysteresisIsCurrent(daily[..j], anyBelow, settings);
      HysteresisStep(anyBelow, settings, Run(settings, daily[..j]).value, daily[j]);
    }
  }

  // ----- Rolling lookback -----

  /** What every session keeps: one recorded equity per session, the last being the present one. */
  ghost predicate Recorded(st: State, sessions: nat) {
    st.peak >= START && |st.history| == sessions + 1 && st.history[sessions] == st.equity
  }

  lemma LookbackStep(settings: Settings, st: State, sessions: nat, r: real)
    requires settings.policy.Lookback? && settings.lookback >= 1 && Recorded(st, sessions)
    ensures Step(settings, st, r).Ok?
    ensures var next := Step(settings, st, r).value;
      Recorded(next, sessions + 1) && next.history == st.history + [next.equity] &&
      (next.halted ==> next.equity == st.equity) &&
      (next.halted <==> Drawdown(MaxOf(Trailing(st.history, settings.lookback)), st.equity) >= HALT_AT)
  {
    NoExposureNoChange(st.equity, r);
    var mark := MaxOf(Trailing(st.history, settings.lookback));
    assert Mark(settings, st) == Ok(mark);
  }

  /** With a window of at least one session the run never raises. */
  lemma {:induction false} HistoryRecordsEquity(settings: Settings, daily: seq<real>)
    requires settings.policy.Lookback? && settings.lookback >= 1
    ensures Run(settings, daily).Ok? && Recorded(Run(settings, daily).value, |daily|)
  {
    hide Step;
    if daily != [] {
      var n := |daily| - 1;
      HistoryRecordsEquity(settings, daily[..n]);
      LookbackStep(settings, Run(settings, daily[..n]).value, n, daily[n]);
    }
  }

  /** Halted sessions leave the equity where it was, so the history repeats it. */
  lemma {:induction false} HaltFreezesHistory(settings: Settings, daily: seq<real>, first: nat, end: nat)
    requires settings.policy.Lookback? && settings.lookback >= 1 && first <= end <= |daily|
    requires forall j | first <= j < end :: HaltedAt(settings, daily, j)
    ensures Run(settings, daily[..end]).Ok? && Recorded(Run(settings, daily[..end]).value, end)
    ensures var st := Run(settings, daily[..end]).value;
      forall k | first <= k <= end :: st.history[k] == st.equity
    decreases end
  {
    hide Step;
    HistoryRecordsEquity(settings, daily[..end]);
    if end > first {
      HaltFreezesHistory(settings, daily, first, end - 1);
      assert daily[..end][..end - 1] == daily[..end - 1];
      LookbackStep(settings, Run(settings, daily[..end - 1]).value, end - 1, daily[end - 1]);
      assert HaltedAt(settings, daily, end - 1);
    }
  }

  lemma FlatWindowHasNoDrawdown(window: seq<real>, equity: real)
    requires window != [] && forall k | 0 <= k < |window| :: window[k] == equity
    ensures Drawdown(MaxOf(window), equity) < HALT_AT
  {
    assert MaxOf(window) == equity;
  }

  /** A window filled by the frozen equity. */
  lemma FrozenWindow(st: State, lookback: nat, first: nat)
    requires lookback >= 1 && |st.history| == first + lookback
    requires forall k | first <= k < |st.history| :: st.history[k] == st.equity
    ensures Drawdown(MaxOf(Trailing(st.history, lookback)), st.equity) < HALT_AT
  {
    hide MaxOf, Drawdown;
    var window := Trailing(st.history, lookback);
    assert forall k | 0 <= k < |window| :: window[k] == st.history[first + k];
    FlatWindowHasNoDrawdown(window, st.equity);
  }

  /** Main result: under a window of L sessions no L consecutive sessions are all halted. */
  lemma LookbackReleases(settings: Settings, daily: seq<real>, first: nat)
    requires settings.policy.Lookback? && settings.lookback >= 1
    requires first + settings.lookback <= |daily|
    ensures exists j :: first <= j < first + settings.lookback && !HaltedAt(settings, daily, j)
  {
    hide Step;
    var last := first + settings.lookback - 1;
    if forall j | first <= j < last :: HaltedAt(settings, daily, j) {
      hide MaxOf, Trailing, Drawdown;
      HaltFreezesHistory(settings, daily, first, last);
      var st := Run(settings, daily[..last]).value;
      FrozenWindow(st, settings.lookback, first);
      assert daily[..last + 1][..last] == daily[..last];
      LookbackStep(settings, st, last, daily[last]);
      assert !HaltedAt(settings, daily, last);
    }
  }

  /** One 20% loss followed by flat sessions. */
  function OneLoss(sessions: nat): seq<real>
    requires sessions >= 1
  {
    [-0.2] + seq(sessions - 1, _ => 0.0)
  }

  ghost predicate AfterOneLoss(st: State, sessions: nat) {
    Recorded(st, sessions) && st.history == [START] + seq(sessions, _ => 80.0)
  }

  /** While the window still reaches the opening equity the account stays halted. */
  lemma StillHalted(settings: Settings, st: State, sessions: nat)
    requires settings.policy.Lookback? && 1 <= sessions < settings.lookback
    requires AfterOneLoss(st, sessions)
    ensures Step(settings, st, 0.0).Ok?
    ensures AfterOneLoss(Step(settings, st, 0.0).value, sessions + 1) && Step(settings, st, 0.0).value.halted
  {
    assert Trailing(st.history, settings.lookback) == st.history;
    assert st.history[0] == START && MaxOf(st.history) == START;
    assert Drawdown(START, 80.0) == 0.2;
    LookbackStep(settings, st, sessions, 0.0);
    assert seq(sessions, _ => 80.0) + [80.0] == seq(sessions + 1, _ => 80.0);
  }

  lemma TheLoss(settings: Settings)
    requires settings.policy.Lookback? && settings.lookback >= 1
    ensures Step(settings, INITIAL, -0.2).Ok? && AfterOneLoss(Step(settings, INITIAL, -0.2).value, 1)
  {
    LookbackStep(settings, INITIAL, 0, -0.2);
    assert Trailing([START], settings.lookback) == [START];
    assert Drawdown(START, START) == 0.0;
    assert Step(settings, INITIAL, -0.2).value.equity == Grow(START, 1.0, -0.2) == 80.0;
    assert [START] + [80.0] == [START] + seq(1, _ => 80.0);
  }

  lemma {:induction false} AfterTheLoss(settings: Settings, k: nat)
    requires settings.policy.Lookback? && 1 <= k <= settings.lookback
    ensures Run(settings, OneLoss(k)).Ok? && AfterOneLoss(Run(settings, OneLoss(k)).value, k)
    ensures k >= 2 ==> Run(settings, OneLoss(k)).value.halted
  {
    hide Step;
    var daily := OneLoss(k);
    if k == 1 {
      assert daily[..0] == [] && daily[..1] == daily;
      TheLoss(settings);
      RunExtends(settings, daily, 0);
    } else {
      AfterTheLoss(settings, k - 1);
      assert daily[..k - 1] == OneLoss(k - 1) && daily[..k] == daily;
      StillHalted(settings, Run(settings, OneLoss(k - 1)).value, k - 1);
      RunExtends(settings, daily, k - 1);
    }
  }

  /** The bound is sharp: the loss keeps the account halted for all the L - 1 sessions after it. */
  lemma LookbackBoundIsSharp(settings: Settings)
    requires settings.policy.Lookback? && settings.lookback >= 1
    ensures forall j | 1 <= j < settings.lookback :: HaltedAt(settings, OneLoss(settings.lookback), j)
  {
    hide AfterOneLoss;
    hide Step;
    forall j | 1 <= j < settings.lookback ensures HaltedAt(settings, OneLoss(settings.lookback), j) {
      assert OneLoss(settings.lookback)[..j + 1] == OneLoss(j + 1);
      AfterTheLoss(settings, j + 1);
    }
  }
}
