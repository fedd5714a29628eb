/** The bounded maintenance-fence resume: a retry loop around a command that may commit its resume
    and then time out or lose its output, against a durable event log that others append to.

    Everything the runner does not control is one finite script of moments: what other writers
    append, what the guards and the clock read, how a command ends and whether it committed first.
    A run whose script ends is a run that was killed there, so a statement about every script is a
    statement about every prefix of every run. */
module CheckedResume {
  import opened Options

  const MAX_ATTEMPTS: nat := 60

  /** Events are content-addressed; an address is never empty. */
  type EventId = s: string | s != "" witness "0"

  datatype Action = FenceEntry | ResumeEntry | OtherAction

  datatype Event = Event(id: EventId, sequence: int, action: Action, reason: string, evidence: seq<EventId>)

  datatype Request = Request(fence: EventId, approval: string)

  /** How a guard of the request reads: in place, violated, or unreadable in a way the runner does
      not catch. */
  datatype Guard = Holds | Violated | Broken

  /** How a command ends: `Fails(true)` is a refusal that fresh evidence may cure. */
  datatype Ending = Succeeds | TimesOut | Fails(retryable: bool) | Unavailable

  datatype Moment = Moment(foreign: seq<Event>, guards: Guard, binding: Guard, remaining: int, early: bool,
                           ending: Ending, commits: bool, newId: EventId)

  datatype Verdict = Resumed | Fenced | Refused

  /** What the runner did, in order. */
  datatype Entry = Observed(newest: Event, verdict: Verdict) | Unreadable | Prepared | Dispatched | Committed(event: Event)

  datatype State = ResumedThroughExistingChecks | ExpiredStillFenced | CancelledOrRefused

  /** `Killed` stands for a death of the process and for an exception nobody catches. */
  datatype Outcome = Reported(state: State, attempts: nat) | Validated | Killed

  /** How the guarded block of the program ends. */
  datatype Flow = Done(resumed: bool) | Checked | Expired | Caught | Died

  // ----- The durable log -----

  /** The first event with the highest sequence. */
  function Newest(events: seq<Event>): (e: Event)
    requires events != []
    ensures e in events && forall other | other in events :: other.sequence <= e.sequence
  {
    var last := events[|events| - 1];
    if |events| == 1 then last
    else
      var best := Newest(events[..|events| - 1]);
      if last.sequence > best.sequence then last else best
  }

  ghost predicate UniqueIds(events: seq<Event>) {
    forall i, j | 0 <= i < j < |events| :: events[i].id != events[j].id
  }

  /** A row is accepted if its id is new and it is newer than everything in the log. */
  predicate Accepts(events: seq<Event>, e: Event) {
    (forall other | other in events :: other.id != e.id && other.sequence < e.sequence)
  }

  function AppendAll(events: seq<Event>, more: seq<Event>): (result: seq<Event>)
    ensures events <= result && (UniqueIds(events) ==> UniqueIds(result))
    decreases |more|
  {
    if more == [] then events
    else AppendAll(if Accepts(events, more[0]) then events + [more[0]] else events, more[1..])
  }

  predicate IsRequestedFence(request: Request, e: Event) {
    e.id == request.fence && e.action.FenceEntry?
  }

  predicate IsRequestedResume(request: Request, e: Event) {
    e.action.ResumeEntry? && e.reason == request.approval && request.fence in e.evidence
  }

  // ----- What a trace must satisfy -----

  /** The event is the requested fence, and a fence. */
  ghost predicate InPlace(request: Request, e: Event) {
    e.id == request.fence && e.action == FenceEntry
  }

  /** The event is a resume under the requested approval, on the evidence of the requested fence. */
  ghost predicate Matches(request: Request, e: Event) {
    e.action == ResumeEntry && e.reason == request.approval && request.fence in e.evidence
  }

  ghost predicate FenceNewest(request: Request, events: seq<Event>) {
    events != [] && InPlace(request, Newest(events))
  }

  ghost predicate ResumeNewest(request: Request, events: seq<Event>) {
    events != [] && Matches(request, Newest(events))
  }

  /** What one look at the log says, in the order the program asks: the guards; the newest event as the
      matching resume, as anything but the fence, as the fence; the account binding. None is a failure
      that nobody catches. */
  ghost predicate Observes(request: Request, events: seq<Event>, moment: Moment, verdict: Option<Verdict>) {
    if moment.guards.Broken? then verdict == None
    else if moment.guards.Violated? || events == [] then verdict == Some(Refused)
    else if Matches(request, Newest(events)) then verdict == Some(Resumed)
    else if !InPlace(request, Newest(events)) then verdict == Some(Refused)
    else if moment.binding.Broken? then verdict == None
    else if moment.binding.Violated? then verdict == Some(Refused)
    else verdict == Some(Fenced)
  }

  /** The look was put on record with the newest event of the log. */
  ghost predicate NotedNewest(before: seq<Entry>, after: seq<Entry>, events: seq<Event>, verdict: Verdict) {
    events != [] && after == before + [Observed(Newest(events), verdict)]
  }

  // ----- Progress -----

  /** Nobody else writes, the guards and the binding hold and the window is open. */
  ghost predicate Quiet(moment: Moment) {
    moment.foreign == [] && moment.guards.Holds? && moment.binding.Holds? && moment.remaining > 0 && !moment.early
  }

  ghost predicate AllQuiet(script: seq<Moment>, n: nat) {
    n <= |script| && forall i | 0 <= i < n :: Quiet(script[i])
  }

  /** The script when its first moment has passed. */
  function Later(script: seq<Moment>): seq<Moment> {
    if script == [] then [] else script[1..]
  }

  /** With the fence newest, n quiet moments lie ahead in which commands succeed, and a command given
      at the moment `at` of them commits its resume under a new id. */
  ghost predicate Smooth(request: Request, events: seq<Event>, script: seq<Moment>, n: nat, at: nat) {
    && FenceNewest(request, events)
    && at < n && AllQuiet(script, n) && (forall i | 0 <= i < n :: script[i].ending.Succeeds?)
    && script[at].commits && forall e | e in events :: e.id != script[at].newId
  }

  /** With the fence newest, the preparation fails `failures` times in quiet moments (each attempt
      takes a clock reading, a look, the preparation and another look), and then all goes smoothly. */
  ghost predicate Succeeding(request: Request, events: seq<Event>, script: seq<Moment>, failures: nat)
    decreases failures
  {
    if failures == 0 then Smooth(request, events, script, 7, 5)
    else
      && FenceNewest(request, events)
      && AllQuiet(script, 4) && script[2].ending.Fails?
      && Succeeding(request, events, script[4..], failures - 1)
  }

  /** The program's first look and clock reading are quiet too, and its attempts suffice. */
  ghost predicate Ready(request: Request, events: seq<Event>, script: seq<Moment>, failures: nat) {
    failures < 60 && AllQuiet(script, 2) && Succeeding(request, events, script[2..], failures)
  }

  lemma ReadyMoments(request: Request, events: seq<Event>, script: seq<Moment>, failures: nat)
    requires Ready(request, events, script, failures)
    ensures |script| >= 2 && Quiet(script[0]) && Quiet(script[1]) && Later(Later(script)) == script[2..]
    ensures Later(script) != [] && Quiet(Later(script)[0])
    ensures Succeeding(request, events, script[2..], failures) && failures < 60
    ensures FenceNewest(request, events)
  {
    SucceedingMoments(request, events, script[2..], failures);
  }

  /** What an attempt finds after its clock reading and its first look. */
  lemma AttemptMoments(request: Request, events: seq<Event>, script: seq<Moment>, failures: nat)
    requires Succeeding(request, events, script, failures)
    ensures |script| >= 4 && FenceNewest(request, events)
    ensures failures == 0 ==> Smooth(request, events, Later(Later(script)), 5, 3)
    ensures failures > 0 ==>
      var rest := Later(Later(script));
      && AllQuiet(rest, 2) && rest[0].ending.Fails?
      && Succeeding(request, events, Later(Later(rest)), failures - 1)
    ensures Later(script) != [] && Quiet(script[0]) && Quiet(Later(script)[0])
  {
    SucceedingMoments(request, events, script, failures);
    assert Later(Later(script)) == script[2..];
    if failures > 0 {
      assert Later(Later(script[2..])) == script[4..];
    }
  }

  lemma SucceedingMoments(request: Request, events: seq<Event>, script: seq<Moment>, failures: nat)
    requires Succeeding(request, events, script, failures)
    ensures AllQuiet(script, 4) && FenceNewest(request, events)
    ensures AppendAll(events, []) == events
  {
  }

  lemma SmoothGoesOn(request: Request, events: seq<Event>, script: seq<Moment>, n: nat, at: nat)
    requires Smooth(request, events, script, n, at)
    ensures |script| >= n && Quiet(script[0]) && script[0].ending.Succeeds? && script[at].commits
    ensures n > 1 ==> Later(script) != [] && Quiet(Later(script)[0])
    ensures at > 0 ==> Smooth(request, events, Later(script), n - 1, at - 1)
    ensures FenceNewest(request, events)
  {
  }

  lemma NothingAppended(events: seq<Event>)
    ensures AppendAll(events, []) == events
  {
  }

  /** What the end of the resume command means: a refusal that fresh evidence may cure, a timeout and a
      success all leave it to the log; anything else ends the run. */
  ghost predicate Decisive(ending: Ending) {
    ending == Unavailable || ending == Fails(false)
  }

  ghost function AfterCommand(script: seq<Moment>): Option<Flow> {
    if script != [] && Decisive(script[0].ending) then Some(Caught) else None
  }

  lemma ThreeQuiet(script: seq<Moment>)
    requires AllQuiet(script, 3)
    ensures Quiet(script[0]) && Later(script) != [] && Quiet(Later(script)[0])
    ensures Later(Later(script)) != [] && Quiet(Later(Later(script))[0])
  {
  }

  lemma TwoQuiet(script: seq<Moment>)
    requires AllQuiet(script, 2)
    ensures Quiet(script[0]) && Later(script) != [] && Quiet(Later(script)[0])
  {
  }

  lemma CommandCommits(request: Request, events: seq<Event>, script: seq<Moment>, n: nat)
    requires Smooth(request, events, script, n, 0)
    ensures var e := Event(script[0].newId, Newest(events).sequence + 1, ResumeEntry, request.approval, [request.fence]);
      && events != [] && IsRequestedFence(request, Newest(events)) && Accepts(events, e)
      && Newest(events + [e]) == e && Matches(request, e)
  {
    var e := Event(script[0].newId, Newest(events).sequence + 1, ResumeEntry, request.approval, [request.fence]);
    assert (events + [e])[..|events|] == events;
  }

  function DispatchCount(trace: seq<Entry>): nat {
    if trace == [] then 0
    else DispatchCount(trace[..|trace| - 1]) + if trace[|trace| - 1].Dispatched? then 1 else 0
  }

  function CommitCount(trace: seq<Entry>): nat {
    if trace == [] then 0
    else CommitCount(trace[..|trace| - 1]) + if trace[|trace| - 1].Committed? then 1 else 0
  }

  /** Every dispatch comes straight after seeing exactly the requested fence as the newest event. */
  ghost predicate DispatchesFollowFence(request: Request, trace: seq<Entry>) {
    forall i | 0 <= i < |trace| && trace[i].Dispatched? :: i > 0 && SawFence(request, trace[i - 1])
  }

  ghost predicate SawFence(request: Request, entry: Entry) {
    entry.Observed? && entry.verdict.Fenced? && InPlace(request, entry.newest)
  }

  ghost predicate SawResume(request: Request, entry: Entry) {
    entry.Observed? && entry.verdict.Resumed? && Matches(request, entry.newest)
  }

  ghost predicate EndsWithFence(request: Request, trace: seq<Entry>) {
    trace != [] && SawFence(request, trace[|trace| - 1])
  }

  ghost predicate EndsWithResume(request: Request, trace: seq<Entry>) {
    trace != [] && SawResume(request, trace[|trace| - 1])
  }

  /** The state to report: what the last look saw, an untouched fence counting as expired only if the
      time ran out or the attempts did. */
  ghost function FinalState(request: Request, trace: seq<Entry>, flow: Flow): State {
    if EndsWithResume(request, trace) then ResumedThroughExistingChecks
    else if EndsWithFence(request, trace) && (flow == Expired || flow == Done(false)) then ExpiredStillFenced
    else CancelledOrRefused
  }

  lemma LastSight(request: Request, trace: seq<Entry>, entry: Entry)
    ensures EndsWithFence(request, trace + [entry]) <==> SawFence(request, entry)
    ensures EndsWithResume(request, trace + [entry]) <==> SawResume(request, entry)
  {
  }

  lemma OneSight(request: Request, trace: seq<Entry>)
    ensures !(EndsWithResume(request, trace) && EndsWithFence(request, trace))
  {
  }

  /** Whatever was observed or committed is still in the log. */
  ghost predicate Durable(trace: seq<Entry>, events: seq<Event>) {
    forall entry | entry in trace ::
      (entry.Observed? ==> entry.newest in events) && (entry.Committed? ==> entry.event in events)
  }

  lemma NoDispatchYet()
    ensures DispatchCount([]) == 0
  {
  }

  lemma TraceExtends(request: Request, trace: seq<Entry>, events: seq<Event>, entry: Entry)
    ensures DispatchCount(trace + [entry]) == DispatchCount(trace) + if entry.Dispatched? then 1 else 0
    ensures CommitCount(trace + [entry]) == CommitCount(trace) + if entry.Committed? then 1 else 0
    ensures DispatchesFollowFence(request, trace) && (entry.Dispatched? ==> EndsWithFence(request, trace)) ==>
      DispatchesFollowFence(request, trace + [entry])
    ensures
      var known := (entry.Observed? ==> entry.newest in events) && (entry.Committed? ==> entry.event in events);
      Durable(trace, events) && known ==> Durable(trace + [entry], events)
  {
    assert (trace + [entry])[..|trace|] == trace;
  }

  lemma LogExtends(trace: seq<Entry>, events: seq<Event>, e: Event)
    requires Accepts(events, e)
    ensures UniqueIds(events) ==> UniqueIds(events + [e])
    ensures Durable(trace, events) ==> Durable(trace, events + [e])
  {
  }

  lemma AppendAllKeeps(trace: seq<Entry>, opening: seq<Event>, events: seq<Event>, more: seq<Event>)
    ensures opening <= events ==> opening <= AppendAll(events, more)
    ensures UniqueIds(events) ==> UniqueIds(AppendAll(events, more))
    ensures Durable(trace, events) ==> Durable(trace, AppendAll(events, more))
  {
    hide AppendAll, UniqueIds;
  }

  /** The requested fence has been superseded for good. */
  ghost predicate FencePassed(request: Request, events: seq<Event>) {
    events != [] && Newest(events).id != request.fence && exists e :: e in events && e.id == request.fence
  }

  lemma AppendKeepsFencePassed(request: Request, events: seq<Event>, e: Event)
    requires FencePassed(request, events) && Accepts(events, e)
    ensures FencePassed(request, events + [e])
  {
    var fence :| fence in events && fence.id == request.fence;
    assert fence in events + [e];
    assert (events + [e])[..|events|] == events;
  }

  lemma {:induction false} AppendAllKeepsFencePassed(request: Request, events: seq<Event>, more: seq<Event>)
    requires FencePassed(request, events)
    ensures FencePassed(request, AppendAll(events, more))
    decreases |more|
  {
    if more != [] {
      if Accepts(events, more[0]) {
        AppendKeepsFencePassed(request, events, more[0]);
        AppendAllKeepsFencePassed(request, events + [more[0]], more[1..]);
      } else {
        AppendAllKeepsFencePassed(request, events, more[1..]);
      }
    }
  }

  lemma FenceStands(request: Request, events: seq<Event>)
    requires events != [] && IsRequestedFence(request, Newest(events))
    ensures !FencePassed(request, events)
  {
  }

  /** A resume appended on top of the fence supersedes it. */
  lemma ResumePassesFence(request: Request, events: seq<Event>, e: Event)
    requires events != [] && Newest(events).id == request.fence && Accepts(events, e)
    ensures FencePassed(request, events + [e])
  {
    assert Newest(events) in events + [e];
    assert (events + [e])[..|events|] == events;
  }

  // ----- The runner -----

  class Runner {
    const request: Request
    /** The resume command itself refuses unless the newest event is the fence it was approved for. */
    const refusesStale: bool
    var events: seq<Event>
    var script: seq<Moment>
    var trace: seq<Entry>
    /** The log when the run began. */
    ghost var opening: seq<Event>

    constructor (request: Request, refusesStale: bool, events: seq<Event>, script: seq<Moment>)
      requires UniqueIds(events)
      ensures this.request == request && this.refusesStale == refusesStale
      ensures this.events == events && this.script == script && trace == []
      ensures Safe()
    {
      this.request, this.refusesStale := request, refusesStale;
      this.events, this.script, trace, opening := events, script, [], events;
    }

    /** What every step of every run keeps. */
    ghost predicate Safe()
      reads this
    {
      && opening <= events && UniqueIds(events)
      && Durable(trace, events)
      && DispatchesFollowFence(request, trace)
      && (refusesStale ==> CommitCount(trace) <= 1)
      && (refusesStale && CommitCount(trace) == 1 ==> FencePassed(request, events))
    }

    /** Lets the next moment happen: other writers come first. */
    method Next() returns (moment: Moment, alive: bool)
      requires Safe()
      modifies this`events, this`script
      ensures Safe()
      ensures alive <==> old(script) != []
      ensures alive ==> |script| < |old(script)|
      ensures alive ==> moment == old(script)[0] && script == Later(old(script)) && events == AppendAll(old(events), moment.foreign)
      ensures alive && Quiet(moment) ==> events == old(events)
      ensures !alive ==> script == [] && events == old(events)
    {
      hide AppendAll, UniqueIds, Durable, DispatchesFollowFence, FencePassed, CommitCount;
      if script == [] {
        return Moment([], Broken, Broken, 0, false, Unavailable, false, "0"), false;
      }
      moment, alive := script[0], true;
      script := script[1..];
      if FencePassed(request, events) {
        AppendAllKeepsFencePassed(request, events, moment.foreign);
      }
      NothingAppended(events);
      AppendAllKeeps(trace, opening, events, moment.foreign);
      events := AppendAll(events, moment.foreign);
    }

    /** Reads the clock: seconds left, and whether the window is still to open. */
    method Clock() returns (remaining: int, early: bool, alive: bool)
      requires Safe()
      modifies this`events, this`script
      ensures Safe()
      ensures alive <==> old(script) != []
      ensures alive ==> |script| < |old(script)| && script == Later(old(script))
      ensures alive ==> remaining == old(script)[0].remaining && early == old(script)[0].early
      ensures alive ==> events == AppendAll(old(events), old(script)[0].foreign)
      ensures alive && Quiet(old(script)[0]) ==> events == old(events)
      ensures !alive ==> script == []
    {
      var moment;
      moment, alive := Next();
      remaining, early := moment.remaining, moment.early;
    }

    /** `current`: None when the run died or the failure is not one the runner catches. */
    method Current() returns (verdict: Option<Verdict>)
      requires Safe()
      modifies this`events, this`script, this`trace
      ensures Safe()
      ensures DispatchCount(trace) == old(DispatchCount(trace))
      ensures verdict.Some? ==> |script| < |old(script)|
      ensures verdict == Some(Resumed) <==> verdict.Some? && EndsWithResume(request, trace)
      ensures verdict == Some(Fenced) <==> verdict.Some? && EndsWithFence(request, trace)
      ensures old(script) == [] ==> verdict == None
      ensures old(script) != [] ==>
        && script == Later(old(script)) && events == AppendAll(old(events), old(script)[0].foreign)
        && Observes(request, events, old(script)[0], verdict)
      ensures old(script) != [] && Quiet(old(script)[0]) ==>
        && events == old(events)
        && (FenceNewest(request, events) ==> verdict == Some(Fenced))
        && (ResumeNewest(request, events) ==> verdict == Some(Resumed))
      ensures verdict == Some(Resumed) || verdict == Some(Fenced) ==>
        NotedNewest(old(trace), trace, events, verdict.value)
    {
      hide AppendAll, DispatchCount, Later, Safe, EndsWithFence, EndsWithResume;
      var moment, alive := Next();
      if !alive || moment.guards.Broken? {
        return None;
      }
      if moment.guards.Violated? || events == [] {
        LastSight(request, trace, Unreadable);
        Record(Unreadable);
        return Some(Refused);
      }
      var newest := Newest(events);
      if IsRequestedResume(request, newest) {
        LastSight(request, trace, Observed(newest, Resumed));
        Record(Observed(newest, Resumed));
        return Some(Resumed);
      }
      if !IsRequestedFence(request, newest) {
        LastSight(request, trace, Observed(newest, Refused));
        Record(Observed(newest, Refused));
        return Some(Refused);
      }
      if moment.binding.Broken? {
        return None;
      }
      if moment.binding.Violated? {
        LastSight(request, trace, Observed(newest, Refused));
        Record(Observed(newest, Refused));
        return Some(Refused);
      }
      LastSight(request, trace, Observed(newest, Fenced));
      Record(Observed(newest, Fenced));
      return Some(Fenced);
    }

    method Record(entry: Entry)
      requires Safe() && (entry.Dispatched? ==> EndsWithFence(request, trace))
      requires !entry.Committed? && (entry.Observed? ==> entry.newest in events)
      modifies this`trace
      ensures Safe() && trace == old(trace) + [entry]
      ensures DispatchCount(trace) == old(DispatchCount(trace)) + if entry.Dispatched? then 1 else 0
      ensures CommitCount(trace) == old(CommitCount(trace))
    {
      hide FencePassed, UniqueIds, Durable, DispatchesFollowFence, SawFence, DispatchCount, CommitCount;
      TraceExtends(request, trace, events, entry);
      trace := trace + [entry];
    }

    /** `run` of the preparation helper. */
    method Prepare() returns (ending: Option<Ending>, expired: bool)
      requires Safe()
      modifies this`events, this`script, this`trace
      ensures Safe()
      ensures DispatchCount(trace) == old(DispatchCount(trace))
      ensures ending.Some? || expired ==> |script| < |old(script)|
      ensures old(script) != [] ==>
        && script == Later(old(script)) && events == AppendAll(old(events), old(script)[0].foreign)
        && expired == (old(script)[0].remaining <= 0) && (!expired ==> ending == Some(old(script)[0].ending))
        && (Quiet(old(script)[0]) ==> events == old(events))
    {
      var moment, alive := Next();
      if !alive {
        return None, false;
      }
      if moment.remaining <= 0 {
        return None, true;
      }
      Record(Prepared);
      return Some(moment.ending), false;
    }

    /** `run` of the resume command: it may commit and still end in any way. */
    method Dispatch() returns (ending: Option<Ending>, expired: bool)
      requires Safe() && EndsWithFence(request, trace)
      modifies this`events, this`script, this`trace
      ensures Safe()
      ensures DispatchCount(trace) == old(DispatchCount(trace)) + if ending.Some? then 1 else 0
      ensures ending.Some? || expired ==> |script| < |old(script)|
      ensures old(script) != [] ==>
        && script == Later(old(script)) && expired == (old(script)[0].remaining <= 0)
        && (!expired ==> ending == Some(old(script)[0].ending))
      ensures Smooth(request, old(events), old(script), 2, 0) ==> ResumeNewest(request, events)
    {
      hide Safe, AppendAll, Smooth, Matches, Accepts, Later, EndsWithFence, IsRequestedFence, DispatchCount;
      if Smooth(request, events, script, 2, 0) {
        SmoothGoesOn(request, events, script, 2, 0);
        CommandCommits(request, events, script, 2);
      }
      var moment, alive := Next();
      if !alive {
        return None, false;
      }
      if moment.remaining <= 0 {
        return None, true;
      }
      Record(Dispatched);
      if moment.commits && events != [] && (!refusesStale || IsRequestedFence(request, Newest(events))) {
        var sequence := Newest(events).sequence + 1;
        var resume := Event(moment.newId, sequence, ResumeEntry, request.approval, [request.fence]);
        if Accepts(events, resume) {
          Commit(resume);
        }
      }
      return Some(moment.ending), false;
    }

    method Commit(resume: Event)
      requires Safe() && events != [] && Accepts(events, resume)
      requires refusesStale ==> IsRequestedFence(request, Newest(events))
      modifies this`trace, this`events
      ensures Safe() && events == old(events) + [resume] && trace == old(trace) + [Committed(resume)]
      ensures DispatchCount(trace) == old(DispatchCount(trace))
    {
      hide FencePassed, Newest, SawFence, Durable, DispatchesFollowFence, UniqueIds, DispatchCount, CommitCount;
      LogExtends(trace, events, resume);
      TraceExtends(request, trace, events + [resume], Committed(resume));
      if refusesStale {
        FenceStands(request, events);
        ResumePassesFence(request, events, resume);
      }
      events := events + [resume];
      trace := trace + [Committed(resume)];
    }

    /** A successful preparation is followed by the resume command, if the fence is still there. None
        leaves it to the next look to say what came of it. */
    method TryResume() returns (stop: Option<Flow>)
      requires Safe()
      modifies this`events, this`script, this`trace
      ensures Safe()
      ensures DispatchCount(trace) <= old(DispatchCount(trace)) + 1
      ensures stop == Some(Done(true)) ==> EndsWithResume(request, trace)
      ensures stop != Some(Done(false)) && stop != Some(Checked)
      ensures Smooth(request, old(events), old(script), 4, 2) ==>
        stop == None && script != [] && Quiet(script[0]) && ResumeNewest(request, events)
      ensures FenceNewest(request, old(events)) && AllQuiet(old(script), 3) ==>
        stop == AfterCommand(Later(Later(old(script))))
    {
      hide Safe, EndsWithFence, EndsWithResume, Smooth, FenceNewest, ResumeNewest, Observes, AppendAll, DispatchCount, Later, NotedNewest;
      ghost var smooth := Smooth(request, events, script, 4, 2);
      if AllQuiet(script, 3) {
        ThreeQuiet(script);
      }
      if smooth {
        SmoothGoesOn(request, events, script, 4, 2);
      }
      // The approval the helper wrote is read and rewritten before the log is looked at again.
      var moment, alive := Next();
      if !alive || moment.guards.Broken? {
        return Some(Died);
      }
      if moment.guards.Violated? {
        return Some(Caught);
      }
      if smooth {
        SmoothGoesOn(request, events, script, 3, 1);
      }
      var verdict := Current();
      if verdict.None? {
        return Some(Died);
      }
      if verdict.value.Refused? {
        return Some(Caught);
      }
      if verdict.value.Resumed? {
        return Some(Done(true));
      }
      if smooth {
        SmoothGoesOn(request, events, script, 2, 0);
      }
      var ending, expired := Dispatch();
      if expired {
        return Some(Expired);
      }
      if ending.None? {
        return Some(Died);
      }
      if ending.value.Unavailable? || ending.value == Fails(false) {
        return Some(Caught);
      }
      return None;
    }

    /** One pass of the retry loop after its attempt was counted. None lets the loop go on. */
    method Attempt() returns (stop: Option<Flow>)
      requires Safe()
      modifies this`events, this`script, this`trace
      ensures Safe()
      ensures DispatchCount(trace) <= old(DispatchCount(trace)) + 1
      ensures stop == Some(Done(true)) ==> EndsWithResume(request, trace)
      ensures stop != Some(Done(false)) && stop != Some(Checked)
      ensures stop.None? ==> EndsWithFence(request, trace)
      ensures Smooth(request, old(events), old(script), 5, 3) ==> stop == Some(Done(true))
      ensures FenceNewest(request, old(events)) && AllQuiet(old(script), 1) && old(script)[0].ending.Unavailable? ==>
        stop == Some(Caught)
      ensures old(script) != [] && old(script)[0].remaining <= 0 ==> stop == Some(Expired)
      ensures FenceNewest(request, old(events)) && AllQuiet(old(script), 2) &&
              (old(script)[0].ending.Fails? || old(script)[0].ending.TimesOut?) ==>
        stop == None && script == Later(Later(old(script))) && events == old(events)
    {
      hide Safe, EndsWithFence, EndsWithResume, Smooth, FenceNewest, ResumeNewest, Observes, AppendAll, DispatchCount, Later, NotedNewest;
      ghost var smooth := Smooth(request, events, script, 5, 3);
      if smooth {
        SmoothGoesOn(request, events, script, 5, 3);
      }
      if AllQuiet(script, 2) {
        TwoQuiet(script);
      }
      var ending, expired := Prepare();
      if expired {
        return Some(Expired);
      }
      if ending.None? {
        return Some(Died);
      }
      if ending.value.Unavailable? {
        return Some(Caught);
      }
      if ending.value.Succeeds? {
        stop := TryResume();
        if stop.Some? {
          return stop;
        }
      }
      var verdict := Current();
      if verdict.None? {
        return Some(Died);
      }
      if verdict.value.Refused? {
        return Some(Caught);
      }
      if verdict.value.Resumed? {
        return Some(Done(true));
      }
      return None;
    }

    /** The retry loop. `failures` is how often the preparation is going to fail, if all goes well. */
    method Retry(ghost failures: nat) returns (flow: Flow, attempts: nat)
      requires Safe() && EndsWithFence(request, trace) && DispatchCount(trace) == 0
      modifies this`events, this`script, this`trace
      ensures Safe()
      ensures DispatchCount(trace) <= attempts <= MAX_ATTEMPTS
      ensures flow == Done(true) ==> EndsWithResume(request, trace)
      ensures flow == Done(false) ==> EndsWithFence(request, trace)
      ensures flow != Checked
      ensures failures < 60 && Succeeding(request, old(events), old(script), failures) ==>
        flow == Done(true) && attempts == failures + 1
    {
      hide Safe, EndsWithFence, EndsWithResume, Smooth, Succeeding, FenceNewest, ResumeNewest, Observes, AppendAll, DispatchCount, Later, NotedNewest;
      ghost var ready := failures < 60 && Succeeding(request, events, script, failures);
      attempts := 0;
      var remaining, early, alive, resumed, verdict := 1, false, true, false, Some(Fenced);
      while alive && !resumed && attempts < MAX_ATTEMPTS
        invariant Safe() && DispatchCount(trace) <= attempts <= MAX_ATTEMPTS
        invariant ready ==> alive && !resumed && attempts <= failures && Succeeding(request, events, script, failures - attempts)
        invariant if resumed then EndsWithResume(request, trace) else EndsWithFence(request, trace)
        decreases MAX_ATTEMPTS - attempts
      {
        if ready {
          AttemptMoments(request, events, script, failures - attempts);
        }
        remaining, early, alive := Clock();
        if alive && remaining <= 0 {
          break;
        }
        verdict := Current();
        if verdict.None? {
          return Died, attempts;
        }
        if verdict.value.Refused? {
          return Caught, attempts;
        }
        if verdict.value.Resumed? {
          resumed := true;
          break;
        }
        attempts := attempts + 1;
        var stop := Attempt();
        if stop.Some? {
          return stop.value, attempts;
        }
      }
      return if alive then Done(resumed) else Died, attempts;
    }

    /** The guarded block of the program, up to the point where a state is chosen. */
    method Body(check: bool, ghost failures: nat) returns (flow: Flow, attempts: nat)
      requires Safe() && trace == []
      modifies this`events, this`script, this`trace
      ensures Safe()
      ensures DispatchCount(trace) <= attempts <= MAX_ATTEMPTS && (check ==> attempts == 0)
      ensures flow == Done(true) ==> EndsWithResume(request, trace)
      ensures flow == Done(false) ==> EndsWithFence(request, trace)
      ensures flow == Checked ==> check
      ensures !check && Ready(request, old(events), old(script), failures) ==> flow == Done(true) && attempts == failures + 1
    {
      hide Safe, EndsWithFence, EndsWithResume, Smooth, Succeeding, Ready, FenceNewest, ResumeNewest, Observes, AppendAll, DispatchCount, Later, NotedNewest;
      NoDispatchYet();
      ghost var ready := !check && Ready(request, events, script, failures);
      if ready {
        ReadyMoments(request, events, script, failures);
      }
      attempts := 0;
      var verdict := Current();
      if verdict.None? {
        return Died, attempts;
      }
      if verdict.value.Refused? {
        return Caught, attempts;
      }
      if check {
        var remaining, _, alive := Clock();
        return if !alive then Died else if remaining > 0 then Checked else Caught, attempts;
      }
      var resumed := verdict.value.Resumed?;
      var remaining, early, alive := Clock();
      while alive && !resumed && early
        invariant Safe() && DispatchCount(trace) == 0
        invariant ready ==> alive && !resumed && !early && Succeeding(request, events, script, failures)
        invariant if resumed then EndsWithResume(request, trace) else EndsWithFence(request, trace)
        decreases |script|
      {
        verdict := Current();
        if verdict.None? {
          return Died, attempts;
        }
        if verdict.value.Refused? {
          return Caught, attempts;
        }
        resumed := verdict.value.Resumed?;
        remaining, early, alive := Clock();
        if alive && remaining <= 0 {
          return Expired, attempts;
        }
      }
      if alive && !resumed {
        flow, attempts := Retry(failures);
      } else {
        flow := if alive then Done(resumed) else Died;
      }
    }

    /** The whole program. Main result, over every script of the environment: each dispatch follows
        sight of exactly the requested fence; at most sixty are made; success is reported exactly
        when the last thing seen was the matching durable resume; and if the resume command refuses
        a stale fence, at most one resume was committed. */
    method Execute(check: bool, ghost failures: nat) returns (outcome: Outcome, ghost flow: Flow)
      requires UniqueIds(events) && trace == []
      modifies this
      ensures old(events) <= events
      ensures DispatchesFollowFence(request, trace) && Durable(trace, events)
      ensures DispatchCount(trace) <= 60 && (check ==> DispatchCount(trace) == 0)
      ensures refusesStale ==> CommitCount(trace) <= 1
      ensures outcome.Reported? ==> DispatchCount(trace) <= outcome.attempts <= 60
      ensures outcome.Reported? ==>
        (outcome.state == ResumedThroughExistingChecks <==> EndsWithResume(request, trace))
      ensures outcome.Reported? && outcome.state == ExpiredStillFenced ==> EndsWithFence(request, trace)
      ensures outcome.Validated? <==> flow == Checked
      ensures outcome.Validated? ==> check
      ensures outcome.Reported? ==> outcome.state == FinalState(request, trace, flow)
      ensures !check && Ready(request, old(events), old(script), failures) ==>
        outcome == Reported(ResumedThroughExistingChecks, failures + 1)
    {
      hide FenceNewest, ResumeNewest, Observes, AppendAll, DispatchCount, Later, NotedNewest, Ready, EndsWithResume, EndsWithFence;
      NoDispatchYet();
      opening := events;
      var ended, attempts := Body(check, failures);
      flow := ended;
      OneSight(request, trace);
      match ended
      case Died => return Killed, flow;
      case Checked => return Validated, flow;
      case Done(resumed) =>
        return Reported(if resumed then ResumedThroughExistingChecks else ExpiredStillFenced, attempts), flow;
      case _ =>
        var state := if ended.Expired? then ExpiredStillFenced else CancelledOrRefused;
        // A command may commit before losing its output, so the log decides, not the exception.
        var verdict := Current();
        if verdict.None? {
          return Killed, flow;
        }
        OneSight(request, trace);
        match verdict.value
        case Resumed => return Reported(ResumedThroughExistingChecks, attempts), flow;
        case Refused => return Reported(CancelledOrRefused, attempts), flow;
        case Fenced => return Reported(state, attempts), flow;
    }
  }
}
