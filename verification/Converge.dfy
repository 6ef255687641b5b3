/** The convergence loop of a role: probe, set, retry, until success or the deadline. */
module Converge {
  import opened Model
  import opened Policy

  datatype ActorName = ProbeActive | SetActive | ProbePassive | SetPassive | ForceStop

  /** How running an actor can end: success, a failing exit code, a timeout, or no run at all. */
  datatype ActorResult = OK | ExitCode(code: int) | TimedOut | ExecError

  datatype Reply = Reply(result: ActorResult, duration: nat)

  /** The outside world: what the n-th actor call of an execution comes back with. */
  type Oracle = nat -> Reply

  datatype Event =
    | Called(actor: ActorName, result: ActorResult, at: int, duration: nat)
    | Transition(state: string, at: int)

  datatype RoleStatus = RoleStatus(state: string, health: string)

  function Success(state: string): RoleStatus { RoleStatus(state, "ok") }

  const FAILED := RoleStatus("failed", "failed")

  /** The configured actors, and the times of the role. */
  datatype Executor = Executor(actors: set<ActorName>, times: RoleTimes)

  type Trace = seq<Event>

  // ----- What a trace says -----

  /** The last actor call of a trace. */
  function LastCall(trace: Trace): (r: Option<Event>)
    ensures r.Some? ==> r.value.Called? && r.value in trace
    ensures r.None? <==> forall e <- trace :: !e.Called?
  {
    if trace == [] then None
    else if trace[|trace| - 1].Called? then Some(trace[|trace| - 1])
    else LastCall(trace[..|trace| - 1])
  }

  ghost predicate CallsOnly(trace: Trace, actors: set<ActorName>) {
    forall e <- trace | e.Called? :: e.actor in actors
  }

  /** An exec error ends the run: nothing at all follows it. */
  predicate StopsAtExecError(trace: Trace) {
    forall i :: 0 <= i < |trace| - 1 && trace[i].Called? ==> trace[i].result != ExecError
  }

  /** So does a successful probe. */
  predicate StopsAtSuccess(trace: Trace, probe: ActorName) {
    forall i :: 0 <= i < |trace| - 1 && trace[i].Called? && trace[i].actor == probe ==> trace[i].result != OK
  }

  /** The transition is reported at most once. */
  predicate TransitionOnce(trace: Trace) {
    forall i, j :: 0 <= i < j < |trace| && trace[i].Transition? ==> !trace[j].Transition?
  }

  /** Nothing is set before the transition has been reported. */
  predicate TransitionBeforeSet(trace: Trace, set_: ActorName) {
    forall i :: 0 <= i < |trace| && trace[i].Called? && trace[i].actor == set_ ==>
      exists j :: 0 <= j < i && trace[j].Transition?
  }

  /** force_stop runs only as the very last call, and not before the deadline. */
  predicate ForceStopLast(trace: Trace, deadline: int) {
    forall i :: 0 <= i < |trace| && trace[i].Called? && trace[i].actor == ForceStop ==>
      i == |trace| - 1 && trace[i].at >= deadline
  }

  /** A call returns by the end of its timeout, and a probe or set by the deadline besides. */
  predicate Prompt(trace: Trace, exec: int, deadline: int) {
    forall e <- trace | e.Called? ::
      e.duration <= exec && (e.actor != ForceStop && e.duration > 0 ==> e.at + e.duration <= deadline)
  }

  /** When the loop gives up: after the converge time, or when the execution is cancelled. */
  function Deadline(start: int, converge: int, cancelAt: Option<int>): int {
    if cancelAt.Some? && cancelAt.value < start + converge then cancelAt.value else start + converge
  }

  /** How long a pass of the loop takes at least: the retry interval. Sleeping for an interval that is
      not positive returns at once, and then it is what the clock can tell, one nanosecond. */
  function Pause(times: RoleTimes): (p: int)
    ensures p > 0
  {
    if times.retry > 0 then times.retry else 1
  }

  /** The number of retry intervals that begin within the converge time. */
  function MaxAttempts(converge: int, retry: int): int
    requires retry > 0
  {
    if converge <= 0 then 0 else (converge + retry - 1) / retry
  }

  lemma OneMoreAttempt(attempt: nat, converge: int, retry: int)
    requires retry > 0 && attempt * retry < converge
    ensures attempt + 1 <= MaxAttempts(converge, retry)
  {
    var q := (converge + retry - 1) / retry;
    assert converge + retry - 1 == q * retry + (converge + retry - 1) % retry;
    if q <= attempt {
      Scale(q, attempt, retry);
      assert false;
    }
  }

  lemma Scale(a: int, b: int, c: int)
    requires a <= b && c > 0
    ensures a * c <= b * c
  {}

  /** What holds of the trace of every run, whatever the actors answer. */
  ghost predicate IsRun(trace: Trace, e: Executor, probe: ActorName, set_: ActorName, target: string, transition: string, deadline: int) {
    && CallsOnly(trace, e.actors)
    && CallsOnly(trace, if target == "passive" then {probe, set_, ForceStop} else {probe, set_})
    && StopsAtExecError(trace) && StopsAtSuccess(trace, probe)
    && TransitionOnce(trace) && TransitionBeforeSet(trace, set_)
    && ForceStopLast(trace, deadline)
    && Reports(trace, transition)
  }

  /** Transitions are reported as this state. */
  predicate Reports(trace: Trace, transition: string) {
    forall t <- trace | t.Transition? :: t.state == transition
  }

  /** The last call was a probe, and it succeeded. */
  predicate Confirmed(trace: Trace, probe: ActorName) {
    LastCall(trace).Some? && LastCall(trace).value.actor == probe && LastCall(trace).value.result == OK
  }

  // ----- Which calls a run makes -----

  lemma {:induction false} LastCallListed(trace: Trace)
    ensures |Names(trace)| == |Replies(trace)|
    ensures LastCall(trace).Some? <==> Names(trace) != []
    ensures LastCall(trace).Some? ==> (
      var n := |Names(trace)| - 1;
      Names(trace)[n] == LastCall(trace).value.actor && Replies(trace)[n].result == LastCall(trace).value.result)
  {
    if trace != [] { LastCallListed(trace[..|trace| - 1]); }
  }

  /** The actors called, in order. */
  function Names(trace: Trace): seq<ActorName> {
    if trace == [] then [] else
      var last := trace[|trace| - 1];
      Names(trace[..|trace| - 1]) + if last.Called? then [last.actor] else []
  }

  /** What they came back with, in order. */
  function Replies(trace: Trace): seq<Reply> {
    if trace == [] then [] else
      var last := trace[|trace| - 1];
      Replies(trace[..|trace| - 1]) + if last.Called? then [Reply(last.result, last.duration)] else []
  }

  /** The n-th call came back with the n-th answer of the outside world. */
  ghost predicate Answered(trace: Trace, oracle: Oracle) {
    forall n :: 0 <= n < |Replies(trace)| ==> Replies(trace)[n] == oracle(n)
  }

  lemma CallsMore(trace: Trace, e: Event, oracle: Oracle)
    ensures Names(trace + [e]) == Names(trace) + if e.Called? then [e.actor] else []
    ensures |Replies(trace + [e])| == |Replies(trace)| + if e.Called? then 1 else 0
    ensures Answered(trace, oracle) && (e.Called? ==> Reply(e.result, e.duration) == oracle(|Replies(trace)|)) ==>
      Answered(trace + [e], oracle)
  {
    assert (trace + [e])[..|trace|] == trace;
  }

  /** The calls of a complete pass: the configured ones of probe and set. */
  function Pass(actors: set<ActorName>, probe: ActorName, set_: ActorName): seq<ActorName> {
    (if probe in actors then [probe] else []) + (if set_ in actors then [set_] else [])
  }

  function Passes(actors: set<ActorName>, probe: ActorName, set_: ActorName, n: nat): seq<ActorName> {
    if n == 0 then [] else Passes(actors, probe, set_, n - 1) + Pass(actors, probe, set_)
  }

  /** The run ended with a call: an exec error, or a successful probe. */
  predicate EndedByCall(trace: Trace, probe: ActorName) {
    && LastCall(trace).Some? && LastCall(trace).value.actor != ForceStop
    && (LastCall(trace).value.result == ExecError || Confirmed(trace, probe))
  }

  /** Exactly the calls that a run of so many passes makes: whole passes, the last one cut short by a
      final probe; and force_stop after a passive run that reached the deadline. */
  predicate CallsFor(trace: Trace, actors: set<ActorName>, probe: ActorName, set_: ActorName, target: string, attempt: nat) {
    if EndedByCall(trace, probe) then
      attempt > 0 && Names(trace) == Passes(actors, probe, set_, attempt - 1) +
        if LastCall(trace).value.actor == probe then [probe] else Pass(actors, probe, set_)
    else
      Names(trace) == Passes(actors, probe, set_, attempt) + if target == "passive" && ForceStop in actors then [ForceStop] else []
  }

  lemma CallsEnd(trace: Trace, actors: set<ActorName>, probe: ActorName, set_: ActorName, target: string, attempt: nat)
    requires attempt > 0 && EndedByCall(trace, probe)
    requires Names(trace) == Passes(actors, probe, set_, attempt - 1) +
      if LastCall(trace).value.actor == probe then [probe] else Pass(actors, probe, set_)
    ensures CallsFor(trace, actors, probe, set_, target, attempt)
  {}

  // ----- When things happen -----

  function EndOf(e: Event): int { if e.Called? then e.at + e.duration else e.at }

  /** Nothing begins before the run, nor before what stands ahead of it has ended. */
  predicate InOrder(trace: Trace, start: int) {
    && (forall e <- trace :: e.at >= start)
    && forall i :: 0 <= i < |trace| - 1 ==> EndOf(trace[i]) <= trace[i + 1].at
  }

  /** No pass begins once the converge time is over, or the execution cancelled. */
  predicate ProbesBegin(trace: Trace, probe: ActorName, start: int, converge: int, cancelAt: Option<int>) {
    forall c <- trace | c.Called? && c.actor == probe ::
      c.at < start + converge && (cancelAt.Some? ==> c.at < cancelAt.value)
  }

  /** The transition is reported right after the first probe, or at once where none is configured; and
      exactly if there was a pass and its probe did not end the run. */
  ghost predicate Notified(trace: Trace, probes: bool, transition: string, start: int, oracle: Oracle, attempt: nat) {
    && (forall i :: 0 <= i < |trace| && trace[i].Transition? ==>
          i == (if probes then 1 else 0) && trace[i] == Transition(transition, start + if probes then oracle(0).duration else 0))
    && ((exists t <- trace :: t.Transition?) <==> attempt > 0 && !(probes && oracle(0).result in {OK, ExecError}))
  }

  /** The events of one pass that begins at this time with this call. */
  function PassEvents(actors: set<ActorName>, probe: ActorName, set_: ActorName, transition: string,
                      transitioned: bool, now: int, calls: nat, oracle: Oracle): Trace
  {
    var r := oracle(calls);
    var probed := if probe in actors then [Called(probe, r.result, now, r.duration)] else [];
    if probe in actors && r.result in {OK, ExecError} then probed
    else
      var t := now + if probe in actors then r.duration else 0;
      var next := oracle(calls + |probed|);
      probed + (if transitioned then [] else [Transition(transition, t)])
             + (if set_ in actors then [Called(set_, next.result, t, next.duration)] else [])
  }

  lemma NotifiedFirst(actors: set<ActorName>, probe: ActorName, set_: ActorName, transition: string, start: int, oracle: Oracle)
    ensures Notified(PassEvents(actors, probe, set_, transition, false, start, 0, oracle), probe in actors, transition, start, oracle, 1)
  {
    var trace := PassEvents(actors, probe, set_, transition, false, start, 0, oracle);
    if !(probe in actors && oracle(0).result in {OK, ExecError}) {
      var i := if probe in actors then 1 else 0;
      assert trace[i].Transition? && trace[i] in trace;
    }
  }

  lemma NotifiedLater(trace: Trace, more: Trace, probes: bool, transition: string, start: int, oracle: Oracle, attempt: nat, later: nat)
    requires Notified(trace, probes, transition, start, oracle, attempt) && forall e <- more :: e.Called?
    requires attempt == later || 0 < attempt < later
    ensures Notified(trace + more, probes, transition, start, oracle, later)
  {
    var r := trace + more;
    assert forall i :: 0 <= i < |trace| ==> r[i] == trace[i];
    assert forall i :: |trace| <= i < |r| ==> r[i] in more;
    assert forall t <- trace :: t in r;
    assert forall t <- r :: t in trace || t in more;
  }

  lemma InOrderMore(trace: Trace, more: Trace, start: int, now: int)
    requires InOrder(trace, start) && InOrder(more, now) && start <= now && (trace != [] ==> EndOf(trace[|trace| - 1]) <= now)
    ensures InOrder(trace + more, start)
  {
    var r := trace + more;
    assert forall i :: 0 <= i < |trace| ==> r[i] == trace[i];
    assert forall i :: |trace| <= i < |r| ==> r[i] == more[i - |trace|] && more[i - |trace|] in more;
  }

  lemma PassInOrder(actors: set<ActorName>, probe: ActorName, set_: ActorName, transition: string,
                    transitioned: bool, now: int, calls: nat, oracle: Oracle)
    ensures InOrder(PassEvents(actors, probe, set_, transition, transitioned, now, calls, oracle), now)
    ensures transitioned ==> forall e <- PassEvents(actors, probe, set_, transition, transitioned, now, calls, oracle) :: e.Called?
  {}

  lemma PassBegins(trace: Trace, actors: set<ActorName>, probe: ActorName, set_: ActorName, transition: string,
                   transitioned: bool, now: int, calls: nat, oracle: Oracle, start: int, converge: int, cancelAt: Option<int>)
    requires probe != set_ && ProbesBegin(trace, probe, start, converge, cancelAt) && now < Deadline(start, converge, cancelAt)
    ensures ProbesBegin(trace + PassEvents(actors, probe, set_, transition, transitioned, now, calls, oracle), probe, start, converge, cancelAt)
  {
    var more := PassEvents(actors, probe, set_, transition, transitioned, now, calls, oracle);
    assert forall e <- trace + more :: e in trace || e in more;
  }

  // ----- The loop -----

  /** What the loop knows of the times of its trace. */
  ghost predicate Dated(trace: Trace, probes: bool, probe: ActorName, transition: string, start: int, converge: int,
                        cancelAt: Option<int>, oracle: Oracle, attempt: nat, now: int) {
    && start <= now && InOrder(trace, start) && (trace != [] ==> EndOf(trace[|trace| - 1]) <= now)
    && ProbesBegin(trace, probe, start, converge, cancelAt)
    && Notified(trace, probes, transition, start, oracle, attempt)
  }

  lemma DatedStart(probes: bool, probe: ActorName, transition: string, start: int, converge: int, cancelAt: Option<int>, oracle: Oracle)
    ensures Dated([], probes, probe, transition, start, converge, cancelAt, oracle, 0, start)
  {}

  lemma DatedLater(trace: Trace, probes: bool, probe: ActorName, transition: string, start: int, converge: int,
                   cancelAt: Option<int>, oracle: Oracle, attempt: nat, now: int, later: int)
    requires Dated(trace, probes, probe, transition, start, converge, cancelAt, oracle, attempt, now) && now <= later
    ensures Dated(trace, probes, probe, transition, start, converge, cancelAt, oracle, attempt, later)
  {}

  lemma DatedEnd(trace: Trace, probes: bool, probe: ActorName, transition: string, start: int, converge: int,
                 cancelAt: Option<int>, oracle: Oracle, attempt: nat, now: int)
    requires Dated(trace, probes, probe, transition, start, converge, cancelAt, oracle, attempt, now)
    ensures InOrder(trace, start) && ProbesBegin(trace, probe, start, converge, cancelAt)
    ensures Notified(trace, probes, transition, start, oracle, attempt)
  {}

  lemma HealthyPass(actors: set<ActorName>, probe: ActorName, set_: ActorName, transition: string, start: int, oracle: Oracle)
    ensures probe in actors && oracle(0).result == OK ==>
      [] + PassEvents(actors, probe, set_, transition, false, start, 0, oracle) == [Called(probe, OK, start, oracle(0).duration)]
  {}

  /** One more pass, begun before the deadline. */
  lemma DatedPass(trace: Trace, actors: set<ActorName>, probe: ActorName, set_: ActorName, transition: string, start: int,
                  converge: int, cancelAt: Option<int>, oracle: Oracle, attempt: nat, now: int, calls: nat, later: int)
    requires Dated(trace, probe in actors, probe, transition, start, converge, cancelAt, oracle, attempt, now)
    requires probe != set_ && now < Deadline(start, converge, cancelAt) && now <= later
    requires attempt == 0 ==> trace == [] && now == start && calls == 0
    requires var more := PassEvents(actors, probe, set_, transition, attempt > 0, now, calls, oracle);
      more != [] ==> EndOf(more[|more| - 1]) <= later
    ensures Dated(trace + PassEvents(actors, probe, set_, transition, attempt > 0, now, calls, oracle),
                  probe in actors, probe, transition, start, converge, cancelAt, oracle, attempt + 1, later)
  {
    hide InOrder, ProbesBegin, Notified, PassEvents;
    var more := PassEvents(actors, probe, set_, transition, attempt > 0, now, calls, oracle);
    PassInOrder(actors, probe, set_, transition, attempt > 0, now, calls, oracle);
    InOrderMore(trace, more, start, now);
    PassBegins(trace, actors, probe, set_, transition, attempt > 0, now, calls, oracle, start, converge, cancelAt);
    if attempt == 0 {
      NotifiedFirst(actors, probe, set_, transition, start, oracle);
      assert trace + more == more;
    } else {
      NotifiedLater(trace, more, probe in actors, transition, start, oracle, attempt, attempt + 1);
    }
  }

  /** A force_stop at the end. */
  lemma DatedCall(trace: Trace, probes: bool, probe: ActorName, transition: string, start: int, converge: int,
                  cancelAt: Option<int>, oracle: Oracle, attempt: nat, now: int, call: Event)
    requires Dated(trace, probes, probe, transition, start, converge, cancelAt, oracle, attempt, now)
    requires call.Called? && call.actor != probe && call.at == now
    ensures Dated(trace + [call], probes, probe, transition, start, converge, cancelAt, oracle, attempt, now + call.duration)
  {
    hide InOrder, ProbesBegin, Notified;
    InOrderMore(trace, [call], start, now) by { assert InOrder([call], now) by { OneInOrder(call); } }
    NotifiedLater(trace, [call], probes, transition, start, oracle, attempt, attempt);
    BeginsMore(trace, call, probe, start, converge, cancelAt);
  }

  lemma OneInOrder(call: Event)
    ensures InOrder([call], call.at)
  {}

  lemma BeginsMore(trace: Trace, call: Event, probe: ActorName, start: int, converge: int, cancelAt: Option<int>)
    requires ProbesBegin(trace, probe, start, converge, cancelAt) && call.Called? && call.actor != probe
    ensures ProbesBegin(trace + [call], probe, start, converge, cancelAt)
  {
    assert forall e <- trace + [call] :: e in trace || e == call;
  }

  /** Everything the loop keeps true of its trace before it returns. */
  ghost predicate Ongoing(trace: Trace, e: Executor, probe: ActorName, set_: ActorName, transition: string, transitioned: bool) {
    && CallsOnly(trace, {probe, set_}) && CallsOnly(trace, e.actors)
    && (forall c <- trace | c.Called? :: c.result != ExecError && (c.actor == probe ==> c.result != OK))
    && (transitioned <==> exists t <- trace :: t.Transition?)
    && TransitionOnce(trace) && TransitionBeforeSet(trace, set_)
    && Reports(trace, transition)
  }

  /** The state of the loop's clock: every attempt took at least the retry interval, and if all calls
      were prompt then at most one interval has passed since the converge time. */
  ghost predicate Timed(trace: Trace, e: Executor, start: int, deadline: int, attempt: nat, now: int)
  {
    && start + attempt * Pause(e.times) <= now
    && (attempt > 0 ==> (attempt - 1) * Pause(e.times) < e.times.converge)
    && attempt <= MaxAttempts(e.times.converge, Pause(e.times))
    && (Prompt(trace, e.times.exec, deadline) ==> now <= start + Positive(e.times.converge) + Pause(e.times))
  }

  /** A role that is where it should be: the run begins, and its first probe succeeds. */
  predicate Healthy(e: Executor, probe: ActorName, start: int, cancelAt: Option<int>, oracle: Oracle) {
    e.times.converge > 0 && (cancelAt.Some? ==> cancelAt.value > start) && probe in e.actors && oracle(0).result == OK
  }

  method Ensure(e: Executor, probe: ActorName, set_: ActorName, target: string, transitionState: string,
                start: int, cancelAt: Option<int>, oracle: Oracle)
    returns (status: RoleStatus, trace: Trace, attempt: nat, end: int)
    requires probe != set_ && ForceStop !in {probe, set_}
    ensures IsRun(trace, e, probe, set_, target, transitionState, Deadline(start, e.times.converge, cancelAt))
    ensures status == if Confirmed(trace, probe) then Success(target) else FAILED
    ensures Answered(trace, oracle) && CallsFor(trace, e.actors, probe, set_, target, attempt)
    ensures !EndedByCall(trace, probe) ==> end >= start + e.times.converge || (cancelAt.Some? && end >= cancelAt.value)
    ensures InOrder(trace, start) && ProbesBegin(trace, probe, start, e.times.converge, cancelAt)
    ensures Notified(trace, probe in e.actors, transitionState, start, oracle, attempt)
    ensures attempt > 0 ==> (attempt - 1) * Pause(e.times) < e.times.converge
    ensures Healthy(e, probe, start, cancelAt, oracle) ==>
      status == Success(target) && trace == [Called(probe, OK, start, oracle(0).duration)]
    ensures end >= start + (if attempt == 0 then 0 else (attempt - 1) * Pause(e.times))
    ensures attempt <= MaxAttempts(e.times.converge, Pause(e.times))
    ensures Prompt(trace, e.times.exec, Deadline(start, e.times.converge, cancelAt)) && e.times.exec >= 0 ==>
      end <= start + Positive(e.times.converge) + Pause(e.times) + e.times.exec
  {
    hide Ongoing, IsRun, Confirmed, Prompt, MaxAttempts, Timed, Answered, Names, Replies, EndedByCall, Pass, LastCall;
    hide InOrder, ProbesBegin, Notified, PassEvents, Dated, EndOf, CallsFor;
    var deadline := Deadline(start, e.times.converge, cancelAt);
    var now, calls := start, 0;
    var transitioned := false;
    attempt, trace := 0, [];
    OngoingStart(e, probe, set_, transitionState);
    TimedStart(e, start, deadline);
    NoCalls(oracle);
    DatedStart(probe in e.actors, probe, transitionState, start, e.times.converge, cancelAt, oracle);
    while true
      invariant Dated(trace, probe in e.actors, probe, transitionState, start, e.times.converge, cancelAt, oracle, attempt, now)
      invariant transitioned <==> attempt > 0
      invariant attempt == 0 ==> trace == [] && now == start && calls == 0
      invariant attempt > 0 ==> !(probe in e.actors && oracle(0).result == OK)
      invariant Ongoing(trace, e, probe, set_, transitionState, transitioned)
      invariant Timed(trace, e, start, deadline, attempt, now)
      invariant calls == |Replies(trace)| && Answered(trace, oracle)
      invariant Names(trace) == Passes(e.actors, probe, set_, attempt)
      decreases deadline - now
    {
      if now >= deadline {
        TimedEnd(trace, e, start, deadline, attempt, now);
        trace, end := GiveUp(e, probe, set_, target, transitionState, trace, transitioned, now, calls, oracle, deadline, start, cancelAt, attempt);
        return FAILED, trace, attempt, end;
      }
      ghost var before, earlier, done := now, trace, calls;
      attempt := attempt + 1;
      var result;
      result, trace, transitioned, now, calls :=
        Attempt(e, probe, set_, target, transitionState, trace, transitioned, now, calls, oracle, deadline);
      TimedMore(earlier, trace, e, start, cancelAt, attempt - 1, before, now);
      DatedPass(earlier, e.actors, probe, set_, transitionState, start, e.times.converge, cancelAt, oracle, attempt - 1, before, done, now);
      if result.Some? {
        DatedEnd(trace, probe in e.actors, probe, transitionState, start, e.times.converge, cancelAt, oracle, attempt, now);
        CallsEnd(trace, e.actors, probe, set_, target, attempt);
        HealthyPass(e.actors, probe, set_, transitionState, start, oracle);
        return result.value, trace, attempt, now;
      }
      DatedLater(trace, probe in e.actors, probe, transitionState, start, e.times.converge, cancelAt, oracle, attempt, now, now + Pause(e.times));
      now := now + Pause(e.times);
    }
  }

  /** The end of a run that has reached its deadline: a passive one calls force_stop, if it is configured. */
  method GiveUp(e: Executor, probe: ActorName, set_: ActorName, target: string, transitionState: string,
                trace: Trace, ghost transitioned: bool, now: int, calls: nat, oracle: Oracle,
                ghost deadline: int, ghost start: int, ghost cancelAt: Option<int>, ghost attempt: nat)
    returns (trace': Trace, end: int)
    requires probe != set_ && ForceStop !in {probe, set_} && now >= deadline
    requires Ongoing(trace, e, probe, set_, transitionState, transitioned)
    requires calls == |Replies(trace)| && Answered(trace, oracle)
    requires Dated(trace, probe in e.actors, probe, transitionState, start, e.times.converge, cancelAt, oracle, attempt, now)
    requires Names(trace) == Passes(e.actors, probe, set_, attempt)
    ensures CallsFor(trace', e.actors, probe, set_, target, attempt)
    ensures IsRun(trace', e, probe, set_, target, transitionState, deadline)
    ensures !Confirmed(trace', probe) && !EndedByCall(trace', probe) && Answered(trace', oracle)
    ensures var calls := target == "passive" && ForceStop in e.actors;
      && trace' == trace + (if calls then [Called(ForceStop, oracle(|Replies(trace)|).result, now, oracle(|Replies(trace)|).duration)] else [])
      && Names(trace') == Names(trace) + (if calls then [ForceStop] else [])
      && end == now + (if calls then oracle(|Replies(trace)|).duration else 0)
    ensures InOrder(trace', start) && ProbesBegin(trace', probe, start, e.times.converge, cancelAt)
    ensures Notified(trace', probe in e.actors, transitionState, start, oracle, attempt)
    ensures Prompt(trace', e.times.exec, deadline) ==>
      Prompt(trace, e.times.exec, deadline) && (e.times.exec >= 0 ==> end <= now + e.times.exec)
  {
    hide Ongoing, IsRun, Confirmed, Prompt, Answered, Names, Replies, EndedByCall, LastCall, InOrder, ProbesBegin, Notified, Dated;
    DatedEnd(trace, probe in e.actors, probe, transitionState, start, e.times.converge, cancelAt, oracle, attempt, now);
    trace', end := trace, now;
    if target == "passive" && ForceStop in e.actors {
      var reply := oracle(calls);
      var call := Called(ForceStop, reply.result, now, reply.duration);
      GivenUp(trace, call, e, probe, set_, transitionState, transitioned, deadline);
      PromptMore(trace, call, e.times.exec, deadline);
      CallsMore(trace, call, oracle);
      DatedCall(trace, probe in e.actors, probe, transitionState, start, e.times.converge, cancelAt, oracle, attempt, now, call);
      trace', end := trace + [call], now + reply.duration;
      DatedEnd(trace', probe in e.actors, probe, transitionState, start, e.times.converge, cancelAt, oracle, attempt, end);
    } else {
      LeftAlone(trace, e, probe, set_, target, transitionState, transitioned, deadline);
    }
  }

  /** One pass of the loop up to its sleep: the status if it ends the run. */
  method Attempt(e: Executor, probe: ActorName, set_: ActorName, target: string, transitionState: string,
                 trace: Trace, transitioned: bool, now: int, calls: nat, oracle: Oracle, ghost deadline: int)
    returns (result: Option<RoleStatus>, trace': Trace, transitioned': bool, now': int, calls': nat)
    requires probe != set_ && ForceStop !in {probe, set_} && now < deadline
    requires Ongoing(trace, e, probe, set_, transitionState, transitioned)
    requires calls == |Replies(trace)| && Answered(trace, oracle)
    ensures calls' == |Replies(trace')| && Answered(trace', oracle)
    ensures trace' == trace + PassEvents(e.actors, probe, set_, transitionState, transitioned, now, calls, oracle)
    ensures var more := PassEvents(e.actors, probe, set_, transitionState, transitioned, now, calls, oracle);
      more != [] ==> EndOf(more[|more| - 1]) <= now'
    ensures result.None? ==> transitioned'
    ensures probe in e.actors && oracle(calls).result == OK ==> result == Some(Success(target))
    ensures result.None? ==> Names(trace') == Names(trace) + Pass(e.actors, probe, set_)
    ensures result.Some? ==> EndedByCall(trace', probe)
    ensures result.Some? && LastCall(trace').value.actor == probe ==> Names(trace') == Names(trace) + [probe]
    ensures result.Some? && LastCall(trace').value.actor != probe ==> (
      Names(trace') == Names(trace) + Pass(e.actors, probe, set_))
    ensures result.None? ==> Ongoing(trace', e, probe, set_, transitionState, transitioned')
    ensures result.Some? ==> IsRun(trace', e, probe, set_, target, transitionState, deadline)
    ensures result.Some? ==> result.value == if Confirmed(trace', probe) then Success(target) else FAILED
    ensures now <= now' && (Prompt(trace', e.times.exec, deadline) ==> Prompt(trace, e.times.exec, deadline) && now' <= deadline)
  {
    hide Ongoing, IsRun, Confirmed, Prompt, Answered, Names, Replies, EndedByCall, LastCall;
    result, trace', transitioned', now', calls' := None, trace, transitioned, now, calls;
    if probe in e.actors {
      var reply := oracle(calls');
      var call := Called(probe, reply.result, now', reply.duration);
      PromptMore(trace', call, e.times.exec, deadline);
      CallsMore(trace', call, oracle);
      now', calls' := now' + reply.duration, calls' + 1;
      if reply.result == OK || reply.result == ExecError {
        Ended(trace', call, e, probe, set_, target, transitionState, transitioned', deadline);
        trace' := trace' + [call];
        result := Some(if reply.result == OK then Success(target) else FAILED);
        return;
      }
      OngoingCall(trace', call, e, probe, set_, transitionState, transitioned');
      trace' := trace' + [call];
    }

    if !transitioned' {
      var t := Transition(transitionState, now');
      OngoingTransition(trace', t, e, probe, set_, transitionState);
      PromptMore(trace', t, e.times.exec, deadline);
      CallsMore(trace', t, oracle);
      transitioned', trace' := true, trace' + [t];
    }

    result, trace', now', calls' := Set(e, probe, set_, target, transitionState, trace', now', calls', oracle, deadline);
  }

  /** The second half of a pass: only an exec error ends the run. */
  method Set(e: Executor, ghost probe: ActorName, set_: ActorName, ghost target: string, ghost transitionState: string,
             trace: Trace, now: int, calls: nat, oracle: Oracle, ghost deadline: int)
    returns (result: Option<RoleStatus>, trace': Trace, now': int, calls': nat)
    requires probe != set_ && ForceStop !in {probe, set_}
    requires Ongoing(trace, e, probe, set_, transitionState, true)
    requires calls == |Replies(trace)| && Answered(trace, oracle)
    ensures calls' == |Replies(trace')| && Answered(trace', oracle)
    ensures trace' == trace + if set_ in e.actors then [Called(set_, oracle(calls).result, now, oracle(calls).duration)] else []
    ensures now' == now + if set_ in e.actors then oracle(calls).duration else 0
    ensures Names(trace') == Names(trace) + if set_ in e.actors then [set_] else []
    ensures result.None? ==> Ongoing(trace', e, probe, set_, transitionState, true)
    ensures result.Some? ==> IsRun(trace', e, probe, set_, target, transitionState, deadline)
    ensures result.Some? ==> result.value == FAILED && !Confirmed(trace', probe)
    ensures result.Some? ==> EndedByCall(trace', probe) && LastCall(trace').value.actor == set_
    ensures now <= now'
    ensures Prompt(trace', e.times.exec, deadline) ==> Prompt(trace, e.times.exec, deadline) && (now <= deadline ==> now' <= deadline)
  {
    hide Ongoing, IsRun, Confirmed, Prompt, Answered, Names, Replies, EndedByCall, LastCall;
    result, trace', now', calls' := None, trace, now, calls;
    if set_ in e.actors {
      var reply := oracle(calls');
      var call := Called(set_, reply.result, now', reply.duration);
      PromptMore(trace', call, e.times.exec, deadline);
      CallsMore(trace', call, oracle);
      if reply.result == ExecError {
        Ended(trace', call, e, probe, set_, target, transitionState, true, deadline);
        EndedHow(trace' + [call], probe);
        result := Some(FAILED);
      } else {
        OngoingCall(trace', call, e, probe, set_, transitionState, true);
      }
      now', calls', trace' := now' + reply.duration, calls' + 1, trace' + [call];
    }
  }

  lemma EndedHow(trace: Trace, probe: ActorName)
    ensures EndedByCall(trace, probe) ==> LastCall(trace).Some?
  {}

  lemma NoCalls(oracle: Oracle)
    ensures Names([]) == [] && |Replies([])| == 0 && Answered([], oracle)
  {}

  lemma TimedStart(e: Executor, start: int, deadline: int)
    ensures Timed([], e, start, deadline, 0, start)
  {}

  lemma TimedEnd(trace: Trace, e: Executor, start: int, deadline: int, attempt: nat, now: int)
    requires Timed(trace, e, start, deadline, attempt, now)
    ensures attempt <= MaxAttempts(e.times.converge, Pause(e.times))
    ensures start + attempt * Pause(e.times) <= now
    ensures attempt > 0 ==> (attempt - 1) * Pause(e.times) <= attempt * Pause(e.times) && (attempt - 1) * Pause(e.times) < e.times.converge
    ensures Prompt(trace, e.times.exec, deadline) ==> now <= start + Positive(e.times.converge) + Pause(e.times)
  {
    if attempt > 0 { Scale(attempt - 1, attempt, Pause(e.times)); }
  }

  /** A further attempt, begun before the deadline, and everything up to the next interval. */
  lemma TimedMore(earlier: Trace, trace: Trace, e: Executor, start: int, cancelAt: Option<int>, attempt: nat, before: int, now: int)
    requires var deadline := Deadline(start, e.times.converge, cancelAt);
      && Timed(earlier, e, start, deadline, attempt, before)
      && before < deadline && before <= now
      && (Prompt(trace, e.times.exec, deadline) ==> now <= deadline)
    ensures Timed(trace, e, start, Deadline(start, e.times.converge, cancelAt), attempt + 1, now + Pause(e.times))
    ensures start + attempt * Pause(e.times) <= now
    ensures attempt * Pause(e.times) < e.times.converge
    ensures attempt + 1 <= MaxAttempts(e.times.converge, Pause(e.times))
    ensures Prompt(trace, e.times.exec, Deadline(start, e.times.converge, cancelAt)) ==> now <= start + Positive(e.times.converge)
  {
    hide Prompt, MaxAttempts;
    OneMoreAttempt(attempt, e.times.converge, Pause(e.times));
    assert (attempt + 1) * Pause(e.times) == attempt * Pause(e.times) + Pause(e.times);
  }

  function Positive(t: int): int { if t > 0 then t else 0 }

  lemma OngoingStart(e: Executor, probe: ActorName, set_: ActorName, transition: string)
    ensures Ongoing([], e, probe, set_, transition, false)
  {}

  lemma OngoingCall(trace: Trace, call: Event, e: Executor, probe: ActorName, set_: ActorName, transition: string, transitioned: bool)
    requires Ongoing(trace, e, probe, set_, transition, transitioned) && call.Called? && call.actor in {probe, set_} * e.actors
    requires call.result != ExecError && (call.actor == probe ==> call.result != OK)
    requires call.actor == set_ ==> transitioned
    ensures Ongoing(trace + [call], e, probe, set_, transition, transitioned)
  {
    var r := trace + [call];
    Extends(trace, call, set_, transitioned);
    if transitioned {
      var t :| t in trace && t.Transition?;
      assert t in r;
    }
  }

  /** Adding a call keeps the order of transition and set. */
  lemma Extends(trace: Trace, call: Event, set_: ActorName, transitioned: bool)
    requires TransitionOnce(trace) && TransitionBeforeSet(trace, set_)
    requires call.Called? && (call.actor == set_ ==> exists t <- trace :: t.Transition?)
    ensures TransitionOnce(trace + [call]) && TransitionBeforeSet(trace + [call], set_)
  {
    var r := trace + [call];
    forall i | 0 <= i < |r| && r[i].Called? && r[i].actor == set_ ensures exists j :: 0 <= j < i && r[j].Transition? {
      if i < |trace| {
        assert trace[i] == r[i];
        var j :| 0 <= j < i && trace[j].Transition?;
        assert r[j].Transition?;
      } else {
        var t :| t in trace && t.Transition?;
        var j :| 0 <= j < |trace| && trace[j] == t;
        assert r[j].Transition?;
      }
    }
  }

  lemma OngoingTransition(trace: Trace, t: Event, e: Executor, probe: ActorName, set_: ActorName, transition: string)
    requires Ongoing(trace, e, probe, set_, transition, false) && t.Transition? && t.state == transition
    ensures Ongoing(trace + [t], e, probe, set_, transition, true)
  {
    var r := trace + [t];
    assert forall i :: 0 <= i < |trace| ==> r[i] == trace[i] && trace[i] in trace;
    assert t in r;
  }

  lemma LastCallIs(trace: Trace, call: Event)
    requires call.Called?
    ensures LastCall(trace + [call]) == Some(call)
  {
    assert (trace + [call])[..|trace|] == trace;
  }

  /** A call that ends the run. */
  lemma Ended(trace: Trace, call: Event, e: Executor, probe: ActorName, set_: ActorName, target: string,
              transition: string, transitioned: bool, deadline: int)
    requires Ongoing(trace, e, probe, set_, transition, transitioned) && call.Called? && call.actor in {probe, set_} * e.actors
    requires ForceStop !in {probe, set_} && (call.actor == set_ ==> transitioned)
    ensures IsRun(trace + [call], e, probe, set_, target, transition, deadline)
    ensures Confirmed(trace + [call], probe) <==> call.actor == probe && call.result == OK
    ensures LastCall(trace + [call]) == Some(call)
    ensures EndedByCall(trace + [call], probe) <==> call.result == ExecError || (call.actor == probe && call.result == OK)
  {
    var r := trace + [call];
    assert forall i :: 0 <= i < |trace| ==> r[i] == trace[i] && trace[i] in trace;
    LastCallIs(trace, call);
    Extends(trace, call, set_, transitioned);
  }

  /** force_stop ends the run. */
  lemma GivenUp(trace: Trace, call: Event, e: Executor, probe: ActorName, set_: ActorName,
                transition: string, transitioned: bool, deadline: int)
    requires Ongoing(trace, e, probe, set_, transition, transitioned) && ForceStop !in {probe, set_} && ForceStop in e.actors
    requires call.Called? && call.actor == ForceStop && call.at >= deadline
    ensures IsRun(trace + [call], e, probe, set_, "passive", transition, deadline) && !Confirmed(trace + [call], probe)
    ensures !EndedByCall(trace + [call], probe)
  {
    var r := trace + [call];
    assert forall i :: 0 <= i < |trace| ==> r[i] == trace[i] && trace[i] in trace;
    LastCallIs(trace, call);
    Extends(trace, call, set_, transitioned);
  }

  /** The run ends at the deadline without another call. */
  lemma LeftAlone(trace: Trace, e: Executor, probe: ActorName, set_: ActorName, target: string,
                  transition: string, transitioned: bool, deadline: int)
    requires Ongoing(trace, e, probe, set_, transition, transitioned) && ForceStop !in {probe, set_}
    ensures IsRun(trace, e, probe, set_, target, transition, deadline) && !Confirmed(trace, probe)
    ensures !EndedByCall(trace, probe)
  {
    assert forall i :: 0 <= i < |trace| ==> trace[i] in trace;
  }

  lemma PromptMore(trace: Trace, e: Event, exec: int, deadline: int)
    ensures Prompt(trace + [e], exec, deadline) ==> Prompt(trace, exec, deadline)
    ensures Prompt(trace + [e], exec, deadline) && e.Called? ==>
      (e.duration <= exec && (e.actor != ForceStop && e.duration > 0 ==> e.at + e.duration <= deadline))
  {
    assert e in trace + [e];
    assert forall x <- trace :: x in trace + [e];
  }

  // ----- Within the timeout of the controller -----

  predicate Sensible(times: RoleTimes) {
    0 < times.retry <= times.check && 0 < times.converge && 0 <= times.exec
  }

  /** So long does the controller at least wait for a group that lists a role with these times. */
  ghost predicate WithinSwitchover(times: RoleTimes, elapsed: int) {
    forall cfg: Config, cg, mg, role | role in RolesOf(cfg, cg, mg) && role in cfg.roles && cfg.roles[role] == times ::
      elapsed <= Policy.SwitchoverTimeout(cfg, cg, mg)
  }

  lemma ShortEnough(times: RoleTimes, elapsed: int)
    requires Sensible(times) && elapsed <= Positive(times.converge) + times.retry + times.exec
    ensures WithinSwitchover(times, elapsed)
  {
    forall cfg: Config, cg, mg, role | role in RolesOf(cfg, cg, mg) && role in cfg.roles && cfg.roles[role] == times
      ensures elapsed <= Policy.SwitchoverTimeout(cfg, cg, mg)
    {
      assert RoleTime(times) <= LongestRole(cfg, RolesOf(cfg, cg, mg));
    }
  }

  // ----- Reconcile and ReconcileDisabled -----

  method ReconcileRole(e: Executor, desired: string, start: int, cancelAt: Option<int>, oracle: Oracle)
    returns (status: RoleStatus, trace: Trace, attempt: nat, end: int)
    ensures Answered(trace, oracle)
    ensures desired == "active" ==> CallsFor(trace, e.actors, ProbeActive, SetActive, "active", attempt)
    ensures desired == "passive" ==> CallsFor(trace, e.actors, ProbePassive, SetPassive, "passive", attempt)
    ensures desired !in {"active", "passive"} ==> status == FAILED && trace == []
    ensures desired == "active" ==> status == (if Confirmed(trace, ProbeActive) then Success("active") else FAILED)
    ensures desired == "active" ==> IsRun(trace, e, ProbeActive, SetActive, "active", "starting", Deadline(start, e.times.converge, cancelAt))
    ensures desired == "passive" ==> status == (if Confirmed(trace, ProbePassive) then Success("passive") else FAILED)
    ensures desired == "passive" ==> IsRun(trace, e, ProbePassive, SetPassive, "passive", "stopping", Deadline(start, e.times.converge, cancelAt))
    ensures Prompt(trace, e.times.exec, Deadline(start, e.times.converge, cancelAt)) && e.times.exec >= 0 ==>
      end <= start + Positive(e.times.converge) + Pause(e.times) + e.times.exec
    ensures desired == "active" ==> (
      && InOrder(trace, start) && ProbesBegin(trace, ProbeActive, start, e.times.converge, cancelAt)
      && Notified(trace, ProbeActive in e.actors, "starting", start, oracle, attempt))
    ensures desired == "active" && Healthy(e, ProbeActive, start, cancelAt, oracle) ==> (
      status == RoleStatus("active", "ok") && trace == [Called(ProbeActive, OK, start, oracle(0).duration)])
    ensures desired == "passive" ==> (
      && InOrder(trace, start) && ProbesBegin(trace, ProbePassive, start, e.times.converge, cancelAt)
      && Notified(trace, ProbePassive in e.actors, "stopping", start, oracle, attempt))
    ensures desired == "passive" && Healthy(e, ProbePassive, start, cancelAt, oracle) ==> (
      status == RoleStatus("passive", "ok") && trace == [Called(ProbePassive, OK, start, oracle(0).duration)])
    ensures Prompt(trace, e.times.exec, Deadline(start, e.times.converge, cancelAt)) && Sensible(e.times) ==>
      WithinSwitchover(e.times, end - start)
  {
    hide IsRun, Prompt, Confirmed, CallsFor, WithinSwitchover, InOrder, ProbesBegin, Notified, Healthy;
    if desired == "active" {
      status, trace, attempt, end := Ensure(e, ProbeActive, SetActive, "active", "starting", start, cancelAt, oracle);
    } else if desired == "passive" {
      status, trace, attempt, end := Ensure(e, ProbePassive, SetPassive, "passive", "stopping", start, cancelAt, oracle);
    } else {
      status, trace, attempt, end := FAILED, [], 0, start;
    }
    if Sensible(e.times) && end - start <= Positive(e.times.converge) + Pause(e.times) + e.times.exec {
      ShortEnough(e.times, end - start);
    }
  }

  /** Probe-only mode: one probe of the desired state, and nothing is ever set. */
  method ReconcileDisabled(e: Executor, desired: string, start: int, oracle: Oracle) returns (status: RoleStatus, trace: Trace)
    ensures |trace| <= 1
    ensures forall c <- trace :: c.Called? && c.actor in e.actors && c.actor == (if desired == "active" then ProbeActive else ProbePassive)
    ensures trace != [] ==> trace[0].result == oracle(0).result && trace[0].at == start
    ensures status == if trace != [] && oracle(0).result == OK then Success(desired) else FAILED
    ensures desired !in {"active", "passive"} ==> trace == []
    ensures desired in {"active", "passive"} ==> (trace == [] <==> (if desired == "active" then ProbeActive else ProbePassive) !in e.actors)
  {
    var probe := if desired == "active" then ProbeActive else ProbePassive;
    if desired != "active" && desired != "passive" {
      return FAILED, [];
    }
    if probe !in e.actors {
      return FAILED, [];
    }
    var reply := oracle(0);
    trace := [Called(probe, reply.result, start, reply.duration)];
    status := if reply.result == OK then Success(desired) else FAILED;
  }
}
