/** The worker of one role: it restarts an execution whenever the desired state changes or a check is
    due, and cancels the one before. Every step of the worker and of its executions is atomic, and
    they interleave in any order. */
module Worker {
  import opened Model
  import Converge

  /** What the desired document asks for. */
  datatype Order = Order(desired: string, managed: bool)

  /** One execution: what it was started for, and whether its context has been cancelled. */
  datatype Execution = Execution(order: Order, cancelled: bool)

  /** A document that an execution puts under the keys of the role. */
  datatype Document = Actual(state: ActualState) | Health(status: HealthStatus)

  /** A put that went through, with the order on record at that moment. */
  datatype Entry = Entry(document: Document, order: Order)

  datatype State = State(
    last: Order,
    checkedAt: Option<int>,
    executions: seq<Execution>,
    current: Option<nat>,
    stopped: bool,
    written: seq<Entry>)

  const START := State(Order("", false), None, [], None, false, [])

  const DEFAULT_CHECK := 5_000_000_000

  // ----- What an execution may report -----

  function Text(desired: DesiredState): string {
    match desired
    case DesiredActive => "active"
    case DesiredPassive => "passive"
    case DesiredOther(text) => text
  }

  function ToActualState(state: string): ActualState {
    if state == "active" then ActualActive
    else if state == "passive" then ActualPassive
    else if state == "starting" then ActualStarting
    else if state == "stopping" then ActualStopping
    else ActualFailed
  }

  function ToHealthStatus(status: string): HealthStatus {
    if status == "ok" then HealthOK
    else if status == "warning" then HealthWarning
    else HealthFailed
  }

  /** The statuses that an execution can come to report for an order. */
  function Reports(order: Order): set<Converge.RoleStatus> {
    if order.desired == "active" then
      {Converge.FAILED, Converge.Success("active")} + if order.managed then {Converge.RoleStatus("starting", "warning")} else {}
    else if order.desired == "passive" then
      {Converge.FAILED, Converge.Success("passive")} + if order.managed then {Converge.RoleStatus("stopping", "warning")} else {}
    else {Converge.FAILED}
  }

  predicate MayWrite(order: Order, document: Document) {
    exists status <- Reports(order) ::
      document == Actual(ToActualState(status.state)) || document == Health(ToHealthStatus(status.health))
  }

  /** An execution writes the desired state, its transition state while managed, or failed. */
  lemma WrittenStates(order: Order, state: ActualState)
    ensures MayWrite(order, Actual(state)) <==>
      || state == ActualFailed
      || (order.desired == "active" && (state == ActualActive || (order.managed && state == ActualStarting)))
      || (order.desired == "passive" && (state == ActualPassive || (order.managed && state == ActualStopping)))
  {
    assert Converge.FAILED in Reports(order);
    if order.desired == "active" {
      assert Converge.Success("active") in Reports(order);
      assert order.managed ==> Converge.RoleStatus("starting", "warning") in Reports(order);
    } else if order.desired == "passive" {
      assert Converge.Success("passive") in Reports(order);
      assert order.managed ==> Converge.RoleStatus("stopping", "warning") in Reports(order);
    }
  }

  /** It writes health ok with the desired state, warning with the transition state, or failed. */
  lemma WrittenHealth(order: Order, health: HealthStatus)
    ensures MayWrite(order, Health(health)) <==>
      || health == HealthFailed
      || (order.desired in {"active", "passive"} && (health == HealthOK || (order.managed && health == HealthWarning)))
  {
    assert Converge.FAILED in Reports(order);
    if order.desired == "active" {
      assert Converge.Success("active") in Reports(order);
      assert order.managed ==> Converge.RoleStatus("starting", "warning") in Reports(order);
    } else if order.desired == "passive" {
      assert Converge.Success("passive") in Reports(order);
      assert order.managed ==> Converge.RoleStatus("stopping", "warning") in Reports(order);
    }
  }

  /** The statuses reported along a trace. */
  function Transitions(trace: Converge.Trace): (r: seq<Converge.RoleStatus>)
    ensures forall status <- r :: exists t <- trace :: t.Transition? && status == Converge.RoleStatus(t.state, "warning")
    ensures (forall t <- trace :: !t.Transition?) ==> r == []
  {
    if trace == [] then [] else
      var r := Transitions(trace[1..]);
      assert forall t <- trace[1..] :: t in trace;
      if trace[0].Transition? then [Converge.RoleStatus(trace[0].state, "warning")] + r else r
  }

  /** A transition that is reported once is all that is reported along the trace. */
  lemma {:induction false} TransitionsOnce(trace: Converge.Trace, transition: string)
    requires Converge.TransitionOnce(trace) && Converge.Reports(trace, transition)
    ensures Transitions(trace) == if exists t <- trace :: t.Transition? then [Converge.RoleStatus(transition, "warning")] else []
  {
    if trace != [] && !trace[0].Transition? {
      var rest := trace[1..];
      assert forall i :: 0 <= i < |rest| ==> rest[i] == trace[i + 1];
      assert forall t <- rest :: t in trace;
      TransitionsOnce(rest, transition);
      assert forall t <- trace :: t == trace[0] || t in rest;
    } else if trace != [] {
      assert trace[0] in trace;
      assert forall t <- trace[1..] :: !t.Transition?;
    }
  }

  lemma TransitionsReported(trace: Converge.Trace, order: Order, transition: string)
    requires Converge.Reports(trace, transition) && Converge.RoleStatus(transition, "warning") in Reports(order)
    ensures forall status <- Transitions(trace) :: status in Reports(order)
  {}

  /** What a run of the loop reports: the transition, if a pass got beyond its probe, and at last the
      desired state if the last call was a probe that succeeded, or else that the role has failed. */
  ghost predicate ReportsRun(reported: seq<Converge.RoleStatus>, trace: Converge.Trace, attempt: nat, e: Converge.Executor, probe: Converge.ActorName,
                             desired: string, transition: string, oracle: Converge.Oracle) {
    var calls := |Converge.Names(trace)|;
    var beyond := attempt > 0 && !(probe in e.actors && oracle(0).result in {Converge.OK, Converge.ExecError});
    reported == (if beyond then [Converge.RoleStatus(transition, "warning")] else [])
      + (if calls > 0 && Converge.Names(trace)[calls - 1] == probe && oracle(calls - 1).result == Converge.OK
         then [Converge.RoleStatus(desired, "ok")] else [Converge.RoleStatus("failed", "failed")])
  }

  /** What the probe-only mode reports: whether the probe of the desired state succeeds. */
  predicate ReportsProbe(reported: seq<Converge.RoleStatus>, e: Converge.Executor, probe: Converge.ActorName, desired: string, oracle: Converge.Oracle) {
    reported == (if probe in e.actors && oracle(0).result == Converge.OK
                 then [Converge.RoleStatus(desired, "ok")] else [Converge.RoleStatus("failed", "failed")])
  }

  /** The body of an execution: the statuses it writes, in order, and the run of the actors behind
      them. It ends without any if its context is cancelled before there is a session lease; and a
      role without a definition has failed. */
  method ApplyDesired(order: Order, e: Option<Converge.Executor>, leased: bool, start: int, cancelAt: Option<int>, oracle: Converge.Oracle)
    returns (reported: seq<Converge.RoleStatus>, ghost trace: Converge.Trace, ghost attempt: nat)
    ensures reported == [] <==> !leased
    ensures forall status <- reported :: status in Reports(order)
    ensures !order.managed ==> |reported| <= 1
    ensures leased && (e.None? || order.desired !in {"active", "passive"}) ==> reported == [Converge.FAILED] && trace == []
    ensures leased && e.Some? && order == Order("active", true) ==> (
      && Converge.IsRun(trace, e.value, Converge.ProbeActive, Converge.SetActive, "active", "starting", Converge.Deadline(start, e.value.times.converge, cancelAt))
      && Converge.Answered(trace, oracle) && Converge.CallsFor(trace, e.value.actors, Converge.ProbeActive, Converge.SetActive, "active", attempt)
      && ReportsRun(reported, trace, attempt, e.value, Converge.ProbeActive, "active", "starting", oracle))
    ensures leased && e.Some? && order == Order("passive", true) ==> (
      && Converge.IsRun(trace, e.value, Converge.ProbePassive, Converge.SetPassive, "passive", "stopping", Converge.Deadline(start, e.value.times.converge, cancelAt))
      && Converge.Answered(trace, oracle) && Converge.CallsFor(trace, e.value.actors, Converge.ProbePassive, Converge.SetPassive, "passive", attempt)
      && ReportsRun(reported, trace, attempt, e.value, Converge.ProbePassive, "passive", "stopping", oracle))
    ensures leased && e.Some? && order == Order("active", true) && Converge.Healthy(e.value, Converge.ProbeActive, start, cancelAt, oracle) ==>
      reported == [Converge.RoleStatus("active", "ok")]
    ensures leased && e.Some? && order == Order("passive", true) && Converge.Healthy(e.value, Converge.ProbePassive, start, cancelAt, oracle) ==>
      reported == [Converge.RoleStatus("passive", "ok")]
    ensures leased && e.Some? && order == Order("active", false) ==> ReportsProbe(reported, e.value, Converge.ProbeActive, "active", oracle)
    ensures leased && e.Some? && order == Order("passive", false) ==> ReportsProbe(reported, e.value, Converge.ProbePassive, "passive", oracle)
  {
    hide Converge.IsRun, Converge.Prompt, Converge.Confirmed, Converge.CallsFor, Converge.Answered, Converge.Notified, Converge.InOrder;
    hide Converge.ProbesBegin, Converge.Healthy, ReportsRun, Converge.WithinSwitchover;
    trace, attempt := [], 0;
    if !leased {
      reported := [];
      return;
    }
    if e.None? {
      reported := [Converge.FAILED];
      return;
    }
    var executor := e.value;
    if !order.managed {
      var status;
      status, trace := Converge.ReconcileDisabled(executor, order.desired, start, oracle);
      reported := [status];
      return;
    }
    var status, run, passes, _ := Converge.ReconcileRole(executor, order.desired, start, cancelAt, oracle);
    trace, attempt := run, passes;
    reported := Transitions(run) + [status];
    if order.desired == "active" {
      RunReports(trace, attempt, executor, Converge.ProbeActive, Converge.SetActive, "active", "starting", start, cancelAt, oracle);
      TransitionsReported(trace, order, "starting");
    } else if order.desired == "passive" {
      RunReports(trace, attempt, executor, Converge.ProbePassive, Converge.SetPassive, "passive", "stopping", start, cancelAt, oracle);
      TransitionsReported(trace, order, "stopping");
    }
  }

  lemma RunReports(trace: Converge.Trace, attempt: nat, e: Converge.Executor, probe: Converge.ActorName, set_: Converge.ActorName,
                   target: string, transition: string, start: int, cancelAt: Option<int>, oracle: Converge.Oracle)
    requires Converge.IsRun(trace, e, probe, set_, target, transition, Converge.Deadline(start, e.times.converge, cancelAt))
    requires Converge.Notified(trace, probe in e.actors, transition, start, oracle, attempt) && Converge.Answered(trace, oracle)
    ensures Converge.Reports(trace, transition)
    ensures ReportsRun(Transitions(trace) + [if Converge.Confirmed(trace, probe) then Converge.Success(target) else Converge.FAILED],
                       trace, attempt, e, probe, target, transition, oracle)
  {
    hide Converge.LastCall, Converge.Names, Converge.Replies;
    TransitionsOnce(trace, transition);
    Converge.LastCallListed(trace);
  }

  // ----- The steps -----

  function Interval(check: int): int { if check <= 0 then DEFAULT_CHECK else check }

  predicate Due(s: State, now: int, check: int) {
    s.checkedAt.None? || now - s.checkedAt.value >= Interval(check)
  }

  function Cancelled(executions: seq<Execution>, k: Option<nat>): (r: seq<Execution>)
    ensures |r| == |executions|
  {
    if k.Some? && k.value < |executions| then executions[k.value := executions[k.value].(cancelled := true)] else executions
  }

  function Started(s: State, order: Order): State {
    s.(executions := Cancelled(s.executions, s.current) + [Execution(order, s.stopped)], current := Some(|s.executions|))
  }

  /** One pass of the worker's loop, on what the store says now. The check interval is that of the
      role's definition; without a definition the worker does nothing. */
  function Ticked(s: State, read: Option<Order>, now: int, check: Option<int>): State {
    if read.None? || check.None? then s
    else if read.value != s.last then Started(s.(last := read.value, checkedAt := Some(now)), read.value)
    else if Due(s, now, check.value) then Started(s.(checkedAt := Some(now)), read.value)
    else s
  }

  /** An execution puts a document; under a cancelled context the put is refused. */
  function Put(s: State, who: nat, document: Document): State
    requires who < |s.executions|
  {
    if s.executions[who].cancelled then s else s.(written := s.written + [Entry(document, s.last)])
  }

  datatype Step =
    | Tick(read: Option<Order>, now: int)
    | Write(who: nat, document: Document)
    | Finish(who: nat)
    | Shutdown
    | Stop

  predicate Enabled(s: State, step: Step) {
    match step
    case Write(who, document) => who < |s.executions| && MayWrite(s.executions[who].order, document)
    case Finish(who) => who < |s.executions|
    case _ => true
  }

  function After(s: State, step: Step, check: Option<int>): State
    requires Enabled(s, step)
  {
    match step
    case Tick(read, now) => Ticked(s, read, now, check)
    case Write(who, document) => Put(s, who, document)
    case Finish(who) => s.(executions := Cancelled(s.executions, Some(who)))
    case Shutdown => s.(stopped := true, executions := AllCancelled(s.executions))
    case Stop => s.(executions := Cancelled(s.executions, s.current), current := None)
  }

  function AllCancelled(executions: seq<Execution>): (r: seq<Execution>)
    ensures |r| == |executions|
    ensures forall k :: 0 <= k < |r| ==> r[k] == executions[k].(cancelled := true)
  {
    seq(|executions|, k requires 0 <= k < |executions| => executions[k].(cancelled := true))
  }

  /** The states that a worker goes through under some schedule of steps. */
  predicate IsRun(run: seq<State>, steps: seq<Step>, check: Option<int>) {
    && |run| == |steps| + 1
    && forall n :: 0 <= n < |steps| ==> Enabled(run[n], steps[n]) && run[n + 1] == After(run[n], steps[n], check)
  }

  // ----- Freshness -----

  /** Only the current execution can still write, and it was started for the order on record. */
  predicate Fresh(s: State) {
    && (s.current.Some? ==> s.current.value < |s.executions|)
    && (forall k :: 0 <= k < |s.executions| && !s.executions[k].cancelled ==>
      s.current == Some(k) && s.executions[k].order == s.last && !s.stopped)
  }

  /** Every put that went through belongs to the order on record at its moment. */
  predicate Faithful(written: seq<Entry>) {
    forall entry <- written :: MayWrite(entry.order, entry.document)
  }

  lemma StepKeepsFresh(s: State, step: Step, check: Option<int>)
    requires Fresh(s) && Faithful(s.written) && Enabled(s, step)
    ensures Fresh(After(s, step, check)) && Faithful(After(s, step, check).written)
  {
    hide MayWrite;
  }

  /** While the order stays the same, another execution is started exactly when there has been none
      yet, or the check interval has passed since the last start; five seconds, where the role does
      not configure one. Nothing happens without a decodable order or a definition of the role. */
  lemma TickRestarts(s: State, now: int, check: int)
    requires Fresh(s)
    ensures var s' := Ticked(s, Some(s.last), now, Some(check));
      var due := s.checkedAt.None? || now >= s.checkedAt.value + if check <= 0 then 5_000_000_000 else check;
      if due then
        && |s'.executions| == |s.executions| + 1 && s'.executions[|s.executions|].order == s.last
        && s'.checkedAt == Some(now) && s'.current == Some(|s.executions|)
        && forall k :: 0 <= k < |s.executions| ==> s'.executions[k].cancelled
      else s' == s
    ensures forall definition: Option<int> :: Ticked(s, None, now, definition) == s
    ensures forall read: Option<Order> :: Ticked(s, read, now, None) == s
  {}

  /** At most one execution at a time can write. */
  predicate OneWriter(s: State) {
    forall i, j :: 0 <= i < |s.executions| && 0 <= j < |s.executions| && !s.executions[i].cancelled && !s.executions[j].cancelled ==> i == j
  }

  /** Whatever the schedule, at most one execution is uncancelled, it was started for the order last
      recorded, and every status written at any step belongs to the order then on record. */
  lemma {:induction false} AlwaysFresh(run: seq<State>, steps: seq<Step>, check: Option<int>)
    requires IsRun(run, steps, check) && run[0] == START
    ensures forall n :: 0 <= n < |run| ==> Fresh(run[n]) && Faithful(run[n].written) && OneWriter(run[n])
  {
    hide After, Fresh, Faithful, Enabled, OneWriter;
    if |steps| == 0 {
      StartIsFresh();
      FreshHasOneWriter(run[0]);
    } else {
      var m := |steps| - 1;
      AlwaysFresh(run[..m + 1], steps[..m], check);
      assert run[m] == run[..m + 1][m];
      StepKeepsFresh(run[m], steps[m], check);
      FreshHasOneWriter(run[m + 1]);
      forall n | 0 <= n < |run| ensures Fresh(run[n]) && Faithful(run[n].written) && OneWriter(run[n]) {
        if n <= m { assert run[n] == run[..m + 1][n]; }
      }
    }
  }

  lemma FreshHasOneWriter(s: State)
    requires Fresh(s)
    ensures OneWriter(s)
  {}

  lemma StartIsFresh()
    ensures Fresh(START) && Faithful(START.written)
  {}

  // ----- What the controller relies on -----

  /** The worker reads no order other than for this desired state. */
  predicate OnlyReads(steps: seq<Step>, desired: string) {
    forall step <- steps | step.Tick? && step.read.Some? :: step.read.value.desired == desired
  }

  /** What is written from some point on. */
  predicate Since(written: seq<Entry>, from: nat, desired: string) {
    forall i :: from <= i < |written| ==> written[i].order.desired == desired
  }

  lemma StepKeepsOrder(s: State, step: Step, check: Option<int>, from: nat, desired: string)
    requires Fresh(s) && Enabled(s, step) && s.last.desired == desired && Since(s.written, from, desired)
    requires step.Tick? && step.read.Some? ==> step.read.value.desired == desired
    ensures After(s, step, check).last.desired == desired && Since(After(s, step, check).written, from, desired)
  {
    hide MayWrite;
  }

  lemma {:induction false} OrderStays(run: seq<State>, steps: seq<Step>, check: Option<int>, desired: string)
    requires IsRun(run, steps, check) && Fresh(run[0]) && Faithful(run[0].written)
    requires run[0].last.desired == desired && OnlyReads(steps, desired)
    ensures var last := run[|steps|];
      && Fresh(last) && Faithful(last.written) && last.last.desired == desired
      && Since(last.written, |run[0].written|, desired)
  {
    hide After, Fresh, Faithful, Enabled;
    if |steps| > 0 {
      var m := |steps| - 1;
      assert forall step <- steps[..m] :: step in steps;
      OrderStays(run[..m + 1], steps[..m], check, desired);
      assert run[m] == run[..m + 1][m] && run[0] == run[..m + 1][0];
      assert steps[m] in steps;
      StepKeepsFresh(run[m], steps[m], check);
      StepKeepsOrder(run[m], steps[m], check, |run[0].written|, desired);
    }
  }

  /** Once a worker has recorded desired=passive, it writes neither active nor starting until it
      reads something else: executions started before for desired=active can no longer write. */
  lemma PassiveStaysQuiet(run: seq<State>, steps: seq<Step>, check: Option<int>)
    requires IsRun(run, steps, check) && Fresh(run[0]) && Faithful(run[0].written)
    requires run[0].last.desired == "passive" && OnlyReads(steps, "passive")
    ensures forall i :: |run[0].written| <= i < |run[|steps|].written| ==>
      run[|steps|].written[i].document !in {Actual(ActualActive), Actual(ActualStarting)}
  {
    OrderStays(run, steps, check, "passive");
    var written := run[|steps|].written;
    forall i | |run[0].written| <= i < |written| ensures written[i].document !in {Actual(ActualActive), Actual(ActualStarting)} {
      assert written[i] in written;
      WrittenStates(written[i].order, ActualActive);
      WrittenStates(written[i].order, ActualStarting);
    }
  }

  /** Reading a new order silences everything older: exactly the execution started for it, the last,
      can write from then on, unless the worker is shutting down. */
  lemma NewOrderTakesOver(s: State, order: Order, now: int, check: Option<int>)
    requires Fresh(s) && order != s.last && check.Some?
    ensures var s' := Ticked(s, Some(order), now, check);
      && s'.last == order && |s'.executions| == |s.executions| + 1
      && (forall k :: 0 <= k < |s'.executions| ==> (!s'.executions[k].cancelled <==> k == |s.executions| && !s.stopped))
      && s'.executions[|s.executions|].order == order
  {}

  /** After a shutdown nothing is ever written again, even if the worker still ticks. */
  lemma {:induction false} ShutdownIsSilent(run: seq<State>, steps: seq<Step>, check: Option<int>)
    requires IsRun(run, steps, check) && Fresh(run[0]) && Faithful(run[0].written) && run[0].stopped
    ensures run[|steps|].written == run[0].written && run[|steps|].stopped && Fresh(run[|steps|]) && Faithful(run[|steps|].written)
  {
    hide MayWrite, Faithful;
    if |steps| > 0 {
      var m := |steps| - 1;
      ShutdownIsSilent(run[..m + 1], steps[..m], check);
      assert run[m] == run[..m + 1][m] && run[0] == run[..m + 1][0];
      StepKeepsFresh(run[m], steps[m], check);
    }
  }

  // ----- The worker itself -----

  class RoleWorker {
    const check: Option<int>
    var lastDesired: string
    var lastManaged: bool
    var lastCheckAt: Option<int>
    var desiredCancel: Option<nat>
    // The contexts handed out, the parent context, and the puts that went through.
    var contexts: seq<Execution>
    var parentCancelled: bool
    var written: seq<Entry>

    ghost function Now(): State
      reads this
    {
      State(Order(lastDesired, lastManaged), lastCheckAt, contexts, desiredCancel, parentCancelled, written)
    }

    constructor (check: Option<int>)
      ensures Now() == START && this.check == check
    {
      this.check := check;
      lastDesired, lastManaged, lastCheckAt, desiredCancel := "", false, None, None;
      contexts, parentCancelled, written := [], false, [];
    }

    method Reconcile(doc: Doc<DesiredDoc>, now: int)
      modifies this
      ensures Now() == Ticked(old(Now()), if doc.Decoded? then Some(Order(Text(doc.doc.state), doc.doc.managed)) else None, now, check)
    {
      if !doc.Decoded? {
        return;
      }
      var desired, managed := Text(doc.doc.state), doc.doc.managed;
      if check.None? {
        return;
      }
      var checkInterval := check.value;
      if checkInterval <= 0 {
        checkInterval := DEFAULT_CHECK;
      }
      if desired != lastDesired || managed != lastManaged {
        lastDesired := desired;
        lastManaged := managed;
        lastCheckAt := Some(now);
        StartDesiredExecution(desired, managed);
        return;
      }
      if lastCheckAt.None? || now - lastCheckAt.value >= checkInterval {
        lastCheckAt := Some(now);
        StartDesiredExecution(desired, managed);
      }
    }

    method StartDesiredExecution(desired: string, managed: bool)
      modifies this`contexts, this`desiredCancel
      ensures Now() == Started(old(Now()), Order(desired, managed))
    {
      if desiredCancel.Some? {
        Cancel(desiredCancel.value);
        desiredCancel := None;
      }
      contexts := contexts + [Execution(Order(desired, managed), parentCancelled)];
      desiredCancel := Some(|contexts| - 1);
    }

    method Cancel(k: nat)
      modifies this`contexts
      ensures contexts == Cancelled(old(contexts), Some(k))
    {
      if k < |contexts| {
        contexts := contexts[k := contexts[k].(cancelled := true)];
      }
    }

    method CancelCurrentDesired()
      modifies this`contexts, this`desiredCancel
      ensures Now() == After(old(Now()), Stop, check)
    {
      if desiredCancel.Some? {
        Cancel(desiredCancel.value);
        desiredCancel := None;
      }
    }

    /** One of the two puts of a status, in the context of an execution. */
    method PutWithLease(who: nat, document: Document) returns (ok: bool)
      requires who < |contexts|
      modifies this`written
      ensures Now() == Put(old(Now()), who, document) && ok == !contexts[who].cancelled
    {
      ok := !contexts[who].cancelled;
      if ok {
        written := written + [Entry(document, Order(lastDesired, lastManaged))];
      }
    }

    /** Writes what differs from the store, the actual document first; a refused put ends it, and
        without a session lease nothing is put. */
    method WriteStatus(who: nat, leased: bool, status: Converge.RoleStatus, storedActual: Doc<ActualDoc>, storedHealth: Doc<HealthDoc>)
      requires who < |contexts|
      modifies this`written
      ensures Now() == if leased then WroteAll(old(Now()), who, Changes(status, storedActual, storedHealth)) else old(Now())
    {
      if !leased {
        return;
      }
      var actual, health := ToActualState(status.state), ToHealthStatus(status.health);
      var actualChanged := !storedActual.Decoded? || storedActual.doc.state != actual;
      var healthChanged := !storedHealth.Decoded? || storedHealth.doc.status != health;
      ghost var rest := if healthChanged then [Health(health)] else [];
      ghost var changes := Changes(status, storedActual, storedHealth);
      assert changes == (if actualChanged then [Actual(actual)] else []) + rest;
      ghost var all := WroteAll(Now(), who, changes);
      if actualChanged {
        assert changes[0] == Actual(actual) && changes[1..] == rest;
        assert all == WroteAll(Put(Now(), who, Actual(actual)), who, rest);
        var ok := PutWithLease(who, Actual(actual));
        if !ok {
          RefusedChangesNothing(Now(), who, changes);
          return;
        }
      }
      assert all == WroteAll(Now(), who, rest) by {
        if !actualChanged { assert changes == rest; }
      }
      if healthChanged {
        ghost var before := Now();
        assert all == WroteAll(Put(before, who, Health(health)), who, []) by { assert rest[1..] == []; }
        var _ := PutWithLease(who, Health(health));
      }
    }
  }

  /** The documents of a status that the store does not hold yet. */
  function Changes(status: Converge.RoleStatus, storedActual: Doc<ActualDoc>, storedHealth: Doc<HealthDoc>): (r: seq<Document>)
    ensures forall d <- r :: d in {Actual(ToActualState(status.state)), Health(ToHealthStatus(status.health))}
    ensures Actual(ToActualState(status.state)) !in r <==> storedActual.Decoded? && storedActual.doc.state == ToActualState(status.state)
    ensures Health(ToHealthStatus(status.health)) !in r <==> storedHealth.Decoded? && storedHealth.doc.status == ToHealthStatus(status.health)
  {
    (if storedActual.Decoded? && storedActual.doc.state == ToActualState(status.state) then [] else [Actual(ToActualState(status.state))]) +
    (if storedHealth.Decoded? && storedHealth.doc.status == ToHealthStatus(status.health) then [] else [Health(ToHealthStatus(status.health))])
  }

  /** Writing a status is nothing but write steps of that execution. */
  function WroteAll(s: State, who: nat, documents: seq<Document>): State
    requires who < |s.executions|
    decreases |documents|
  {
    if documents == [] then s else WroteAll(Put(s, who, documents[0]), who, documents[1..])
  }

  lemma RefusedChangesNothing(s: State, who: nat, documents: seq<Document>)
    requires who < |s.executions| && s.executions[who].cancelled
    ensures WroteAll(s, who, documents) == s
    decreases |documents|
  {
    if documents != [] { RefusedChangesNothing(s, who, documents[1..]); }
  }

  /** Written uncancelled, a status leaves the store holding it, whatever it held before. */
  lemma StatusIsStored(s: State, who: nat, status: Converge.RoleStatus, storedActual: Doc<ActualDoc>, storedHealth: Doc<HealthDoc>)
    requires who < |s.executions| && !s.executions[who].cancelled
    ensures var written := WroteAll(s, who, Changes(status, storedActual, storedHealth)).written;
      && |s.written| <= |written|
      && (Entry(Actual(ToActualState(status.state)), s.last) in written[|s.written|..]
         || (storedActual.Decoded? && storedActual.doc.state == ToActualState(status.state)))
      && (Entry(Health(ToHealthStatus(status.health)), s.last) in written[|s.written|..]
         || (storedHealth.Decoded? && storedHealth.doc.status == ToHealthStatus(status.health)))
  {
    var documents := Changes(status, storedActual, storedHealth);
    WrittenInOrder(s, who, documents);
    forall d <- documents ensures Entry(d, s.last) in WroteAll(s, who, documents).written[|s.written|..] {
      var i :| 0 <= i < |documents| && documents[i] == d;
      assert WroteAll(s, who, documents).written[|s.written|..][i] == Entry(d, s.last);
    }
  }

  lemma {:induction false} WrittenInOrder(s: State, who: nat, documents: seq<Document>)
    requires who < |s.executions| && !s.executions[who].cancelled
    ensures WroteAll(s, who, documents).written == s.written + seq(|documents|, i requires 0 <= i < |documents| => Entry(documents[i], s.last))
    decreases |documents|
  {
    if documents != [] { WrittenInOrder(Put(s, who, documents[0]), who, documents[1..]); }
  }
}
