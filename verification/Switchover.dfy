/** When a switchover completes: which group a cycle activates, over whole histories of cycles. */
module Switchover {
  import opened Model
  import opened Aggregation
  import opened Policy
  import opened Cycle
  import opened Progress

  /** What a cycle finds, as far as its memory is concerned: no switch to make (a swap is due, the
      priorities are equal, there is no target, or the target itself is in the way); a group in the
      way of its target that still runs; an owner in the way that has stopped; or nobody. */
  datatype Find =
    | NoSwitch
    | Waits(group: string, target: string, at: int, timeout: int)
    | Stopped(group: string, target: string)
    | Nobody(target: string)

  ghost function FindOf(cfg: Config, cg: string, groups: seq<GroupRuntime>, now: int): Find {
    if (cfg.automatic && SwapFires(groups)) || AllSame(groups) || Target(groups).None? then NoSwitch
    else
      var target := groups[Target(groups).value].name;
      match CurrentActive(groups)
      case None => Nobody(target)
      case Some(c) =>
        var current := groups[c];
        if current.name == target then NoSwitch
        else if current.Stopped() then Stopped(current.name, target)
        else Waits(current.name, target, now, SwitchoverTimeout(cfg, cg, current.name))
  }

  /** A group in the way is one told to be active and managed; or, where there is none, one told to be
      passive that still reports to be running. It is waited for until it reports to be passive or
      failed. The target is managed and has not failed. */
  lemma FindMeans(cfg: Config, cg: string, groups: seq<GroupRuntime>, now: int)
    ensures match FindOf(cfg, cg, groups, now)
      case NoSwitch => true
      case Waits(group, target, at, timeout) => group != target && at == now && timeout == SwitchoverTimeout(cfg, cg, group) &&
        TargetNamed(groups, target) && exists g <- groups :: g.name == group && InTheWay(groups, g) && g.actual !in {ActualPassive, ActualFailed}
      case Stopped(group, target) => group != target &&
        TargetNamed(groups, target) && exists g <- groups :: g.name == group && InTheWay(groups, g) && g.actual in {ActualPassive, ActualFailed}
      case Nobody(target) => TargetNamed(groups, target) && forall g <- groups :: !InTheWay(groups, g)
  {
    CurrentActiveMeans(groups);
    if Target(groups).Some? { assert groups[Target(groups).value] in groups; }
    if CurrentActive(groups).Some? { assert groups[CurrentActive(groups).value] in groups; }
  }

  ghost predicate InTheWay(groups: seq<GroupRuntime>, g: GroupRuntime) {
    || (g.desired == DesiredActive && g.managed)
    || (g.desired == DesiredPassive && g.actual in {ActualActive, ActualStarting, ActualStopping}
        && forall h <- groups :: !(h.desired == DesiredActive && h.managed))
  }

  ghost predicate TargetNamed(groups: seq<GroupRuntime>, target: string) {
    exists g <- groups :: g.name == target && g.managed && g.health != HealthFailed && g.actual != ActualFailed
  }

  /** What that leaves in memory. */
  function Noted(mem: Memory, f: Find): Memory {
    match f
    case NoSwitch => mem
    case Waits(group, target, at, timeout) => DrainMemory(mem, group, target, at, timeout)
    case Stopped(group, _) => Memory(mem.started - {group}, None)
    case Nobody(target) => if mem.target == Some(target) then mem.(target := None) else mem
  }

  function Record(mem: Memory, finds: seq<Find>): Memory {
    if finds == [] then mem else Noted(Record(mem, finds[..|finds| - 1]), finds[|finds| - 1])
  }

  // ----- Cycles -----

  /** What a cycle asks for, by what it finds. */
  lemma {:induction false} PlanByFind(cfg: Config, cg: string, groups: seq<GroupRuntime>, mem: Memory, now: int)
    requires Distinct(groups)
    ensures var plan := PolicyPlan(cfg, cg, groups, mem, now);
      plan.memory == Noted(mem, FindOf(cfg, cg, groups, now)) &&
      match FindOf(cfg, cg, groups, now)
      case NoSwitch => true
      case Waits(group, _, _, _) => plan.desired == map[group := DesiredPassive]
      case Stopped(_, target) => plan.desired == OthersPassive(groups, target)[target := DesiredActive]
      case Nobody(target) =>
        if mem.target == Some(target) then plan.desired == OthersPassive(groups, target)[target := DesiredActive]
        else plan == Nothing(mem)
  {
    hide First, CurrentActive, Target, OthersPassive, SwitchoverTimeout, DrainMemory, SwapFires, SwapPlan, Distinct;
  }

  /** Only such a cycle, or one on equal priorities, ever tells a group to be active. */
  lemma {:induction false} OnlyThese(cfg: Config, cg: string, groups: seq<GroupRuntime>, mem: Memory, now: int, name: string)
    requires Distinct(groups) && !AllSame(groups)
    requires var plan := PolicyPlan(cfg, cg, groups, mem, now).desired; name in plan && plan[name] == DesiredActive
    ensures var f := FindOf(cfg, cg, groups, now); (f.Stopped? && f.target == name) || (f == Nobody(name) && mem.target == Some(name))
  {
    hide First, CurrentActive, Target, SwitchoverTimeout, DrainMemory, SwapFires, SwapPlan, Distinct, ManagedNames;
  }

  lemma {:induction false} CycleFinds(cfg: Config, cg: string, w: World, now: int)
    ensures CycleOf(cfg, cg, w, now).memory == Noted(w.memory, FindOf(cfg, cg, Runtimes(w, cg), now))
  {
    hide Runtimes, PolicyPlan, FindOf, Noted, CycleOf;
    CycleMemory(cfg, cg, w, now);
    PlanByFind(cfg, cg, Runtimes(w, cg), w.memory, now);
  }

  // ----- Histories -----

  /** `seen[i]` is the world that cycle i reads, at time `at[i]`. Between two cycles anything may
      happen: reports, commands, new groups. Only the memory is the controller's own. */
  ghost predicate IsHistory(cfg: Config, cg: string, seen: seq<World>, at: seq<int>) {
    && |seen| == |at|
    && forall i, j | 0 <= i && j == i + 1 < |seen| :: seen[j].memory == CycleOf(cfg, cg, seen[i], at[i]).memory
  }

  ghost function Finds(cfg: Config, cg: string, seen: seq<World>, at: seq<int>): (finds: seq<Find>)
    requires |seen| == |at|
    ensures |finds| == |seen| && forall i :: 0 <= i < |seen| ==> finds[i] == FindOf(cfg, cg, Runtimes(seen[i], cg), at[i])
  {
    seq(|seen|, i requires 0 <= i < |seen| => FindOf(cfg, cg, Runtimes(seen[i], cg), at[i]))
  }

  lemma RunIsHistory(cfg: Config, cg: string, seen: seq<World>, at: seq<int>)
    requires IsRun(cfg, cg, seen, at)
    ensures IsHistory(cfg, cg, seen, at)
  {
    hide CycleOf;
  }

  /** The memory of the controller is the record of what its cycles found. */
  lemma {:induction false} MemoryIsRecord(cfg: Config, cg: string, seen: seq<World>, at: seq<int>, i: nat)
    requires IsHistory(cfg, cg, seen, at) && i < |seen|
    ensures seen[i].memory == Record(seen[0].memory, Finds(cfg, cg, seen, at)[..i])
  {
    hide CycleOf, Runtimes, FindOf, Noted;
    if i > 0 {
      MemoryIsRecord(cfg, cg, seen, at, i - 1);
      CycleFinds(cfg, cg, seen[i - 1], at[i - 1]);
      var finds := Finds(cfg, cg, seen, at);
      assert finds[..i][..i - 1] == finds[..i - 1] && finds[..i][i - 1] == finds[i - 1];
    }
  }

  lemma TargetIsVisible(cfg: Config, cg: string, w: World, now: int)
    ensures var f := FindOf(cfg, cg, Runtimes(w, cg), now); !f.NoSwitch? ==> f.target in Visible(w.docs)
  {
    hide Runtimes, SwapFires, CurrentActive, SwitchoverTimeout;
    var groups := Runtimes(w, cg);
    if Target(groups).Some? { assert groups[Target(groups).value] in groups; }
  }

  /** Exactly when a cycle that finds nobody in the way activates its target, whatever happened
      before: when the record of all finds so far names it. Otherwise the cycle asks for nothing. */
  lemma {:induction false} SwitchoverOutcome(cfg: Config, cg: string, seen: seq<World>, at: seq<int>, i: nat, target: string)
    requires IsHistory(cfg, cg, seen, at) && i < |seen| && Finds(cfg, cg, seen, at)[i] == Nobody(target)
    ensures var mem := Record(seen[0].memory, Finds(cfg, cg, seen, at)[..i]);
      var w' := CycleOf(cfg, cg, seen[i], at[i]);
      if mem.target == Some(target) then TakenOver(w', cg, target) && w'.memory == mem.(target := None)
      else PlanOf(cfg, cg, seen[i], at[i]) == Nothing(mem)
  {
    hide CycleOf, Runtimes, FindOf, TakenOver, OthersPassive, PolicyPlan, Visible;
    MemoryIsRecord(cfg, cg, seen, at, i);
    var w := seen[i];
    PlanByFind(cfg, cg, Runtimes(w, cg), w.memory, at[i]);
    CycleMemory(cfg, cg, w, at[i]);
    if w.memory.target == Some(target) {
      TargetIsVisible(cfg, cg, w, at[i]);
      TakeOver(cfg, cg, w, at[i], target);
    }
  }

  /** A cycle that finds an owner in the way that has stopped activates its target in any case. */
  lemma {:induction false} StoppedOutcome(cfg: Config, cg: string, w: World, now: int)
    requires FindOf(cfg, cg, Runtimes(w, cg), now).Stopped?
    ensures var f := FindOf(cfg, cg, Runtimes(w, cg), now);
      var w' := CycleOf(cfg, cg, w, now);
      TakenOver(w', cg, f.target) && w'.memory == Memory(w.memory.started - {f.group}, None)
  {
    hide CycleOf, Runtimes, FindOf, TakenOver, OthersPassive, PolicyPlan, Visible;
    PlanByFind(cfg, cg, Runtimes(w, cg), w.memory, now);
    CycleMemory(cfg, cg, w, now);
    TargetIsVisible(cfg, cg, w, now);
    TakeOver(cfg, cg, w, now, FindOf(cfg, cg, Runtimes(w, cg), now).target);
  }

  // ----- The same in terms of times and targets -----

  /** Since when a group has been in the way: a cycle that finds it there without a start on record
      starts the clock, one that is late stops it again, and so does a take-over from the group. */
  function StartOf(mem: Memory, finds: seq<Find>, group: string): Option<int> {
    if finds == [] then (if group in mem.started then Some(mem.started[group]) else None)
    else
      var start := StartOf(mem, finds[..|finds| - 1], group);
      match finds[|finds| - 1]
      case Waits(g, _, at, timeout) =>
        if g != group then start
        else if start.None? then Some(at)
        else if at - start.value > timeout then None
        else start
      case Stopped(g, _) => if g == group then None else start
      case _ => start
  }

  /** Cycle k starts the clock of the group in its way. */
  predicate Begins(mem: Memory, finds: seq<Find>, k: nat)
    requires k < |finds|
  {
    finds[k].Waits? && StartOf(mem, finds[..k], finds[k].group).None?
  }

  /** Cycle k finds the group in its way beyond its timeout. */
  predicate IsLate(mem: Memory, finds: seq<Find>, k: nat)
    requires k < |finds|
  {
    var f := finds[k];
    f.Waits? && var start := StartOf(mem, finds[..k], f.group); start.Some? && f.at - start.value > f.timeout
  }

  /** Cycle k puts an end to a record for this target. */
  predicate Disturbs(mem: Memory, finds: seq<Find>, k: nat, target: string)
    requires k < |finds|
  {
    || IsLate(mem, finds, k)
    || (Begins(mem, finds, k) && finds[k].target != target)
    || finds[k].Stopped? || finds[k] == Nobody(target)
  }

  /** Some cycle began a drain for this target, or one was on record for it at first, and no cycle
      since was late for any group, began a drain for another target, or activated a group. */
  predicate Named(mem: Memory, finds: seq<Find>, target: string) {
    || (mem.target == Some(target) && forall k :: 0 <= k < |finds| ==> !Disturbs(mem, finds, k, target))
    || exists j :: 0 <= j < |finds| && Begins(mem, finds, j) && finds[j].target == target &&
         forall k :: j < k < |finds| ==> !Disturbs(mem, finds, k, target)
  }

  lemma {:induction false} StartsOnRecord(mem: Memory, finds: seq<Find>, group: string)
    ensures var started := Record(mem, finds).started;
      StartOf(mem, finds, group) == if group in started then Some(started[group]) else None
  {
    if finds != [] { StartsOnRecord(mem, finds[..|finds| - 1], group); }
  }

  lemma OneMoreFind(mem: Memory, finds: seq<Find>, k: nat, target: string)
    requires k < |finds| - 1
    ensures Begins(mem, finds, k) == Begins(mem, finds[..|finds| - 1], k)
    ensures Disturbs(mem, finds, k, target) == Disturbs(mem, finds[..|finds| - 1], k, target)
  {
    var before := finds[..|finds| - 1];
    assert before[k] == finds[k] && before[..k] == finds[..k];
  }

  /** What the last find does to the record. */
  lemma {:induction false} LastFind(mem: Memory, finds: seq<Find>, target: string)
    requires finds != []
    ensures var m := |finds| - 1;
      Record(mem, finds).target == Some(target) <==>
        || (Begins(mem, finds, m) && finds[m].target == target)
        || (Record(mem, finds[..m]).target == Some(target) && !Disturbs(mem, finds, m, target))
  {
    hide StartOf;
    var m := |finds| - 1;
    if finds[m].Waits? { StartsOnRecord(mem, finds[..m], finds[m].group); }
  }

  lemma {:induction false} NamedLast(mem: Memory, finds: seq<Find>, target: string)
    requires finds != []
    ensures var m := |finds| - 1;
      Named(mem, finds, target) <==>
        || (Begins(mem, finds, m) && finds[m].target == target)
        || (Named(mem, finds[..m], target) && !Disturbs(mem, finds, m, target))
  {
    hide StartOf, Disturbs;
    var m := |finds| - 1;
    var before := finds[..m];
    forall k | 0 <= k < m
      ensures before[k] == finds[k]
      ensures Begins(mem, finds, k) == Begins(mem, before, k) && Disturbs(mem, finds, k, target) == Disturbs(mem, before, k, target)
    {
      OneMoreFind(mem, finds, k, target);
    }
    if Named(mem, before, target) && !Disturbs(mem, finds, m, target) {
      if !(mem.target == Some(target) && forall k :: 0 <= k < m ==> !Disturbs(mem, before, k, target)) {
        var j :| 0 <= j < m && Begins(mem, before, j) && before[j].target == target &&
          forall k :: j < k < m ==> !Disturbs(mem, before, k, target);
        assert Begins(mem, finds, j);
      }
    }
  }

  /** The record names a target exactly when the times and targets say so. */
  lemma {:induction false} RecordByTimes(mem: Memory, finds: seq<Find>, target: string)
    ensures Record(mem, finds).target == Some(target) <==> Named(mem, finds, target)
  {
    if finds != [] {
      RecordByTimes(mem, finds[..|finds| - 1], target);
      LastFind(mem, finds, target);
      NamedLast(mem, finds, target);
    }
  }

  /** Exactly when a cycle that finds nobody in the way activates its target, in those terms. */
  lemma {:induction false} SwitchoverByTimes(cfg: Config, cg: string, seen: seq<World>, at: seq<int>, i: nat, target: string)
    requires IsHistory(cfg, cg, seen, at) && i < |seen| && Finds(cfg, cg, seen, at)[i] == Nobody(target)
    ensures if Named(seen[0].memory, Finds(cfg, cg, seen, at)[..i], target)
      then TakenOver(CycleOf(cfg, cg, seen[i], at[i]), cg, target)
      else PlanOf(cfg, cg, seen[i], at[i]) == Nothing(seen[i].memory)
  {
    hide CycleOf, Runtimes, FindOf, TakenOver, PlanOf, Named, Record, Nothing;
    MemoryIsRecord(cfg, cg, seen, at, i);
    SwitchoverOutcome(cfg, cg, seen, at, i, target);
    RecordByTimes(seen[0].memory, Finds(cfg, cg, seen, at)[..i], target);
  }

  /** Exactly when a cycle of a history tells a group to be active, equal priorities apart: it finds a
      stopped owner in the way of that group, or nobody, and the history names the group. */
  lemma {:induction false} ActivatesExactly(cfg: Config, cg: string, seen: seq<World>, at: seq<int>, i: nat, name: string)
    requires IsHistory(cfg, cg, seen, at) && i < |seen| && !AllSame(Runtimes(seen[i], cg))
    ensures var plan := PlanOf(cfg, cg, seen[i], at[i]).desired;
      var finds := Finds(cfg, cg, seen, at);
      (name in plan && plan[name] == DesiredActive) <==>
        || (finds[i].Stopped? && finds[i].target == name)
        || (finds[i] == Nobody(name) && Named(seen[0].memory, finds[..i], name))
  {
    hide CycleOf, Runtimes, FindOf, OthersPassive, PolicyPlan, Named, Record, AllSame;
    var w := seen[i];
    MemoryIsRecord(cfg, cg, seen, at, i);
    RecordByTimes(seen[0].memory, Finds(cfg, cg, seen, at)[..i], name);
    PlanByFind(cfg, cg, Runtimes(w, cg), w.memory, at[i]);
    var plan := PlanOf(cfg, cg, w, at[i]).desired;
    if name in plan && plan[name] == DesiredActive {
      OnlyThese(cfg, cg, Runtimes(w, cg), w.memory, at[i], name);
    }
  }

  // ----- Drains that stay within their timeouts -----

  /** Nothing but waiting for groups in the way of one target, at least once; and no group is found in
      the way later than its timeout after the first time. */
  predicate InTime(finds: seq<Find>, target: string) {
    && (forall f <- finds :: f.NoSwitch? || (f.Waits? && f.target == target))
    && (exists f <- finds :: f.Waits?)
    && forall j, k :: 0 <= j < k < |finds| && finds[j].Waits? && finds[k].Waits? && finds[j].group == finds[k].group ==>
         finds[k].at - finds[j].at <= finds[k].timeout
  }

  /** When a group was first found in the way. */
  function FirstFound(finds: seq<Find>, group: string): (r: Option<int>)
    ensures r.Some? <==> exists f <- finds :: f.Waits? && f.group == group
    ensures r.Some? ==> exists k :: IsFirst(finds, group, k) && finds[k].at == r.value
  {
    if finds == [] then None
    else
      var m := |finds| - 1;
      var first := FirstFound(finds[..m], group);
      assert forall f <- finds :: f in finds[..m] || f == finds[m];
      assert forall k :: 0 <= k < m ==> finds[..m][k] == finds[k];
      if first.Some? then
        var k :| IsFirst(finds[..m], group, k) && finds[..m][k].at == first.value;
        assert IsFirst(finds, group, k);
        first
      else if finds[m].Waits? && finds[m].group == group then
        assert IsFirst(finds, group, m);
        Some(finds[m].at)
      else None
  }

  predicate IsFirst(finds: seq<Find>, group: string, k: int) {
    && 0 <= k < |finds| && finds[k].Waits? && finds[k].group == group
    && forall j :: 0 <= j < k ==> !(finds[j].Waits? && finds[j].group == group)
  }

  lemma {:induction false} InTimeStarts(finds: seq<Find>, target: string, group: string)
    requires forall f <- finds :: f.NoSwitch? || (f.Waits? && f.target == target)
    requires forall j, k :: 0 <= j < k < |finds| && finds[j].Waits? && finds[k].Waits? && finds[j].group == finds[k].group ==>
      finds[k].at - finds[j].at <= finds[k].timeout
    ensures StartOf(NO_MEMORY, finds, group) == FirstFound(finds, group)
  {
    if finds != [] {
      var m := |finds| - 1;
      var before := finds[..m];
      assert forall k :: 0 <= k < m ==> before[k] == finds[k];
      assert forall f <- before :: f in finds;
      assert finds[m] in finds;
      InTimeStarts(before, target, group);
      hide StartOf, FirstFound;
      FirstFoundMore(finds, group);
      StartMore(NO_MEMORY, finds, group);
      if FirstFound(before, group).Some? {
        var k :| IsFirst(before, group, k) && before[k].at == FirstFound(before, group).value;
      }
    }
  }

  lemma FirstFoundMore(finds: seq<Find>, group: string)
    requires finds != []
    ensures var m := |finds| - 1;
      FirstFound(finds, group) ==
        if FirstFound(finds[..m], group).Some? then FirstFound(finds[..m], group)
        else if finds[m].Waits? && finds[m].group == group then Some(finds[m].at) else None
  {}

  lemma StartMore(mem: Memory, finds: seq<Find>, group: string)
    requires finds != [] && (finds[|finds| - 1].NoSwitch? || finds[|finds| - 1].Waits?)
    ensures var m := |finds| - 1;
      var start := StartOf(mem, finds[..m], group);
      StartOf(mem, finds, group) ==
        if !(finds[m].Waits? && finds[m].group == group) then start
        else if start.None? then Some(finds[m].at)
        else if finds[m].at - start.value > finds[m].timeout then None else start
  {}

  lemma {:induction false} InTimeNamed(finds: seq<Find>, target: string)
    requires InTime(finds, target)
    ensures Named(NO_MEMORY, finds, target)
  {
    hide StartOf, FirstFound;
    var f :| f in finds && f.Waits?;
    var w :| 0 <= w < |finds| && finds[w] == f;
    FirstBegins(finds, target, w);
    var j :| 0 <= j < |finds| && Begins(NO_MEMORY, finds, j);
    assert finds[j] in finds;
    forall k | j < k < |finds| ensures !Disturbs(NO_MEMORY, finds, k, target) {
      NeverDisturbed(finds, target, k);
    }
  }

  lemma {:induction false} FirstBegins(finds: seq<Find>, target: string, w: nat)
    requires InTime(finds, target) && w < |finds| && finds[w].Waits?
    ensures exists j :: 0 <= j < |finds| && Begins(NO_MEMORY, finds, j)
    decreases w
  {
    hide StartOf;
    if j :| 0 <= j < w && finds[j].Waits? {
      FirstBegins(finds, target, j);
    } else {
      var before := finds[..w];
      assert forall k :: 0 <= k < w ==> before[k] == finds[k];
      assert forall x <- before :: x in finds;
      InTimeStarts(before, target, finds[w].group);
      assert Begins(NO_MEMORY, finds, w);
    }
  }

  lemma {:induction false} NeverDisturbed(finds: seq<Find>, target: string, k: nat)
    requires InTime(finds, target) && k < |finds|
    ensures !Disturbs(NO_MEMORY, finds, k, target)
  {
    hide StartOf;
    assert finds[k] in finds;
    if finds[k].Waits? {
      var before := finds[..k];
      assert forall j :: 0 <= j < k ==> before[j] == finds[j];
      assert forall x <- before :: x in finds;
      InTimeStarts(before, target, finds[k].group);
    }
  }

  /** Progress: from an empty memory, with any groups draining one after the other or together, each
      within its own timeout, and with swaps in between, the first cycle that finds nobody in the way
      of the one target activates it and tells every other managed group to be passive. The starts
      of the drains stay in memory. */
  lemma {:induction false} SwitchoverCompletes(cfg: Config, cg: string, seen: seq<World>, at: seq<int>, i: nat, target: string)
    requires IsHistory(cfg, cg, seen, at) && i < |seen| && seen[0].memory == NO_MEMORY
    requires Finds(cfg, cg, seen, at)[i] == Nobody(target) && InTime(Finds(cfg, cg, seen, at)[..i], target)
    ensures var w' := CycleOf(cfg, cg, seen[i], at[i]);
      && TakenOver(w', cg, target) && w'.memory.target == None
      && forall g :: FirstFound(Finds(cfg, cg, seen, at)[..i], g) ==
           if g in w'.memory.started then Some(w'.memory.started[g]) else None
  {
    hide CycleOf, Runtimes, FindOf, TakenOver, StartOf, FirstFound, Record, Named, Begins, Disturbs, PlanOf;
    var finds := Finds(cfg, cg, seen, at)[..i];
    SwitchoverOutcome(cfg, cg, seen, at, i, target);
    RecordByTimes(NO_MEMORY, finds, target);
    InTimeNamed(finds, target);
    forall g ensures FirstFound(finds, g) == StartOf(NO_MEMORY, finds, g) {
      InTimeStarts(finds, target, g);
      StartsOnRecord(NO_MEMORY, finds, g);
    }
    forall g ensures StartOf(NO_MEMORY, finds, g) ==
      if g in Record(NO_MEMORY, finds).started then Some(Record(NO_MEMORY, finds).started[g]) else None
    {
      StartsOnRecord(NO_MEMORY, finds, g);
    }
  }

  /** A drain that one cycle sees and the next one sees no more. A start left over from an earlier
      switchover of the same group strands the service, and so does a change of the target. */
  lemma {:induction false} ShortDrain(cfg: Config, cg: string, seen: seq<World>, at: seq<int>, target: string)
    requires IsHistory(cfg, cg, seen, at) && |seen| == 2
    requires Finds(cfg, cg, seen, at)[0].Waits? && Finds(cfg, cg, seen, at)[1] == Nobody(target)
    ensures var mem := seen[0].memory;
      var f := Finds(cfg, cg, seen, at)[0];
      if (if f.group !in mem.started then f.target == target
          else f.at - mem.started[f.group] <= f.timeout && mem.target == Some(target))
      then TakenOver(CycleOf(cfg, cg, seen[1], at[1]), cg, target)
      else PlanOf(cfg, cg, seen[1], at[1]) == Nothing(seen[1].memory)
  {
    hide CycleOf, Runtimes, FindOf, TakenOver, PlanOf;
    SwitchoverOutcome(cfg, cg, seen, at, 1, target);
    MemoryIsRecord(cfg, cg, seen, at, 1);
    var finds := Finds(cfg, cg, seen, at)[..1];
    assert finds == [Finds(cfg, cg, seen, at)[0]] && finds[..0] == [];
  }

  // ----- One group in the way of one target -----

  /** Cycles that all find the same group in the way of the same target. */
  function Drains(from: string, target: string, at: seq<int>, timeout: int): (finds: seq<Find>)
    ensures |finds| == |at| && forall i :: 0 <= i < |at| ==> finds[i] == Waits(from, target, at[i], timeout)
  {
    seq(|at|, i requires 0 <= i < |at| => Waits(from, target, at[i], timeout))
  }

  /** The first of the times that lies beyond the timeout, counted from a start. */
  function FirstLate(at: seq<int>, start: int, timeout: int): (r: Option<nat>)
    ensures r.None? ==> forall t <- at :: t - start <= timeout
    ensures r.Some? ==> r.value < |at| && at[r.value] - start > timeout && forall i :: 0 <= i < r.value ==> at[i] - start <= timeout
  {
    if at == [] then None
    else if at[0] - start > timeout then Some(0)
    else
      var rest := FirstLate(at[1..], start, timeout);
      assert forall t <- at :: t == at[0] || t in at[1..];
      if rest.None? then None else Some(rest.value + 1)
  }

  /** Draining cycles at these times, the first of which finds no start on record: the first one
      records it, the first late one drops it, and the one after that begins anew. */
  predicate LeavesRecord(at: seq<int>, timeout: int)
    decreases |at|
  {
    at != [] && match FirstLate(at[1..], at[0], timeout)
      case None => true
      case Some(k) => LeavesRecord(at[k + 2..], timeout)
  }

  /** Whether the drain is still on record for the target after draining cycles at these times. */
  predicate StaysOnRecord(mem: Memory, from: string, target: string, at: seq<int>, timeout: int) {
    if from !in mem.started then LeavesRecord(at, timeout)
    else match FirstLate(at, mem.started[from], timeout)
      case None => mem.target == Some(target)
      case Some(k) => LeavesRecord(at[k + 1..], timeout)
  }

  lemma {:induction false} RecordFirst(mem: Memory, finds: seq<Find>)
    requires finds != []
    ensures Record(mem, finds) == Record(Noted(mem, finds[0]), finds[1..])
    decreases |finds|
  {
    hide Noted;
    var last := |finds| - 1;
    if last == 0 {
      assert finds[..0] == [] && finds[1..] == [];
    } else {
      RecordFirst(mem, finds[..last]);
      assert finds[..last][1..] == finds[1..][..last - 1] && finds[1..][last - 1] == finds[last];
    }
  }

  lemma DrainsFirst(mem: Memory, from: string, target: string, at: seq<int>, timeout: int)
    requires at != []
    ensures Record(mem, Drains(from, target, at, timeout)) ==
      Record(DrainMemory(mem, from, target, at[0], timeout), Drains(from, target, at[1..], timeout))
  {
    RecordFirst(mem, Drains(from, target, at, timeout));
    assert Drains(from, target, at, timeout)[1..] == Drains(from, target, at[1..], timeout);
  }

  /** As long as no cycle is late nothing changes; the first late one clears the record. */
  lemma {:induction false} DrainsStarted(mem: Memory, from: string, target: string, at: seq<int>, timeout: int)
    requires from in mem.started
    ensures match FirstLate(at, mem.started[from], timeout)
      case None => Record(mem, Drains(from, target, at, timeout)) == mem
      case Some(k) => (
        Record(mem, Drains(from, target, at, timeout)) ==
        Record(Memory(mem.started - {from}, None), Drains(from, target, at[k + 1..], timeout)))
    decreases |at|
  {
    hide Record, Drains;
    if at != [] {
      DrainsFirst(mem, from, target, at, timeout);
      if at[0] - mem.started[from] <= timeout {
        DrainsStarted(mem, from, target, at[1..], timeout);
        match FirstLate(at[1..], mem.started[from], timeout)
        case None =>
        case Some(k) => assert at[1..][k + 1..] == at[k + 2..];
      }
    } else {
      NoDrains(mem, from, target, timeout);
    }
  }

  lemma NoDrains(mem: Memory, from: string, target: string, timeout: int)
    ensures Record(mem, Drains(from, target, [], timeout)) == mem
  {}

  lemma {:induction false} DrainsFresh(mem: Memory, from: string, target: string, at: seq<int>, timeout: int)
    requires from !in mem.started && (at != [] || mem.target != Some(target))
    ensures Record(mem, Drains(from, target, at, timeout)).target == Some(target) <==> LeavesRecord(at, timeout)
    decreases |at|
  {
    hide Record, Drains;
    if at != [] {
      DrainsFirst(mem, from, target, at, timeout);
      var begun := Memory(mem.started[from := at[0]], Some(target));
      DrainsStarted(begun, from, target, at[1..], timeout);
      match FirstLate(at[1..], at[0], timeout)
      case None =>
      case Some(k) =>
        assert at[1..][k + 1..] == at[k + 2..];
        DrainsFresh(Memory(begun.started - {from}, None), from, target, at[k + 2..], timeout);
    } else {
      NoDrains(mem, from, target, timeout);
    }
  }

  /** Whether the target is on record after such cycles, from their times and the record before. */
  lemma DrainsByTimes(mem: Memory, from: string, target: string, at: seq<int>, timeout: int)
    requires at != []
    ensures Record(mem, Drains(from, target, at, timeout)).target == Some(target) <==> StaysOnRecord(mem, from, target, at, timeout)
  {
    hide LeavesRecord, FirstLate, Record, Drains;
    if from !in mem.started {
      DrainsFresh(mem, from, target, at, timeout);
    } else {
      DrainsStarted(mem, from, target, at, timeout);
      match FirstLate(at, mem.started[from], timeout)
      case None =>
      case Some(k) => DrainsFresh(Memory(mem.started - {from}, None), from, target, at[k + 1..], timeout);
    }
  }

  predicate Within(at: seq<int>, timeout: int) {
    forall i, j :: 0 <= i < |at| && 0 <= j < |at| ==> at[i] - at[j] <= timeout
  }

  lemma WithinLeavesRecord(at: seq<int>, timeout: int)
    requires Within(at, timeout)
    ensures LeavesRecord(at, timeout) <==> at != []
  {
    if at != [] {
      assert forall i :: 0 <= i < |at[1..]| ==> at[1..][i] == at[i + 1];
    }
  }

  /** Where the cycles of the drain fit in one timeout: without a start on record it stays; with one
      that no cycle outlasts, iff that is for the target; and else iff some cycle other than the last
      outlasts it, so that one is left to begin anew. */
  lemma WithinStays(mem: Memory, from: string, target: string, at: seq<int>, timeout: int)
    requires at != [] && Within(at, timeout)
    ensures StaysOnRecord(mem, from, target, at, timeout) <==>
      || from !in mem.started
      || ((forall t <- at :: t - mem.started[from] <= timeout) && mem.target == Some(target))
      || (exists k :: 0 <= k < |at| - 1 && at[k] - mem.started[from] > timeout)
  {
    hide LeavesRecord;
    WithinLeavesRecord(at, timeout);
    if from in mem.started {
      var late := FirstLate(at, mem.started[from], timeout);
      assert forall k :: 0 <= k < |at| ==> at[k] in at;
      if late.Some? {
        var rest := at[late.value + 1..];
        assert forall i :: 0 <= i < |rest| ==> rest[i] == at[late.value + 1 + i];
        WithinLeavesRecord(rest, timeout);
      }
    }
  }

  /** Cycles that switch from `from`, the only owner at first, to `target`. All but the last cycle
      see `from` still running; the last one sees it passive or failed. No other group is draining. */
  ghost predicate IsSwitchover(cfg: Config, cg: string, seen: seq<World>, at: seq<int>, from: string, target: string) {
    && IsRun(cfg, cg, seen, at) && seen != [] && from != target
    && (forall w <- seen :: SwitchesTo(cfg, Runtimes(w, cg), target) && Quiet(Runtimes(w, cg), from))
    && (forall w <- seen :: from in Visible(w.docs))
    && (forall mg <- Visible(seen[0].docs) :: Rt(seen[0], cg, mg).Owner() <==> mg == from)
    && (forall i :: 0 <= i < |seen| - 1 ==> !Rt(seen[i], cg, from).Stopped())
    && Rt(seen[|seen| - 1], cg, from).Stopped()
  }

  /** What a cycle finds where one group alone is in the way. */
  lemma {:induction false} OneInTheWay(cfg: Config, cg: string, groups: seq<GroupRuntime>, target: string, now: int, current: GroupRuntime)
    requires Distinct(groups) && SwitchesTo(cfg, groups, target) && current in groups && current.name != target
    requires forall g <- groups | g.Owner() :: g == current
    requires Quiet(groups, current.name) && !current.actual.ActualOther?
    ensures FindOf(cfg, cg, groups, now) ==
      if current.Owner() || current.Draining() then
        if current.Stopped() then Stopped(current.name, target)
        else Waits(current.name, target, now, SwitchoverTimeout(cfg, cg, current.name))
      else Nobody(target)
  {
    hide First, CurrentActive, SwapFires, Target, SwitchoverTimeout, AllSame;
    CurrentActiveMeans(groups);
    if CurrentActive(groups).Some? {
      var c := groups[CurrentActive(groups).value];
      assert c in groups;
      if c.name == current.name { SameName(groups, c, current); }
    }
  }

  /** The situation before cycle i of a switchover, once its drain has begun. */
  ghost predicate Drained(cg: string, w: World, from: string) {
    && (forall mg <- Visible(w.docs) :: !Rt(w, cg, mg).Owner())
    && from in Visible(w.docs) && Rt(w, cg, from).desired == DesiredPassive
  }

  /** One cycle that sees `from` still running, and the reports that follow it. */
  lemma {:induction false} DrainCycle(cfg: Config, cg: string, w: World, now: int, next: World, from: string, target: string)
    requires SwitchesTo(cfg, Runtimes(w, cg), target) && Quiet(Runtimes(w, cg), from)
    requires from in Visible(w.docs) && from != target && !Rt(w, cg, from).Stopped()
    requires forall mg <- Visible(w.docs) :: Rt(w, cg, mg).Owner() ==> mg == from
    requires Rt(w, cg, from).Owner() || Rt(w, cg, from).desired == DesiredPassive
    requires OnlyReportsChange(CycleOf(cfg, cg, w, now), next)
    ensures FindOf(cfg, cg, Runtimes(w, cg), now) == Waits(from, target, now, SwitchoverTimeout(cfg, cg, from))
    ensures Drained(cg, next, from)
  {
    hide Runtimes, CycleOf, PolicyPlan, FindOf, GroupState, SwitchoverTimeout, RuntimeOf, SwitchesTo;
    var groups := Runtimes(w, cg);
    RuntimesAreRt(w, cg);
    StateIsKnown(w, cg, from);
    OneInTheWay(cfg, cg, groups, target, now, Rt(w, cg, from));
    PlanByFind(cfg, cg, groups, w.memory, now);
    CycleKeepsListing(cfg, cg, w, now);
    forall mg <- Visible(next.docs)
      ensures !Rt(next, cg, mg).Owner()
      ensures mg == from ==> Rt(next, cg, mg).desired == DesiredPassive
    {
      AfterCycle(cfg, cg, w, now, mg);
      DesiredPersists(cg, CycleOf(cfg, cg, w, now), next, mg);
    }
  }

  lemma {:induction false} DrainRun(cfg: Config, cg: string, seen: seq<World>, at: seq<int>, from: string, target: string, i: nat)
    requires IsSwitchover(cfg, cg, seen, at, from, target) && i < |seen| - 1
    ensures FindOf(cfg, cg, Runtimes(seen[i], cg), at[i]) == Waits(from, target, at[i], SwitchoverTimeout(cfg, cg, from))
    ensures Drained(cg, seen[i + 1], from)
  {
    hide Runtimes, CycleOf, SwitchesTo, Quiet, Visible, Rt, FindOf, SwitchoverTimeout;
    if i > 0 { DrainRun(cfg, cg, seen, at, from, target, i - 1); }
    assert seen[i] in seen;
    assert OnlyReportsChange(CycleOf(cfg, cg, seen[i], at[i]), seen[i + 1]);
    DrainCycle(cfg, cg, seen[i], at[i], seen[i + 1], from, target);
  }

  /** What the last cycle of a switchover finds. */
  lemma {:induction false} DrainEnd(cfg: Config, cg: string, w: World, now: int, from: string, target: string)
    requires SwitchesTo(cfg, Runtimes(w, cg), target) && Quiet(Runtimes(w, cg), from)
    requires from in Visible(w.docs) && from != target && Rt(w, cg, from).Stopped()
    requires forall mg <- Visible(w.docs) :: Rt(w, cg, mg).Owner() ==> mg == from
    ensures FindOf(cfg, cg, Runtimes(w, cg), now) ==
      if Rt(w, cg, from).Owner() then Stopped(from, target) else Nobody(target)
  {
    hide Runtimes, FindOf, GroupState, RuntimeOf, SwitchesTo;
    RuntimesAreRt(w, cg);
    StateIsKnown(w, cg, from);
    OneInTheWay(cfg, cg, Runtimes(w, cg), target, now, Rt(w, cg, from));
  }

  lemma {:induction false} DrainsFound(cfg: Config, cg: string, seen: seq<World>, at: seq<int>, from: string, target: string)
    requires IsSwitchover(cfg, cg, seen, at, from, target) && |seen| > 1
    ensures var n := |seen| - 1;
      && Finds(cfg, cg, seen, at)[..n] == Drains(from, target, at[..n], SwitchoverTimeout(cfg, cg, from))
      && Finds(cfg, cg, seen, at)[n] == Nobody(target)
  {
    hide Runtimes, CycleOf, SwitchesTo, Quiet, Visible, Rt, FindOf, SwitchoverTimeout, OnlyReportsChange;
    var n := |seen| - 1;
    var timeout := SwitchoverTimeout(cfg, cg, from);
    forall i | 0 <= i < n ensures Finds(cfg, cg, seen, at)[i] == Waits(from, target, at[i], timeout) {
      DrainRun(cfg, cg, seen, at, from, target, i);
    }
    DrainRun(cfg, cg, seen, at, from, target, n - 1);
    assert seen[n] in seen;
    DrainEnd(cfg, cg, seen[n], at[n], from, target);
  }

  /** For such a switchover the outcome depends on the times of its cycles, one timeout, and what was
      on record before it, in closed form. */
  lemma {:induction false} OneDrainByTimes(cfg: Config, cg: string, seen: seq<World>, at: seq<int>, from: string, target: string)
    requires IsSwitchover(cfg, cg, seen, at, from, target) && |seen| > 1
    ensures var n := |seen| - 1;
      if StaysOnRecord(seen[0].memory, from, target, at[..n], SwitchoverTimeout(cfg, cg, from))
      then TakenOver(CycleOf(cfg, cg, seen[n], at[n]), cg, target)
      else PlanOf(cfg, cg, seen[n], at[n]) == Nothing(seen[n].memory)
  {
    hide CycleOf, FindOf, TakenOver, PlanOf, Nothing, StaysOnRecord, Record, SwitchoverTimeout, Finds, Runtimes, SwitchesTo, Quiet, Visible, Rt;
    var n := |seen| - 1;
    RunIsHistory(cfg, cg, seen, at);
    DrainsFound(cfg, cg, seen, at, from, target);
    MemoryIsRecord(cfg, cg, seen, at, n);
    SwitchoverOutcome(cfg, cg, seen, at, n, target);
    DrainsByTimes(seen[0].memory, from, target, at[..n], SwitchoverTimeout(cfg, cg, from));
  }

  /** The shortest one with a drain. */
  lemma SwitchoverOfTwo(cfg: Config, cg: string, seen: seq<World>, at: seq<int>, from: string, target: string)
    requires |seen| == 2 && |at| == 2 && OnlyReportsChange(CycleOf(cfg, cg, seen[0], at[0]), seen[1]) && from != target
    requires Switching(cfg, cg, seen[0], from, target) && Switching(cfg, cg, seen[1], from, target)
    requires forall mg <- Visible(seen[0].docs) :: Rt(seen[0], cg, mg).Owner() <==> mg == from
    requires !Rt(seen[0], cg, from).Stopped() && Rt(seen[1], cg, from).Stopped()
    ensures IsSwitchover(cfg, cg, seen, at, from, target)
  {
    hide Runtimes, RuntimeOf, Rt, CycleOf, SwitchesTo, Quiet, OnlyReportsChange, Visible, IsRun;
    RunOfTwo(cfg, cg, seen, at);
    BothSwitch(cfg, cg, seen, from, target);
  }

  ghost predicate Switching(cfg: Config, cg: string, w: World, from: string, target: string) {
    SwitchesTo(cfg, Runtimes(w, cg), target) && Quiet(Runtimes(w, cg), from) && from in Visible(w.docs)
  }

  lemma BothSwitch(cfg: Config, cg: string, seen: seq<World>, from: string, target: string)
    requires |seen| == 2 && Switching(cfg, cg, seen[0], from, target) && Switching(cfg, cg, seen[1], from, target)
    ensures forall w <- seen :: Switching(cfg, cg, w, from, target)
  {
    hide Switching;
  }

  lemma RunOfTwo(cfg: Config, cg: string, seen: seq<World>, at: seq<int>)
    requires |seen| == 2 && |at| == 2 && OnlyReportsChange(CycleOf(cfg, cg, seen[0], at[0]), seen[1])
    ensures IsRun(cfg, cg, seen, at)
  {
    hide CycleOf, OnlyReportsChange;
  }
}
