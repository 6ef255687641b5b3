/** The leader and the workers together: where the assumption on reports comes from. */
module Composition {
  import opened Model
  import opened Aggregation
  import opened Policy
  import opened Cycle
  import opened Commands
  import opened Safety
  import opened CommandEffects
  import Runs
  import Worker

  /** A role that some node runs for a management group. */
  datatype Post = Post(mg: string, role: RoleKey)

  datatype Cluster = Cluster(world: World, workers: map<Post, Worker.State>)

  /** The check interval of each role, where it has a definition. */
  type Checks = Post -> Option<int>

  datatype Step =
    | Lead(lead: Runs.Step)                                // a cycle, a command, or reports that no worker makes
    | Work(post: Post, step: Worker.Step, at: int)         // anything a worker or an execution of it does
    | Start(post: Post)                                    // an agent comes up, or comes up again

  /** What a worker reads of the desired document of its group. */
  function ReadOrder(d: GroupDocs): Option<Worker.Order> {
    if d.desired.Decoded? then Some(Worker.Order(Worker.Text(d.desired.doc.state), d.desired.doc.managed)) else None
  }

  function Stored(d: GroupDocs, role: RoleKey, document: Worker.Document, at: int): GroupDocs {
    match document
    case Actual(state) => d.(roleActual := d.roleActual[role := Decoded(ActualDoc(state, at, ""))])
    case Health(status) => d.(roleHealth := d.roleHealth[role := Decoded(HealthDoc(status, ""))])
  }

  function Put(w: World, post: Post, document: Worker.Document, at: int): World
    requires post.mg in w.docs
  {
    w.(docs := w.docs[post.mg := Stored(w.docs[post.mg], post.role, document, at)])
  }

  /** The put of an execution whose context has not been cancelled. */
  predicate Puts(s: Worker.State, step: Worker.Step) {
    step.Write? && step.who < |s.executions| && !s.executions[step.who].cancelled
  }

  ghost predicate Next(cfg: Config, cg: string, checks: Checks, c: Cluster, s: Step, c': Cluster) {
    match s
    case Lead(step) =>
      && c'.workers == c.workers
      && (if step.Report? then Safety.Reports(c.world, c'.world) && QuietRoles(c.world, c'.world, cg)
          else Runs.Next(cfg, cg, c.world, step, c'.world))
    case Work(post, step, at) =>
      && post in c.workers && post.mg in c.world.docs && Worker.Enabled(c.workers[post], step)
      && (step.Tick? ==> step.read == ReadOrder(c.world.docs[post.mg]))
      && c'.workers == c.workers[post := Worker.After(c.workers[post], step, checks(post))]
      && c'.world == (if Puts(c.workers[post], step) then Put(c.world, post, step.document, at) else c.world)
    case Start(post) =>
      post.mg in Visible(c.world.docs) && c' == c.(workers := c.workers[post := Worker.START])
  }

  ghost predicate IsRun(cfg: Config, cg: string, checks: Checks, cs: seq<Cluster>, steps: seq<Step>) {
    |cs| == |steps| + 1 && forall i :: 0 <= i < |steps| ==> Next(cfg, cg, checks, cs[i], steps[i], cs[i + 1])
  }

  /** The leader's world is safe, every worker belongs to a group that bootstrap has set up, and each
      has kept to its protocol. */
  ghost predicate Sound(c: Cluster, cg: string) {
    && Safe(c.world, cg)
    && forall post <- c.workers :: post.mg in Visible(c.world.docs) &&
         Worker.Fresh(c.workers[post]) && Worker.Faithful(c.workers[post].written)
  }

  // ----- What has to hold when a worker writes -----

  /** No group that is to be passive has a busy role that it does not show. */
  ghost predicate NothingHidden(w: World, cg: string) {
    forall mg <- Visible(w.docs) | ReadDesired(w.docs[mg]).state == DesiredPassive ::
      !HidesActivity(w.registry, cg, mg, w.docs[mg])
  }

  /** A worker of a group that is to be passive has not got active on record any more. */
  predicate CaughtUp(c: Cluster, post: Post)
    requires post in c.workers && post.mg in c.world.docs
  {
    ReadDesired(c.world.docs[post.mg]).state == DesiredPassive ==> c.workers[post].last.desired != "active"
  }

  ghost predicate Guarded(c: Cluster, cg: string, s: Step) {
    match s
    case Lead(Execute(command)) => Runs.Guard(c.world, cg, command)
    case Lead(Report) => NothingHidden(c.world, cg)
    case Lead(Reconcile(_)) => true
    case Work(post, step, _) =>
      post in c.workers && post.mg in c.world.docs && Puts(c.workers[post], step) ==>
        CaughtUp(c, post) &&
        (ReadDesired(c.world.docs[post.mg]).state == DesiredPassive ==>
          !HidesActivity(c.world.registry, cg, post.mg, c.world.docs[post.mg]))
    case Start(_) => true
  }

  /** A put does not make its group live beside another one: the group is not to be passive, or would
      not be busy with the document in place, or no other group is live. */
  ghost predicate MayPut(w: World, cg: string, post: Post, document: Worker.Document, at: int)
    requires post.mg in w.docs
  {
    var d := w.docs[post.mg];
    !(ReadDesired(d).state == DesiredPassive && OtherLive(w, cg, {post.mg}) &&
      Busy(GroupState(w.registry, cg, post.mg, Stored(d, post.role, document, at)).state))
  }

  /** What exactly has to hold before a command or a put. */
  ghost predicate Allowed(c: Cluster, cg: string, s: Step) {
    match s
    case Lead(Execute(command)) => Runs.Guard(c.world, cg, command)
    case Lead(_) => true
    case Work(post, step, at) =>
      post in c.workers && post.mg in c.world.docs && Puts(c.workers[post], step) ==> MayPut(c.world, cg, post, step.document, at)
    case Start(_) => true
  }

  // ----- One put -----

  lemma {:induction false} PutKeeps(w: World, post: Post, document: Worker.Document, at: int)
    requires post.mg in Visible(w.docs)
    ensures var w' := Put(w, post, document, at);
      && Visible(w'.docs) == Visible(w.docs) && w'.registry == w.registry && w'.docs.Keys == w.docs.Keys
      && (forall mg <- w.docs :: w'.docs[mg].desired == w.docs[mg].desired && w'.docs[mg].config == w.docs[mg].config)
      && (forall mg <- w.docs | mg != post.mg :: w'.docs[mg] == w.docs[mg])
  {}

  /** What an execution of a worker that has caught up puts is not the start of activity. */
  lemma {:induction false} NoNewBusyRole(c: Cluster, post: Post, step: Worker.Step, at: int)
    requires post in c.workers && post.mg in c.world.docs && Puts(c.workers[post], step)
    requires Worker.Fresh(c.workers[post]) && Worker.Enabled(c.workers[post], step)
    requires CaughtUp(c, post) && ReadDesired(c.world.docs[post.mg]).state == DesiredPassive
    ensures forall k | BusyRole(Put(c.world, post, step.document, at).docs[post.mg], k) :: BusyRole(c.world.docs[post.mg], k)
  {
    hide Worker.MayWrite;
    var s := c.workers[post];
    var order := s.executions[step.who].order;
    assert order == s.last;
    Worker.WrittenStates(order, ActualActive);
    Worker.WrittenStates(order, ActualStarting);
  }

  lemma {:induction false} PutLeavesQuiet(c: Cluster, cg: string, post: Post, step: Worker.Step, at: int)
    requires post in c.workers && post.mg in Visible(c.world.docs) && Puts(c.workers[post], step)
    requires Worker.Fresh(c.workers[post]) && Worker.Enabled(c.workers[post], step)
    requires Guarded(c, cg, Work(post, step, at))
    ensures var w' := Put(c.world, post, step.document, at);
      post.mg in Visible(w'.docs) && (Live(Rt(w', cg, post.mg)) ==> Live(Rt(c.world, cg, post.mg)))
  {
    hide Worker.Fresh, Worker.Enabled, Worker.MayWrite, AggregateOf, GroupState, ReadPriority;
    var w, w' := c.world, Put(c.world, post, step.document, at);
    PutKeeps(w, post, step.document, at);
    if Live(Rt(w', cg, post.mg)) && !Rt(w', cg, post.mg).Owner() {
      NoNewBusyRole(c, post, step, at);
      BusyGroupHasBusyRole(w'.registry, cg, post.mg, w'.docs[post.mg]);
    }
  }

  /** Such a put keeps the leader's world safe. */
  lemma {:induction false} PutIsSafe(c: Cluster, cg: string, post: Post, step: Worker.Step, at: int)
    requires Safe(c.world, cg) && post in c.workers && post.mg in Visible(c.world.docs) && Puts(c.workers[post], step)
    requires Worker.Fresh(c.workers[post]) && Worker.Enabled(c.workers[post], step)
    requires Guarded(c, cg, Work(post, step, at))
    ensures Safe(Put(c.world, post, step.document, at), cg)
  {
    hide Worker.Fresh, Worker.Enabled, Worker.MayWrite, Guarded, GroupState, RuntimeOf, Rt, Live, Put, ReadPriority;
    var w, w' := c.world, Put(c.world, post, step.document, at);
    PutKeeps(w, post, step.document, at);
    PutLeavesQuiet(c, cg, post, step, at);
    OthersAsBefore(w, w', cg, post.mg);
    SameConfigs'(w, w');
  }

  lemma {:induction false} OthersAsBefore(w: World, w': World, cg: string, mg: string)
    requires Visible(w'.docs) == Visible(w.docs) && w'.registry == w.registry
    requires forall n <- w.docs | n != mg :: n in w'.docs && w'.docs[n] == w.docs[n]
    ensures forall n <- Visible(w.docs) | n != mg :: Rt(w', cg, n) == Rt(w, cg, n)
  {
    hide GroupState;
  }

  lemma {:induction false} SameConfigs'(w: World, w': World)
    requires ActivePassive(w) && Visible(w'.docs) == Visible(w.docs)
    requires forall mg <- Visible(w.docs) :: w'.docs[mg].config == w.docs[mg].config
    ensures ActivePassive(w')
  {
    hide Visible;
    SameConfigs(w, w');
  }

  /** Exactly when the put of a worker, caught up or not, keeps a safe world safe. */
  lemma {:induction false} PutExactly(w: World, cg: string, post: Post, document: Worker.Document, at: int)
    requires Safe(w, cg) && post.mg in Visible(w.docs)
    ensures Safe(Put(w, post, document, at), cg) <==> MayPut(w, cg, post, document, at)
  {
    hide GroupState, RuntimeOf, Rt, Live, Put, ReadPriority, OtherLive, MayPut;
    var w' := Put(w, post, document, at);
    PutKeeps(w, post, document, at);
    OthersAsBefore(w, w', cg, post.mg);
    SameConfigs'(w, w');
    assert Visible(w'.docs) == Visible(w.docs) + {post.mg};
    OneGroupChanged(w, w', cg, post.mg);
    LiveAfterPut(w, cg, post, document, at);
  }

  lemma {:induction false} LiveAfterPut(w: World, cg: string, post: Post, document: Worker.Document, at: int)
    requires Safe(w, cg) && post.mg in Visible(w.docs)
    ensures post.mg in Visible(Put(w, post, document, at).docs)
    ensures Live(Rt(Put(w, post, document, at), cg, post.mg)) && OtherLive(w, cg, {post.mg}) <==> !MayPut(w, cg, post, document, at)
  {
    hide GroupState, ReadPriority;
    if ReadDesired(w.docs[post.mg]) == DesiredDoc(DesiredActive, true) {
      assert Live(Rt(w, cg, post.mg));
    }
  }

  // ----- One step -----

  lemma {:induction false} LeadKeepsSound(cfg: Config, cg: string, checks: Checks, c: Cluster, step: Runs.Step, c': Cluster)
    requires Sound(c, cg) && Next(cfg, cg, checks, c, Lead(step), c') && Guarded(c, cg, Lead(step))
    ensures Sound(c', cg)
  {
    hide Safe, CycleOf, Runs.Executed, Runs.Guard, Safety.Reports, QuietRoles, NothingHidden, Worker.Fresh, Worker.Faithful, Visible;
    match step
    case Report =>
      assert NoFreshActivity(c.world, c'.world, cg) by { FromQuietRoles(c.world, c'.world, cg); }
      ReportIsSafe(cg, c.world, c'.world);
      ReportKeepsVisible(c.world, c'.world);
    case Reconcile(now) =>
      Runs.StepIsSafe(cfg, cg, c.world, step, c'.world);
      CycleKeepsListing(cfg, cg, c.world, now);
    case Execute(command) =>
      Runs.StepIsSafe(cfg, cg, c.world, step, c'.world);
      CommandKeepsVisible(c.world, command);
  }

  lemma FromQuietRoles(w: World, w': World, cg: string)
    requires QuietRoles(w, w', cg) && NothingHidden(w, cg)
    ensures NoFreshActivity(w, w', cg)
  {
    hide HidesActivity, QuietRoles, NoFreshActivity;
    QuietWorkersSuffice(w, w', cg);
  }

  lemma ReportKeepsVisible(w: World, w': World)
    requires Safety.Reports(w, w')
    ensures Visible(w.docs) <= Visible(w'.docs)
  {}

  lemma {:induction false} CommandKeepsVisible(w: World, c: Runs.Command)
    ensures Visible(w.docs) <= Visible(Runs.Executed(w.docs, c).docs)
  {
    hide IsSystemKey, ExecPromote, ExecDemote, Replacements, Best, NoActiveGroup, Promotable, Replaces;
    match c
    case Promote(mg) =>
      if Promotable(w.docs, mg) { PromoteLeaves(w.docs, mg); } else { NotPromoted(w.docs, mg); }
    case Demote(mg) =>
      if Replaces(w.docs, mg) { DemoteLeaves(w.docs, mg); } else { NotReplaced(w.docs, mg); }
    case _ =>
  }

  lemma NotPromoted(docs: Groups, mg: string)
    requires !Promotable(docs, mg)
    ensures ExecPromote(docs, mg).docs == docs
  {}

  lemma NotReplaced(docs: Groups, mg: string)
    requires !Replaces(docs, mg)
    ensures ExecDemote(docs, mg).docs in [docs, WriteDesired(docs, mg, DesiredPassive, true)]
  {}

  lemma {:induction false} WorkKeepsSound(cfg: Config, cg: string, checks: Checks, c: Cluster, post: Post, step: Worker.Step, at: int, c': Cluster)
    requires Sound(c, cg) && Next(cfg, cg, checks, c, Work(post, step, at), c') && Guarded(c, cg, Work(post, step, at))
    ensures Sound(c', cg)
  {
    hide Safe, Worker.Fresh, Worker.Faithful, Worker.Enabled, Worker.After, Guarded, Visible;
    Worker.StepKeepsFresh(c.workers[post], step, checks(post));
    if Puts(c.workers[post], step) {
      PutIsSafe(c, cg, post, step, at);
      PutKeeps(c.world, post, step.document, at);
    }
  }

  lemma {:induction false} StartKeepsSound(c: Cluster, cg: string, post: Post)
    requires Sound(c, cg) && post.mg in Visible(c.world.docs)
    ensures Sound(c.(workers := c.workers[post := Worker.START]), cg)
  {
    hide Safe, Worker.Fresh, Worker.Faithful, Visible;
    Worker.StartIsFresh();
  }

  /** A step keeps a sound cluster sound exactly when it is allowed. */
  lemma {:induction false} StepExactly(cfg: Config, cg: string, checks: Checks, c: Cluster, s: Step, c': Cluster)
    requires Sound(c, cg) && Next(cfg, cg, checks, c, s, c')
    requires s == Lead(Runs.Report) ==> NothingHidden(c.world, cg)
    ensures Sound(c', cg) <==> Allowed(c, cg, s)
  {
    match s
    case Lead(step) => LeadExactly(cfg, cg, checks, c, step, c');
    case Work(post, step, at) => WorkExactly(cfg, cg, checks, c, post, step, at, c');
    case Start(post) =>
      hide *;
      StartStep(cfg, cg, checks, c, post, c');
  }

  lemma {:induction false} StartStep(cfg: Config, cg: string, checks: Checks, c: Cluster, post: Post, c': Cluster)
    requires Sound(c, cg) && Next(cfg, cg, checks, c, Start(post), c')
    ensures Sound(c', cg) && Allowed(c, cg, Start(post))
  {
    hide Sound;
    StartKeepsSound(c, cg, post);
  }

  lemma {:induction false} LeadExactly(cfg: Config, cg: string, checks: Checks, c: Cluster, step: Runs.Step, c': Cluster)
    requires Sound(c, cg) && Next(cfg, cg, checks, c, Lead(step), c')
    requires step.Report? ==> NothingHidden(c.world, cg)
    ensures Sound(c', cg) <==> Allowed(c, cg, Lead(step))
  {
    hide Safe, CycleOf, Runs.Executed, Runs.Guard, Safety.Reports, QuietRoles, NothingHidden, Worker.Fresh, Worker.Faithful, Visible;
    if step.Execute? {
      Runs.StepIsSafe(cfg, cg, c.world, step, c'.world);
      CommandKeepsVisible(c.world, step.command);
    } else {
      LeadKeepsSound(cfg, cg, checks, c, step, c');
    }
  }

  lemma {:induction false} WorkExactly(cfg: Config, cg: string, checks: Checks, c: Cluster, post: Post, step: Worker.Step, at: int, c': Cluster)
    requires Sound(c, cg) && Next(cfg, cg, checks, c, Work(post, step, at), c')
    ensures Sound(c', cg) <==> Allowed(c, cg, Work(post, step, at))
  {
    hide Safe, Worker.Fresh, Worker.Faithful, Worker.Enabled, Worker.After, MayPut, Visible, Put;
    Worker.StepKeepsFresh(c.workers[post], step, checks(post));
    if Puts(c.workers[post], step) {
      PutExactly(c.world, cg, post, step.document, at);
      PutKeeps(c.world, post, step.document, at);
    }
  }

  // ----- Whole runs -----

  /** The leader and all workers, in any interleaving: there is never more than one live group, if
      commands are guarded, no worker writes for a group that is to be passive before it has read so,
      and no such group hides activity when its roles are reported. */
  lemma {:induction false} NeverTwoLive(cfg: Config, cg: string, checks: Checks, cs: seq<Cluster>, steps: seq<Step>, i: nat)
    requires IsRun(cfg, cg, checks, cs, steps) && i < |cs| && Sound(cs[0], cg)
    requires forall j :: 0 <= j < i ==> Guarded(cs[j], cg, steps[j])
    ensures Sound(cs[i], cg)
  {
    hide Sound, Next, Guarded;
    if i > 0 {
      NeverTwoLive(cfg, cg, checks, cs, steps, i - 1);
      match steps[i - 1]
      case Lead(step) => LeadKeepsSound(cfg, cg, checks, cs[i - 1], step, cs[i]);
      case Work(post, step, at) => WorkKeepsSound(cfg, cg, checks, cs[i - 1], post, step, at, cs[i]);
      case Start(post) => StartStep(cfg, cg, checks, cs[i - 1], post, cs[i]);
    }
  }

  /** What reports that no worker makes are assumed to meet: no group that is to be passive hides activity. */
  ghost predicate QuietReports(cs: seq<Cluster>, cg: string, steps: seq<Step>)
    requires |cs| == |steps| + 1
  {
    forall j :: 0 <= j < |steps| && steps[j] == Lead(Runs.Report) ==> NothingHidden(cs[j].world, cg)
  }

  lemma {:induction false} SoundWhileAllowed(cfg: Config, cg: string, checks: Checks, cs: seq<Cluster>, steps: seq<Step>, i: nat)
    requires IsRun(cfg, cg, checks, cs, steps) && i < |cs| && Sound(cs[0], cg) && QuietReports(cs, cg, steps)
    requires forall j :: 0 <= j < i ==> Allowed(cs[j], cg, steps[j])
    ensures Sound(cs[i], cg)
  {
    hide Sound, Next, Allowed, NothingHidden;
    if i > 0 {
      SoundWhileAllowed(cfg, cg, checks, cs, steps, i - 1);
      StepExactly(cfg, cg, checks, cs[i - 1], steps[i - 1], cs[i]);
    }
  }

  /** A run of leader and workers stays sound, and so never has two live groups, exactly when every
      command and every put in it is allowed at its moment. */
  lemma {:induction false} SoundExactly(cfg: Config, cg: string, checks: Checks, cs: seq<Cluster>, steps: seq<Step>)
    requires IsRun(cfg, cg, checks, cs, steps) && Sound(cs[0], cg) && QuietReports(cs, cg, steps)
    ensures (forall i :: 0 <= i < |cs| ==> Sound(cs[i], cg)) <==> (forall j :: 0 <= j < |steps| ==> Allowed(cs[j], cg, steps[j]))
  {
    hide Sound, Next, Allowed, NothingHidden;
    if forall i :: 0 <= i < |cs| ==> Sound(cs[i], cg) {
      forall j | 0 <= j < |steps| ensures Allowed(cs[j], cg, steps[j]) {
        StepExactly(cfg, cg, checks, cs[j], steps[j], cs[j + 1]);
      }
    }
    if forall j :: 0 <= j < |steps| ==> Allowed(cs[j], cg, steps[j]) {
      forall i | 0 <= i < |cs| ensures Sound(cs[i], cg) { SoundWhileAllowed(cfg, cg, checks, cs, steps, i); }
    }
  }
}
