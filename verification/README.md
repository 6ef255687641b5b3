# A verified model of cluster-tumbler

cluster-tumbler runs one agent on every node of a cluster. Agents run scripts that start, stop and
probe roles, and keep what they see in etcd. The leader aggregates these reports per management
group, decides which group of a cluster group is to be active, and carries out the commands that an
API has queued. This project models the logic of that system in Dafny and proves how it behaves over
whole runs.

## The parts

| file | models |
|---|---|
| `Model`, `Order` | documents, states, names in listing order |
| `Aggregation`, `Policy`, `Cycle` | the rule of one reconcile cycle as a function of what it reads |
| `Etcd`, `Controller` | the controller as it runs: loops, memory across cycles, documents written one by one; proved equal to that function |
| `Safety`, `Progress`, `Stabilisation`, `Unmanaged` | cycles and runs of cycles against arbitrary reports |
| `Switchover` | what a cycle activates, over whole histories of cycles |
| `Runs` | runs of cycles, commands and reports in any order |
| `Composition` | the leader and all workers as one system |
| `SwapAlgebra`, `Failover`, `Levelling` | the priority swap of automatic failover |
| `Commands`, `Executor`, `CommandEffects`, `Admission` | the commands, the consumer that executes them, what they do to the cluster, and the checks of the API before they are queued |
| `CommandQueue` | the life of a command: one consumer, many clients, writes that may fail |
| `Paths`, `Keys`, `Tree`, `Store`, `Refinement` | the key schema, and the mutable tree that stands for etcd's flat map |
| `StateView`, `EndToEnd` | the view of the API, decoded from the tree |
| `Converge`, `Worker` | the convergence loop of a role, and the worker that restarts it |
| `Scenarios`, `RunScenarios` | concrete inputs and runs on which the code departs from what is expected, and ones that the theorems about runs apply to |

Time is an integer number of nanoseconds. A document is missing, undecodable, or decoded. Role scripts, the
clock, the order in which a map is visited, what clients do meanwhile, and whether etcd accepts a write
are arbitrary: what is proved holds for all of them.

A group is *live* if the controller owns it (managed, desired=active) or if it has been told to be
passive and is still seen active or starting. A world is *safe* if at most one group is live, every
listed group has a config that decodes, the priorities are not all equal, and every desired state is
active or passive.

`Runs` proves that a run of cycles, commands and reports stays safe exactly when each command meets its
guard at the moment it is executed. Every guard can be checked before the command; cycles need none.
What a command may not do is stated per command in `CommandEffects` and in `Runs.Guard`: in short, it
must not make a second group live, must not list a group without a config (a disable of an unknown
name does), and must not leave only equal priorities. Reports may change role documents and
registrations at will and add groups with a config; the one assumption about them is that a group that
is to be passive does not newly start to be seen active or starting.

`Composition` runs the leader and the workers together. Such a run stays safe exactly when each command
and each put of a worker is allowed at its moment, which can be told before the put; a worker that has
read passive before it writes, for a group that hides no busy role behind a failed or stopping one, is
always allowed. What is left of the assumption concerns reports that no worker makes, as when a lease
runs out: at that moment no group that is to be passive hides a busy role.

`Switchover` follows the memory of the controller over whole histories of cycles, whatever happens
between them. It tells exactly which group each cycle activates, from what the cycles found before: the
group in the way, the target, the time, and the timeout.

## Where the code departs from its documentation, or from what one would expect

The model follows the code. Each of these is a lemma with the exact condition or the family of inputs
it happens on; `Scenarios` and `RunScenarios` have concrete inputs for most of them.

- A disable is queued and executed for any name. One that nobody has configured becomes a listed group
  without a config, at the default priority and available. A swap cannot raise it, so the next failure
  of the top group can leave all priorities equal, and then two groups are made active
  (`Runs.DisableKeepsSafe`, `RunScenarios.DisableMakesBothActive`).
- The controller takes the report of passive for the end of a drain, also from a group that it made
  active a moment ago and whose worker has yet to start it. If another group becomes the better one in
  that moment, it is activated at once, and the late worker then writes starting: two live groups
  without any command (`Composition.PutExactly`, `RunScenarios.LateWorkerMakesTwoLive`).
- A group with managed=false is said never to be changed by the controller, and to be skipped. It is
  aggregated like the others; and a cycle that finds no owner takes the first group that is to be
  passive and reports otherwise for the owner, managed or not, and puts it under management
  (`Unmanaged.UnmanagedChanged`). Unmanaged groups also take part in the priority swap.
- A demotion activates the replacement at once, without waiting for the demoted group
  (`CommandEffects.DemoteAndLiveness`).
- Enable makes a second owner where the disabled group was to be active, and force_passive adds a group
  that is still running to the live ones (`CommandEffects.EnableAndLiveness`,
  `CommandEffects.ForcePassiveAndLiveness`).
- Promotion activates its group at once if nobody owns the service, though another group may still
  be draining (`CommandEffects.PromoteAndLiveness`); promoting the sole owner tells it to be passive
  and leaves no owner (`CommandEffects.PromoteUnseatsOwner`).
- A switchover is carried through only for the target that was on record when its drain began. Nobody
  takes over, though a group is available, if the successor fails during the drain, if a better group
  recovers meanwhile, or if any other group that is to be passive outlasts its own timeout, which drops
  the record of the whole switchover (`Switchover.SwitchoverByTimes`, `Switchover.ActivatesExactly`,
  `Progress.StrandedForever`).
- The start of a drain stays on record when the drain ends with nobody owning the service. A later
  drain of the same group then sets no new target, and if it ends by the next cycle nobody takes
  over (`Switchover.ShortDrain`).
- Automatic failover takes its turn without any effect, cycle after cycle, when an available group
  shares the top priority with a failed managed one (`Failover.SharedTopNeverFailsOver`,
  `Failover.FailoverExactly`).
- A priority cannot be written where the config does not decode. A swap can then leave all
  priorities equal; and once no group at the top is failed any more, a cycle activates every managed
  group (`Levelling.SwapLevels`, `Levelling.LevelActivatesAll`).
- The store drops a whole subtree where etcd deletes one key, and keeps interior nodes that etcd
  does not have (`Refinement.DeleteAgrees`, `Refinement.NodesAfter`).
- The watch for commands starts after the revision that the store has reached when the startup drain
  is over. A command announced while the drain went on is left in the queue
  (`CommandQueue.Overlooked`, `CommandQueue.LeftPending`).

## Model

| member | source | states |
|---|---|---|
| Aggregation.GroupState | internal/controller/controller.go:142-280 | health is failed exactly with state failed, warning exactly with starting or stopping; the state is never an unknown one |
| Aggregation.ExpectedRoleStates | internal/controller/controller.go:399-445 | lists exactly the (node, role) pairs that some decodable registration names for the group; an empty node name falls back to the registry key |
| Aggregation.MissingExpectedRoleStates | internal/controller/controller.go:354-396 | exactly the expected pairs without both state and health stored; some are missing iff the agent counts as lost |
| Aggregation.AggregateRoles | internal/controller/controller.go:172-280 | whatever the order of visiting, the flags and latest times give the declarative rule: lost or any failed, else the later of starting and stopping, else all active, mixed or passive |
| Aggregation.ActiveMeansAllActive | internal/controller/controller.go:168-280 | a group is active iff, when managed, every expected pair reports, some role is active, and no decodable document is passive, starting, stopping or failed |
| Aggregation.LostMeans | internal/controller/controller.go:354-445 | an agent is lost iff some decodable registration has a membership of just this group with a role whose state or health document is not stored |
| Aggregation.FailedMeans | internal/controller/controller.go:172-280 | failed iff an expected role of a managed group is missing, or a decodable document is failed, or some are active and some passive with none starting or stopping |
| Aggregation.StartingMeans | internal/controller/controller.go:232-266 | starting iff nothing is lost or failed, some role is starting, and, if any is stopping, some starting report is later than the zero time and than every stopping one |
| Aggregation.StoppingMeans | internal/controller/controller.go:232-266 | stopping iff nothing is lost or failed, some role is stopping, and for every starting report later than the zero time some stopping report is at least as late |
| Aggregation.PassiveMeans | internal/controller/controller.go:168-280 | passive iff nothing is lost or failed and no role is active, starting or stopping |
| Aggregation.DetailsMean | internal/controller/controller.go:172-280 | which text goes with it: one text per cause, agent lost exactly where an expected role of a managed group is missing, mixed exactly where a group fails without any loss or failed role |
| Aggregation.ManagingOnlyFails | internal/controller/controller.go:172-190 | taking a group under management leaves its aggregated state as it is or makes it failed |
| Policy.CurrentActive | internal/controller/controller.go:485-504 | the owner of the service, if any, is one of the groups |
| Policy.CurrentActiveMeans | internal/controller/controller.go:485-504 | it is a managed desired-active group; failing any, a group to be passive that reports otherwise; none only if there is neither |
| Policy.Target | internal/controller/controller.go:608-623 | none iff no managed group is available; else an available managed group of least priority, the first listed among equals |
| Policy.SwapPlanAt | internal/controller/controller.go:740-762 | a group gets a new priority iff it is an unavailable one at the top, which gets the next best priority, or an available one at the next best, which gets the top |
| Policy.OthersPassiveAt | internal/controller/controller.go:577-587 | exactly the managed groups but the target are told to be passive |
| Policy.LongestRole | internal/controller/controller.go:637-650 | the least bound of check + converge + exec over the listed roles with a definition, and attained unless 0 |
| Cycle.Runtimes | internal/controller/controller.go:100-130 | one entry per listed group that is not a system key, all names distinct, each aggregated from its own documents |
| Cycle.GroupsHandled | internal/controller/controller.go:100-139 | a cycle handles exactly the listed groups outside the six reserved names, once each and in the order of their names |
| Cycle.DocumentsRead | internal/controller/controller.go:142-170 | how the documents are read: managed iff the desired document decodes and says so, passive where there is none, priority 1000 unless the config gives a positive one |
| Cycle.CycleKeepsListing | internal/controller/controller.go:88-139 | a cycle neither adds nor removes a group |
| Cycle.AfterCycle | internal/controller/controller.go:88-139 | what the next cycle reads: the desired state and priority of the plan, managed if it was told anything, the aggregated state unchanged or failed where management begins |
| Controller.Controller.ReconcileManagementGroup | internal/controller/controller.go:142-333 | returns the group as aggregated, and writes state and health documents exactly where state or details changed |
| Controller.Controller.FindTarget | internal/controller/controller.go:608-623 | the loop finds the target of the policy: none iff no managed group has neither failed health nor failed state; else the first listed of the least priority among these |
| Controller.Controller.AllSamePriority | internal/controller/controller.go:593-604 | true iff all priorities are equal |
| Controller.Controller.FindCurrentActive | internal/controller/controller.go:489-504 | the two scans: the first managed group that is to be active; only where there is none, the first that is to be passive and reports active, stopping or starting |
| Controller.Controller.SwitchoverTimeout | internal/controller/controller.go:627-655 | at least check + converge + exec of every listed role with a definition, and that sum of one of them; 30 s exactly where no such sum is positive |
| Controller.Controller.WriteDesiredIfChanged | internal/controller/controller.go:767-804 | the document holds the state under management afterwards; nothing is put if it did already |
| Controller.Controller.WritePriority | internal/controller/controller.go:658-698 | the config holds the priority afterwards if it decodes; otherwise nothing is put |
| Controller.Controller.SwapLevels | internal/controller/controller.go:703-740 | a swap is due iff some managed group that has failed has a priority no larger than any other group's, and some group has not failed; between the least priority of all and the least of the groups that have not failed |
| Controller.Controller.HandleAutoFailover | internal/controller/controller.go:703-765 | true iff such a swap is due; then the failed groups of the least priority get the least one of the others and the other way round, if their configs decode, and nothing else is written |
| Controller.Controller.Switch | internal/controller/controller.go:485-590 | the documents and the memory become those of the two-phase switch plan |
| Controller.Controller.ApplyPriorityPolicy | internal/controller/controller.go:450-590 | the documents and the memory become those of the policy; other cluster groups keep theirs |
| Controller.Controller.Reconcile | internal/controller/controller.go:88-139 | every configured cluster group, in any order, goes through exactly one cycle if the store is ready; nothing else changes; nothing is put where nothing changes |
| Safety.PlanKeepsOneLive | internal/controller/controller.go:450-590 | carried out on one reading of the groups, a plan leaves at most one live group if there was at most one |
| Safety.SwapKeepsDifferent | internal/controller/controller.go:740-762 | a swap never makes all priorities equal as long as all of them are written |
| Safety.CycleIsSafe | internal/controller/controller.go:88-139 | a cycle keeps: at most one live group, priorities not all equal, known desired states |
| Safety.ReportIsSafe | internal/controller/controller.go:142-280 | so does a report under the assumption on reports |
| Safety.PassiveHidesNothing | internal/controller/controller.go:200-280 | a group that has an active or starting role and does not show it is failed or stopping, never passive |
| Safety.QuietWorkersSuffice | internal/roles/manager.go:170-230 | if no role of a group that is to be passive starts to be active or starting, then no such group does, unless it was hiding activity |
| CommandEffects.DisableAndLiveness | internal/controller/commands.go:202-211 | exactly when a disable keeps at most one group live: it may uncover activity that a lost agent had covered |
| Runs.WriteKeepsSafe | internal/controller/commands.go:371-382 | writing one desired document keeps a safe world safe iff the group is known or has a config, and it does not become a second live one |
| Runs.DisableKeepsSafe | internal/controller/commands.go:202-211 | a disable of any name keeps a safe world safe iff the name is listed, reserved, or configured, and no activity is uncovered beside another live group |
| Runs.ExchangeKeepsDifferent | internal/controller/commands.go:181-187 | two listed groups that exchange priorities never make all priorities equal, so that this part of a guard only matters below reserved names |
| Runs.CommandKeepsSafe | internal/controller/commands.go:84-127 | each of the five commands, on any name and whether it fails or not, keeps a safe world safe iff its guard holds |
| Runs.NeverTwoLive | internal/controller/controller.go:450-590 | in every run of cycles (both failover modes), guarded commands and reports, at any times and in any order, there is never more than one live group, given the assumption on reports and a safe start |
| Runs.SafeExactly | internal/controller/controller.go:450-590 | such a run stays safe throughout iff the guard of every command in it holds |
| Composition.PutExactly | internal/roles/manager.go:325-404 | a put of any worker keeps a safe world safe iff, before it, the group is not to be passive, or no other group is live, or the group would not be busy with the document in place |
| Composition.PutIsSafe | internal/roles/manager.go:170-230 | a put of a worker that has read passive, for a group that hides no activity, keeps a safe world safe |
| Composition.NeverTwoLive | internal/roles/manager.go:170-230 | leader and workers in any interleaving, agents coming up afresh included: never more than one live group, if commands are guarded and, for groups that are to be passive, workers have caught up before they write and nothing is hidden |
| Composition.StepExactly | internal/roles/manager.go:170-230 | one step of leader or worker keeps a sound cluster sound iff it is allowed; only commands and puts may not be |
| Composition.SoundExactly | internal/roles/manager.go:170-230 | a run of leader and workers stays sound throughout iff every command and every put in it is allowed at its moment |
| Progress.HandOver | internal/controller/controller.go:522-587 | with one group in the way, a cycle tells it to stop, and only that, until it is seen passive or failed; then it activates the target |
| Progress.Vacant | internal/controller/controller.go:563-587 | with nobody in the way, a cycle activates the target iff a drain is on record for it, else it does nothing |
| Switchover.PlanByFind | internal/controller/controller.go:455-590 | what a cycle asks for and remembers follows from what it finds: no switch to make, a group still running in the way, a stopped owner, or nobody |
| Switchover.FindMeans | internal/controller/controller.go:485-557 | what is in the way: a managed group that is to be active, or where there is none one that is to be passive and reports active, starting or stopping; it is waited for until it reports passive or failed, for a target that is managed and has not failed |
| Switchover.MemoryIsRecord | internal/controller/controller.go:538-571 | over any history of cycles, with anything happening between them, the memory is the record of what they found |
| Switchover.SwitchoverOutcome | internal/controller/controller.go:485-590 | in any such history, swaps, changing targets and several draining groups included: a cycle that finds nobody in the way activates its target and makes every other managed group passive iff the record names it; otherwise it asks for nothing |
| Switchover.StoppedOutcome | internal/controller/controller.go:522-587 | a cycle that finds a stopped owner in the way activates its target in any case |
| Switchover.RecordByTimes | internal/controller/controller.go:538-571 | the record names a target iff some cycle began a drain for it, or it was on record at first, and no cycle since was late for any group, began a drain for another target, or activated a group |
| Switchover.SwitchoverByTimes | internal/controller/controller.go:485-590 | exactly when a cycle that finds nobody in the way activates its target, from the groups, targets, times and timeouts of the finds before it |
| Switchover.ActivatesExactly | internal/controller/controller.go:479-590 | exactly which group any cycle of any history tells to be active, equal priorities apart |
| Switchover.DrainsByTimes | internal/controller/controller.go:538-557 | the closed form of this for cycles that find one group in the way of one target: the first late cycle drops a start, the one after it begins anew |
| Switchover.WithinStays | internal/controller/controller.go:538-557 | the same where these cycles fit in one timeout: no start on record, or one not outlasted and for this target, or one outlasted by a cycle other than the last |
| Switchover.OneDrainByTimes | internal/controller/controller.go:485-590 | the closed form decides a run in which one owner alone drains for one target |
| Switchover.SwitchoverCompletes | internal/controller/controller.go:485-590 | from an empty memory, with one target and any groups draining, each within its own timeout, and with swaps in between: the first cycle that finds nobody in the way activates the target and makes every other managed group passive; the starts of the drains stay on record |
| Switchover.ShortDrain | internal/controller/controller.go:538-571 | a drain that one cycle sees and the next one sees no more: the target of the second cycle is activated iff the group had no start on record and the target is the same, or had one within its timeout and the record names the target; otherwise nothing is asked for |
| Progress.StrandedForever | internal/controller/controller.go:563-571 | without an owner or a draining group, and without a drain on record for the target, no cycle of any run writes a desired state |
| Stabilisation.OwnersAfter | internal/controller/controller.go:480-590 | after a cycle the owners are the target at most, or one fewer than before |
| Stabilisation.CycleRemovesOwner | internal/controller/controller.go:480-590 | n owners become at most max(1, n-1), from any desired states and whatever is reported |
| Stabilisation.RunsSettle | internal/controller/controller.go:480-590 | over i cycles with arbitrary reports between them, n owners become at most max(1, n-i) |
| Stabilisation.RestMeansSettled | internal/controller/controller.go:506-520 | with some owner, a cycle leaves every desired document alone iff the target is the only owner and every other managed group is to be passive |
| Unmanaged.UnmanagedChanged | internal/controller/controller.go:496-536 | a cycle changes the desired document of an unmanaged group iff nobody owns the service and it is the first draining group; it is then managed and to be passive |
| Unmanaged.LevelLeavesUnmanaged | internal/controller/controller.go:466-477 | in the active-active topology no unmanaged group is touched |
| SwapAlgebra.SwapRaisesAvailable | internal/controller/controller.go:703-765 | if no available group shares the top: afterwards the top value is the same and held exactly by the groups that were available at the next best, and no further swap is due |
| SwapAlgebra.SwapKeepsLevels | internal/controller/controller.go:740-762 | the set of priorities in use does not change |
| SwapAlgebra.SwapKeepsUses | internal/controller/controller.go:740-762 | how often each is used does not change iff as many groups move up as down |
| SwapAlgebra.SwapCycle | internal/controller/controller.go:459-464 | a cycle that swaps changes priorities only, as the swap says, and neither desired states nor memory |
| SwapAlgebra.UnmanagedFailureIsNone | internal/controller/controller.go:715-726 | if every failed group of the least priority is unmanaged, a cycle changes no config |
| SwapAlgebra.ManagedFailureSwaps | internal/controller/controller.go:703-765 | an automatic cycle with a failed managed group of the least priority, and some group that has not failed, writes priorities and no desired state |
| SwapAlgebra.SharedTopBlocksPolicy | internal/controller/controller.go:715-764 | with an available group at the top beside a failed managed one, a cycle changes nothing that the next one reads |
| Failover.NothingToWrite | internal/controller/controller.go:767-894 | after a cycle that kept the management flags, a cycle that asks only for what is stored leaves every document as it is |
| Failover.FailoverCompletes | internal/controller/controller.go:450-590 | all managed and configured, a failed group of the top priority the sole owner, and no available group at the top, whatever ties there are otherwise: two cycles on the same reports leave desired=active on exactly the best available group, the first listed among equals, and no later cycle changes a document |
| Failover.FailoverExactly | internal/controller/controller.go:450-590 | without the proviso: two cycles fail over iff no available group has the top priority; where one has, no number of cycles does |
| Failover.SharedTopNeverFailsOver | internal/controller/controller.go:703-765 | with a shared top no number of cycles on the same reports ever fails over |
| Levelling.SwapLevels | internal/controller/controller.go:658-698 | a swap leaves all priorities equal iff every group ends at the next best or every one at the top, given which configs decode; with all of them decodable `SwapKeepsDifferent` rules it out |
| Levelling.LevelActivatesAll | internal/controller/controller.go:466-477 | with equal priorities and no swap, a cycle makes exactly the managed groups owners |
| Commands.BestUnique | internal/controller/commands.go:164-172 | the entry of least priority, first in the listing among equals, is unique |
| Executor.CommandConsumer.RunDisable | internal/controller/commands.go:202-211 | for any name: only the desired document of that group changes; managed is cleared, and the state kept, passive where none can be read |
| Executor.CommandConsumer.RunEnable | internal/controller/commands.go:214-223 | only the desired document of that group changes; managed is set, and the state kept, passive where none can be read |
| Executor.CommandConsumer.RunForcePassive | internal/controller/commands.go:329-342 | runs iff the desired document decodes and is unmanaged; then that document alone changes, to passive and managed; else nothing does |
| Executor.CommandConsumer.HasNoActiveGroup | internal/controller/commands.go:354-369 | true iff no listed group is managed and desired-active |
| Executor.CommandConsumer.FindIncumbent | internal/controller/commands.go:152-172 | finds the group whose place a promotion takes |
| Executor.CommandConsumer.RunPromote | internal/controller/commands.go:132-198 | the outcome and the documents are those of the promotion, failures included |
| Executor.CommandConsumer.FindReplacement | internal/controller/commands.go:240-291 | finds the managed, passive and healthy group with the least priority, the first listed among equals |
| Executor.CommandConsumer.RunDemote | internal/controller/commands.go:231-324 | the outcome and the documents are those of the demotion, failures included |
| CommandEffects.EnableUndoesDisable | internal/controller/commands.go:202-223 | enable undoes a disable iff the group was listed and known to be managed |
| CommandEffects.PromoteTransposes | internal/controller/commands.go:132-198 | exactly two priorities change places; roles and all other configs stay; only the promoted group's desired document changes |
| CommandEffects.PromoteMeans | internal/controller/commands.go:132-198 | document by document: runs iff the group is listed and its config decodes to a priority that is not negative; exchanges with the first group of the least priority, itself winning ties; told to be active iff no listed group was, managed in any case |
| CommandEffects.PromotedIsFirst | internal/controller/commands.go:132-198 | with distinct positive priorities the promoted group ends with the strict minimum, and priorities stay distinct |
| CommandEffects.PromotedIsTarget | internal/controller/controller.go:608-623 | it is then managed, and the target of the next cycle if it is available |
| CommandEffects.PromoteUnseatsOwner | internal/controller/commands.go:346-351 | a promotion leaves no owner iff the promoted group was the sole owner |
| CommandEffects.PromoteAndLiveness | internal/controller/commands.go:346-369 | exactly when a promotion keeps at most one group live |
| CommandEffects.EnableAndLiveness | internal/controller/commands.go:214-223 | exactly when enable does |
| CommandEffects.ForcePassiveAndLiveness | internal/controller/commands.go:329-342 | exactly when force_passive does |
| CommandEffects.DemoteAndLiveness | internal/controller/commands.go:304-317 | exactly when a replacing demotion does: the demoted group must not be busy, nor anything else live |
| CommandEffects.DemoteMeans | internal/controller/commands.go:231-324 | runs iff the desired document decodes, and says passive or else the config decodes and some other listed group is managed, passive, healthy and configured; a failed demotion changes nothing, and one of a passive group only its desired document |
| Admission.Server.ValidatePromote | internal/api/server.go:246-305 | 400 for a group that is not listed; 409 iff some other listed group that no document says is managed is on record as active or starting |
| Admission.Server.ValidateDemote | internal/api/server.go:312-391 | 400 for a group that is not listed; accepts one that is to be passive, and otherwise iff no listed group is starting or stopping and another one is managed, passive and healthy |
| Admission.Server.ValidateEnable | internal/api/server.go:395-408 | accepts exactly the groups known to be unmanaged; which refusal for a missing, an undecodable and a managed document |
| Admission.Server.ValidateForcePassive | internal/api/server.go:412-428 | accepts exactly the groups whose desired document says active and unmanaged; which code for which refusal |
| Admission.DemoteAdmittedRuns | internal/api/server.go:312-391 | an admitted demotion runs iff the documents that the API does not check decode |
| Admission.DemoteAgrees | internal/controller/commands.go:231-324 | on complete documents admission and execution agree, except that the API alone refuses while a group is starting or stopping |
| Admission.DemoteHandsOver | internal/controller/commands.go:286-317 | success exchanges the priorities with the lowest-numbered replacement, the first in order among equals, passive here and active there, and touches nothing else |
| Admission.PromoteAdmittedRuns | internal/api/server.go:246-305 | an admitted promotion runs iff the group's config decodes to a priority that is not negative |
| Admission.ForcePassiveAgrees | internal/api/server.go:412-428 | every admitted force_passive runs; what runs without admission is a group not meant to be active |
| Admission.EnableAgrees | internal/api/server.go:395-408 | what a disable leaves is admitted; of the listed groups exactly those are whose document decodes and would change |
| CommandQueue.NothingLost | internal/controller/commands.go:406-430 | at every moment, whatever fails, an id once in queue or history is in one of them |
| CommandQueue.HistoryIsFinal | internal/controller/commands.go:417-430 | the history holds only finished commands, each under its own id |
| CommandQueue.AtMostOnce | internal/controller/commands.go:39-81 | no command is executed twice across the drain and the watch |
| CommandQueue.WhatRuns | internal/controller/commands.go:39-81 | a command is executed iff the store showed it pending at the drain, or it was announced within the watch |
| CommandQueue.Overlooked | internal/controller/commands.go:42-44 | a command announced between the revision of the drain and the start of the watch is not executed; one announced within the watch is |
| CommandQueue.LeftPending | internal/controller/commands.go:39-127 | what is not executed stays in the queue, pending |
| CommandQueue.NextConsumerSkips | internal/controller/commands.go:70-81 | a later consumer whose store has seen a command settled does not run it again |
| CommandQueue.DeliveredIsAnnounced | internal/controller/commands.go:51-62 | though the watched prefix covers the history too, what is delivered as pending is a client's announcement |
| CommandQueue.CommandConsumer.ArchiveCommand | internal/controller/commands.go:417-430 | deletes from the queue only after the history has acknowledged it; exactly which writes take effect; with reliable writes, out of the queue and in the history |
| CommandQueue.CommandConsumer.ProcessCommand | internal/controller/commands.go:84-127 | completed iff the type is known and its own execution did not fail, else failed; exactly these writes, each if etcd takes it: running before the execution, the final status after it, the history, and the removal if the history was acknowledged; settled if writes succeed |
| CommandQueue.ReliableWrites | internal/controller/commands.go:84-127 | where no write is lost, a command leaves four of them in this order: running, finished, into the history, out of the queue |
| CommandQueue.CommandConsumer.DrainPending | internal/controller/commands.go:70-81 | in any order of the map, runs each command that the store showed as pending, once |
| CommandQueue.CommandConsumer.Watch | internal/controller/commands.go:44-67 | each pass delivers the next change if there is one: within as many passes as changes are outstanding, all changes made so far have been delivered, and what was announced by them executed |
| CommandQueue.CommandConsumer.Run | internal/controller/commands.go:39-67 | over any interleaving with clients and failing writes: distinct ids, exactly the pending ones at the drain and those watched; one after the other, each judged by its own execution, and the consumer has written exactly what it writes about each; with reliable writes they are in the history only; the watch starts where the store has come to after the drain, and advances with every pass until it has caught up |
| Paths.SplitKey | internal/store/store.go:227-234 | splitting a key gives back the names it was joined from |
| Paths.KeyText | internal/store/store.go:227-234 | a key is its names, each after a slash; a single slash for none |
| Paths.KeyInjective | internal/store/store.go:227-234 | paths of names have distinct keys |
| Paths.PairInjective | internal/controller/controller.go:538 | group pairs without slashes have distinct switch keys |
| Paths.JoinBelow | internal/model/keys.go:6-117 | joining names to a canonical key, as path.Join cleans them, gives the key of the longer path |
| Keys.KeyForPath | internal/model/keys.go:6-117 | every builder yields the canonical key of its entity's path, for all names that are neither reserved nor empty, dots or slashed |
| Keys.ClusterKeysAre | internal/model/keys.go:6-117 | the other keys name by name |
| Keys.GroupKeysAre | internal/model/keys.go:58-84 | the keys of a group name by name: desired, actual, health, and the config in its own subtree |
| Keys.RoleKeysAre | internal/model/keys.go:86-105 | the keys of a role name by name, right below the group for the node that is named like it |
| Keys.KeysPrefixFree | internal/model/keys.go:6-117 | distinct entities have distinct keys, and no key lies below another one, collapsed nodes included |
| Keys.ReservedNodeCollides | internal/model/keys.go:86-101 | a node with the reserved name desired does lie below a document |
| Store.Json.NormalizeSound | internal/store/store.go:236-245 | normalised bytes are never empty, and stay as they are |
| Store.StateStore.InsertLocked | internal/store/store.go:181-196 | the tree gets the nodes on the way to the key and the value at its end, and nothing else |
| Store.StateStore.DeleteLocked | internal/store/store.go:198-213 | the tree loses exactly the subtree of the key; nothing for the root |
| Store.StateStore.FindLocked | internal/store/store.go:215-225 | the node at the key's path iff there is one |
| Store.StateStore.Get | internal/store/store.go:121-133 | the value stored at the key's path, none for an interior node |
| Store.StateStore.ListChildren | internal/store/store.go:135-151 | the names below a key, sorted |
| Order.LeqDecides | internal/store/store.go:148 | in a listing a name comes before its extensions, and else the first differing character decides |
| Store.StateStore.Prefix | internal/store/store.go:153-165 | exactly the valued nodes of the subtree, under the keys the walk spells |
| Store.StateStore.Snapshot | internal/store/store.go:114-119 | a tree of the same contents whose nodes are all new |
| Store.StateStore.LoadSnapshot | internal/store/store.go:65-86 | exactly the given items, in any order, on new nodes; ready, at the given revision |
| Store.StateStore.Apply | internal/store/store.go:89-111 | one event applied to the tree, and its revision taken over |
| Refinement.DeleteAgrees | internal/store/store.go:198-213 | a delete does to the tree what it does to etcd iff nothing is stored below its key |
| Refinement.DeleteIsSubtree | internal/store/store.go:198-213 | in any case it takes the entries at its key and below it, no other |
| Refinement.RunAgrees | internal/store/store.go:89-111 | after any run of events with that proviso, tree and etcd hold the same entries |
| Refinement.SnapshotAgrees | internal/store/store.go:65-86 | a loaded snapshot holds exactly what etcd held |
| Refinement.GetAgrees | internal/store/store.go:121-133 | a lookup answers from etcd's map, normalised |
| Refinement.PrefixAgrees | internal/store/store.go:153-165 | a prefix query returns exactly etcd's entries at or below the key, normalised |
| Refinement.StoreIsEtcd | internal/store/store.go:65-111 | on keys of the schema the proviso always holds: after any snapshot and events, tree and etcd agree |
| Refinement.NodesAfter | internal/store/store.go:181-213 | which nodes there are: those that a put reached and no later delete at or above them removed |
| StateView.LooksLikeRoleContainer | internal/api/view.go:369-390 | true iff some child that is not reserved has a state or health node |
| StateView.BuildNode | internal/api/view.go:308-343 | exactly the children that are not reserved and have a state or health value, with these values |
| StateView.BuildManagementGroup | internal/api/view.go:265-306 | the group's own documents, and its nodes in both layouts |
| StateView.BuildStateView | internal/api/view.go:58-107 | the groups of the view are those of the tree |
| StateView.StoredIsShown | internal/api/view.go:231-343 | a stored role document shows its role at the node and group it was stored for |
| StateView.ShownIsStored | internal/api/view.go:231-343 | a role that is shown has a document stored for just that node and group |
| StateView.ViewRoundTrip | internal/api/view.go:58-107 | both: shown iff stored, for any tree filled through the key builders |
| StateView.GroupIsShown | internal/api/view.go:231-306 | a group is shown iff the tree has a node for it below a cluster group, neither of a reserved name |
| StateView.GroupValues | internal/api/view.go:231-306 | a group is shown with the documents stored under its own keys, desired, actual, health and config each in its place |
| StateView.ViewValues | internal/api/view.go:308-343 | the documents shown are the ones stored under the role's keys |
| EndToEnd.ViewShowsEtcd | internal/api/view.go:58-107 | from any snapshot and events on schema keys, a role is shown iff etcd holds a document of it |
| Converge.Ensure | internal/roles/converge.go:10-83 | for every sequence of actor results and every retry interval: the exact calls made and answers used; success iff the last call is a successful probe; the transition is reported iff a pass gets beyond its probe, once and right after the first probe; no pass begins after the deadline and none gives up before it; a role whose first probe succeeds reports and calls nothing else; at most ceil(converge/retry) passes, and the end within converge + retry + exec if actors are prompt |
| Converge.Attempt | internal/roles/converge.go:39-80 | one pass, event by event: probe, transition if it is the first, set; it ends the run only on a successful probe or an exec error |
| Converge.GiveUp | internal/roles/converge.go:27-37 | at the deadline a passive run calls force_stop, if it is configured, and nothing else; the run has failed |
| Converge.Set | internal/roles/converge.go:70-78 | the set half of a pass: called iff it is configured; ends the run only on an exec error, as failed |
| Converge.ReconcileRole | internal/roles/executor.go:63-72 | which loop for which desired state, with its transition, failed without any call for another; a healthy role is called once and reports nothing; if actors are prompt, it ends within the switchover timeout of every group that lists the role |
| Converge.ReconcileDisabled | internal/roles/executor.go:77-117 | at most one probe, nothing set; the desired state iff its answer is OK |
| Converge.ShortEnough | internal/controller/controller.go:627-655 | converge + retry + exec fits in the switchover timeout of every group that lists the role, in any configuration, if retry is at most check |
| Worker.WrittenStates | internal/roles/manager.go:243-300 | an execution can write exactly the desired state, its transition state while managed, and failed |
| Worker.WrittenHealth | internal/roles/manager.go:466-477 | and exactly ok with the desired state, warning with the transition while managed, and failed |
| Worker.ApplyDesired | internal/roles/manager.go:243-300 | the statuses in order: the transition iff a pass of the run got beyond its probe, then the desired state iff the last call of the run was a successful probe of it, and failed otherwise; a healthy role reports its state alone; unmanaged, the answer of one probe alone; nothing without a session lease, failed alone without a definition or for another state |
| Worker.AlwaysFresh | internal/roles/manager.go:170-240 | under every schedule of ticks, writes, ends, cancellations: at most one execution can write, it is the current one and was started for the pair last recorded, and every put that goes through belongs to that pair |
| Worker.PassiveStaysQuiet | internal/roles/manager.go:170-230 | from a recorded desired=passive on, neither active nor starting is written until another state is read |
| Worker.NewOrderTakesOver | internal/roles/manager.go:190-230 | a changed pair leaves exactly the execution started for it able to write, none when shutting down |
| Worker.TickRestarts | internal/roles/manager.go:190-210 | on the same pair, another execution is started iff there was none yet or the interval has passed since the last start, five seconds where none is configured; nothing happens without a document or a definition |
| Worker.ShutdownIsSilent | internal/roles/manager.go:123-142 | after a shutdown nothing is written, even if the worker ticks again |
| Worker.RoleWorker.Reconcile | internal/roles/manager.go:170-210 | restarts on a change, records it, and otherwise when the check interval (5 s unless positive) has passed; nothing on a document that is missing or does not decode, or for a role without a definition |
| Worker.RoleWorker.StartDesiredExecution | internal/roles/manager.go:213-230 | cancels the current execution and hands out a new context |
| Worker.RoleWorker.CancelCurrentDesired | internal/roles/manager.go:232-240 | cancels the current execution, and no other |
| Worker.RoleWorker.WriteStatus | internal/roles/manager.go:325-404 | puts what differs from the store, state before health, and nothing without a session lease or under a cancelled context |
| Worker.StatusIsStored | internal/roles/manager.go:325-404 | written uncancelled, both parts of a status are put or were stored already |
| Scenarios.StaleStartStrands | internal/controller/controller.go:538-571 | two groups and a start left on record: the owner is told to stop, has stopped, and the target is not activated, whatever the times |
| Scenarios.SuccessorFailsDuringDrain | internal/controller/controller.go:538-571 | automatic mode: the successor fails while the owner drains; after the swap a third group is available and nobody is activated |
| Scenarios.BetterGroupRecoversDuringDrain | internal/controller/controller.go:538-571 | manual mode: a better group recovers while the owner drains; all three are passive and well in the end |
| Scenarios.OtherDrainOutlasts | internal/controller/controller.go:545-557 | the owner drains in time for one target, but another group outlasts its timeout: nobody is activated |
| Scenarios.UnmanagedIsTaken | internal/controller/controller.go:496-536 | an unmanaged stopping group is put under management |
| Scenarios.SharedTopIsStuck | internal/controller/controller.go:715-764 | a failed and an available group at the top: the swap is due, changes no priority, and blocks the cycle |
| Scenarios.SwapMakesBothActive | internal/controller/controller.go:658-698 | one group without a readable config: after swap and recovery both groups are owners |
| Scenarios.DemotionMakesTwoLive | internal/controller/commands.go:304-317 | demoting a running group makes two groups live |
| Scenarios.PromotionStrands | internal/controller/commands.go:346-351 | promoting the active group leaves no owner |
| Scenarios.AdmittedDemotionFails | internal/api/server.go:312-391 | an admitted demotion fails because the one replacement has no config |
| Scenarios.CommandInTheGap | internal/controller/commands.go:42-44 | a run of the consumer with all writes accepted: a command announced just after the drain is never executed, however long it watches, and stays pending |
| Scenarios.DeleteTakesTwo | internal/store/store.go:198-213 | deleting one of two nested keys leaves tree and etcd apart |
| RunScenarios.DisableMakesBothActive | internal/controller/commands.go:202-211 | a run of disable, cycle, report, cycle from a safe world: the disable of an unknown name ends with two owners |
| RunScenarios.LateWorkerMakesTwoLive | internal/controller/controller.go:522-587 | a run of one cycle and one worker's put from a sound cluster: two live groups, for the worker had not read that its group is to be passive |
| RunScenarios.PromotionMakesTwoLive | internal/controller/commands.go:346-369 | promoting a group while another one drains makes two groups live |
| RunScenarios.EnableMakesTwoLive | internal/controller/commands.go:214-223 | enabling a second group that is to be active makes two groups live |
| RunScenarios.ForcePassiveMakesTwoLive | internal/controller/commands.go:329-342 | forcing an unmanaged running group passive beside an owner makes two groups live |
| Scenarios.FailoverExists | internal/controller/controller.go:703-765 | a world that `FailoverCompletes` applies to |
| Scenarios.SwitchoverExists | internal/controller/controller.go:485-590 | a run of two cycles that `SwitchoverCompletes` and `OneDrainByTimes` apply to |

## Left out

- etcd itself, its client, leases, sessions and leader election: etcd is a map of documents, or a log of changes; one controller and one consumer run at a time, though the code does not stop them when leadership is lost.
- A cycle, a command and an API check read and write as one step: a store that lags behind within a cycle is not modelled, and in `Controller` and `Executor` every put succeeds. Failing puts and a lagging store are modelled for the command queue only.
- Controller.Controller.Reconcile: does not model puts that fail, after which the code skips a group or gives up the policy of that cycle.
- Controller.Controller.ReconcileManagementGroup: does not model puts that fail, on which the code returns no group.
- Executor.CommandConsumer.RunPromote: does not model writes that fail midway, after which the code leaves the earlier ones in place.
- Executor.CommandConsumer.RunDemote: does not model writes that fail midway, after which the code leaves the earlier ones in place.
- Names of groups in commands are plain: a name with a slash or a dot element is cleaned by path.Join to the key of something else, and that is not modelled.
- HTTP, the event stream, authentication, the web page.
- Running scripts as processes: an actor call returns a result and a duration from an arbitrary oracle; waiting for the session lease is no step of its own: an execution either has it or ends.
- JSON and YAML: documents are values; in the store, which bytes are valid and how others are quoted is arbitrary but for two laws.
- Loading, merging and watching the configuration, bootstrap, logging, and the wiring of the runtime.
- The memory of switchovers is kept per cluster group and group; the code joins the two names with a slash (`Paths.PairInjective`).
- Texts of errors and, but for the aggregated ones, details; times of update other than those of role states; `lastMissing`, which only spares log lines.
- StateView.BuildStateView: leaves out display names and the config, registry, session and leadership parts.
- StateView.BuildManagementGroup: leaves out the empty details that the view adds to a document without any.
- StateView.BuildNode: leaves out the empty details that the view adds to a document without any.
- StateView.ViewValues: leaves out the empty details that the view adds to a document without any.
- Converge.Ensure: a retry interval that is not positive sleeps for no time at all; a pass is then taken to last a nanosecond, the least the clock can tell. The configuration replaces only an interval of zero by the default.
