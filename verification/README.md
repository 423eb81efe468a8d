# Escalator's control loop, verified

Escalator sizes a Kubernetes node group that is backed by an AWS auto-scaling group. Every tick it
lists pods and nodes, sorts the nodes into untainted, tainted, force-tainted and cordoned ones,
compares requests with capacity, and then taints the oldest nodes, untaints the newest ones, grows
the cloud group, or deletes tainted nodes whose grace period is over. A time lock keeps it from
growing the group again while an earlier increase is cooling down. In dry mode it only tracks names.

This project models one node group's tick as a function of an explicit world, writes the Go code's
loops and updates as classes and methods that are proved equal to that function, and proves what
ticks and whole runs of ticks guarantee. `dafny verify dfyconfig.toml` verifies everything.

## Layout

| file | holds |
|---|---|
| `cluster.dfy`, `decimal.dfy` | nodes, pods, options; the decimal stamp and its round trip |
| `taints.dfy` | the escalator taints and the API calls that edit them |
| `order.dfy` | the two creation-time orders and picking along them |
| `pods.dfy` | requests, free capacity, starvation, the node-info index |
| `usage.dfy`, `decision.dfy` | utilisation, the scale-up delta, the decision, no flapping |
| `health.dfy`, `scalelock.dfy`, `cloud.dfy` | node-group health; the scale lock; the AWS node group |
| `tick.dfy` | the tick: `Tick(world, input, orders)` gives the new world and a report |
| `controller.dfy` | the controller as a class; `ScaleNodeGroup` is proved to do exactly `Tick` |
| `plan.dfy` | what a tick is going to do, told before it; its whole report is proved to be that |
| `ticktheorems.dfy`, `scaling.dfy`, `counts.dfy`, `deletions.dfy` | what every tick guarantees |
| `runs.dfy`, `idle.dfy`, `flapping.dfy` | runs: grace periods and the lock; convergence; two ticks in a row |
| `reaping.dfy`, `shrinking.dfy` | which due nodes go; where an idle group ends |
| `dryruns.dfy`, `drysimulation.dfy` | dry mode: the tracker over every run; a dry controller beside a real one |
| `verdict.dfy`, `bands.dfy` | the health verdict and the decision bands, from the nodes to what the tick does |
| `meanings.dfy`, `writtenout.dfy` | locks, annotations, instances, lists, requests and picks written out in the objects' own terms |
| `breaches.dfy` | worlds in which expected properties fail |

## How the model reads the code

- A `World` holds the API server's nodes, the cloud group (cached description, real desired
  capacity, live instances), the scale lock, the dry-mode trackers and the remembered node
  capacity. An `Input` holds the clock, the listed pods, the options, which calls fail, and what AWS
  answers. `Orders` says how the three unstable sorts came out. Statements quantify over all of
  them, so they cover every failure pattern and every way of breaking ties.
- The list of nodes at the start of a tick is the snapshot, and is fresh. API writes change the
  world, not the snapshot, as in the code (`pkg/controller/util.go:113` assigns to a loop copy).
- A failing API call changes nothing. One instant stands for all clock readings of a tick.
- `float64` is exact: utilisation uses `real`, and `math.MaxFloat64` is the constructor
  `Unbounded`. `int64` sums are unbounded integers. Instants are nanoseconds.
- The cloud node group is always found; `RunOnce` has looked it up before the tick
  (`pkg/controller/controller.go:649-699`).
- Preconditions are the validated facts: the scale-up threshold is not zero, and where a statement
  needs them, ordered positive thresholds. Node names are unique, as in the API server.
- A run starts from nodes without the escalator taint. Between ticks the environment may add,
  remove, reorder, cordon, annotate and force-taint nodes, change readiness and pods, change or
  refresh the cloud group, and take the escalator taint away; it may not forge one. The clock never
  goes back, and the options may change from tick to tick.

## What turned out not to hold

- **Cool-down.** `docs/scale-process.md:62` says that the lock is looked at before any scaling. The
  path for fewer untainted nodes than the minimum (`pkg/controller/controller.go:305-319`) scales up
  without it. `CloudTheorems.IncreaseDuringCoolDown` says exactly when a tick grows the group during
  the cool-down; `Breaches.GrownDuringCoolDown` gives the worlds in which it does.
- **No growth without the lock.** A one-shot increase that fails at a later batch than the first
  leaves the earlier batches attached and takes no lock: `CloudTheorems.GrowsWithoutLock` says that
  this is exactly when it happens, `Breaches.GrownWithoutLock` gives such ticks.
- **Minimum of untainted nodes.** A scale-down counts the snapshot, and the unhealthy pass taints on
  top of it; it also runs in ticks that go no further. `Counts.FloorBeforehand` says, for every
  listed tick outside dry mode, exactly when the minimum is there at its end.
  `Breaches.FloorBreached` and `Breaches.FloorBreachedLocked` give the worlds in which it is lost.
- **Minimum of the cloud group.** The force pass and the reap pass are guarded separately by the
  same cached target. `CloudTheorems.DesiredFloor` is the exact condition, for every tick;
  `Breaches.MinimumSizeBreached` gives the ticks that end below MinSize.
- **Eventual removal.** A reap is all or nothing per call (`pkg/cloudprovider/aws/aws.go:282`). In a
  quiet run a due node goes at once if the nodes due with it fit in the room above MinSize, and
  otherwise never: `Reaping.DueNowOrNever`; `Breaches.NotReaped` and `Breaches.NeverReaped` give the
  group that keeps its due node for good.
- **Grace periods.** The stamp drops the fraction of a second (`pkg/k8s/taint.go:39-79`), so a node
  can go up to one second early: `Runs.DueExactly` and `Runs.GraceCutShort`.
- **A thousand ids per call.** `terminateOrphanedInstances` never clears its id list; the limit is
  kept exactly for lists of at most a thousand: `Cloud.TerminateCoverageAndLimit`.
- **No flapping.** The bound on the group size is sharp: `Decision.FlapsBelowBound`.
- **Dry-mode tracker.** With health checks it ends a tick with repeats exactly when an unhealthy node
  was tracked already: `DryRuns.UnhealthyRepeats`; `Breaches.TrackedTwice` gets there in two ticks
  from an empty tracker.
- **Dry mode as a rehearsal.** A dry controller deletes nothing, so it and a real one part at the
  first tick in which the real one is going to delete a node, and only then:
  `DrySimulation.DryTickSimulates`, with `DrySimulation.DeletesWhen`; `Breaches.PartsAtReap` gives
  such ticks.

## Model

| member | source | states |
|---|---|---|
| Runs.GracePeriodSafety | pkg/controller/scale_down.go:73-132 | Over every run: a node requested for ordinary deletion carries the stamp of its latest tainting, older than the soft period, older than the hard period if pods other than daemonset pods are listed on it; no non-empty no-delete annotation; unhealthy itself if the group was judged unhealthy |
| Runs.StampsHold | pkg/k8s/taint.go:39-79 | Invariant of every run: each tainted node carries one escalator taint, stamped with the second of the tick that last found it untainted, never rewritten while tainted |
| Runs.ElapsedSinceTainting | pkg/k8s/taint.go:105-115 | In real time, over every run: at least the soft (hard) period less the dropped fraction of a second passed since the tainting |
| Runs.DueExactly | pkg/controller/scale_down.go:73-132 | A node tainted at t is due, in either kind of reap pass, if and only if it is not annotated, it is sick itself where only sick nodes may go, and both periods, each less t's fraction of a second, are over (the hard one only if it holds pods) |
| Runs.GraceCutShort | pkg/k8s/taint.go:39-79 | A period of one second can be cut to two nanoseconds |
| Runs.OnlyRequestedLeave | pkg/controller/scale_down.go:52-68 | A node object that a tick removes was requested by the reap pass, or by the force pass with the force taint and without pods other than daemonset pods |
| Meanings.AnnotatedStays | pkg/controller/scale_down.go:41-48 | In every tick a node with a non-empty `atlassian.com/no-delete` annotation is not requested by the reap pass, and keeps its object unless the force pass requested it |
| Meanings.AnnotatedNeverReaped | pkg/controller/scale_down.go:86-91 | The same at every tick of every run |
| Runs.RunOfLock | pkg/controller/controller.go:347-353 | Every run of the world is a run of the lock: only successful increases take it, only checks past the cool-down release it |
| Runs.ScaleLockHistory | pkg/controller/scale_lock.go:22-56 | Over every run: a held lock is locked with the last increase's node count, an unlocked one has count zero, and an increase past the lock check starts at least the cool-down after every earlier increase by any path |
| ScaleLocks.LockIsHistory | pkg/controller/scale_lock.go:22-56 | The lock's fields are a function of the history: time and count of the last increase, until a check finds the cool-down over |
| ScaleLocks.HeldMeansRecent | pkg/controller/scale_lock.go:22-29 | Held implies locked; not held implies that every earlier increase is at least the cool-down ago |
| ScaleLocks.CoolDownMeans | pkg/controller/scale_lock.go:22-29 | In instants, both ways: the cool-down runs exactly while some increase is less than the minimum ago |
| Meanings.StillLockedMeans | pkg/controller/controller.go:347-353 | Over every run: a tick that ends still locked has an increase less than the cool-down ago |
| Meanings.LockOpens | pkg/controller/controller.go:347-353 | Over every run: a listed tick that is not below the minimum and has usable capacity, no sooner than the cool-down after every earlier increase, is not held up, and leaves the lock released or taken anew |
| ScaleLocks.ScaleLock.Locked | pkg/controller/scale_lock.go:22-29 | True exactly while less than the minimum duration has passed since the lock was taken; otherwise the flag and the count are cleared |
| ScaleLocks.ScaleLock.Acquire | pkg/controller/scale_lock.go:32-42 | Sets the flag, the requested count and the instant |
| ScaleLocks.ScaleLock.Unlock | pkg/controller/scale_lock.go:45-56 | Clears flag and count, keeps the instant |
| Progress.CoveredConverges | pkg/controller/controller.go:362-408 | Runs with no requests, open locks and a target that covers the untainted nodes at every tick, whatever deletions fail: after k ticks the untainted count is at most max(MinNodes, u0 - k*Fast), exactly that if the group was not over its maximum, strictly falling until MinNodes and never below it |
| Progress.IdleStaysCovered | pkg/controller/scale_down.go:134-170 | If no call fails and the first target covers all nodes, the target covers the untainted nodes at every later tick and the lock stays open |
| Progress.IdleConverges | pkg/controller/scale_down.go:172-229 | The convergence, from conditions on the first world only |
| Shrinking.IdleDueGo | pkg/controller/scale_down.go:73-132 | In every idle run each node that is due at a tick is gone after it: the due nodes always fit in the room |
| Shrinking.IdleEndsAtMinimum | pkg/controller/scale_down.go:73-132 | An idle run on ordinary untainted nodes, after enough ticks to taint the excess and once both periods have passed since, consists of exactly MinNodes untainted nodes; the real desired capacity is that plus what it was beyond the nodes at first |
| Progress.IdleTick | pkg/controller/scale_down.go:172-229 | One idle tick: the exact new untainted count, and the real desired capacity falls exactly as the number of nodes does |
| Progress.DownConserves | pkg/controller/scale_down.go:134-170 | Without failures a scale-down takes as much off the real desired capacity as off the API server |
| Progress.OverMaxIsCorrected | pkg/controller/controller.go:400-408 | Over MaxNodes, an unlocked healthy tick that reaches the decision never grows the group, whatever the utilisation; if the cloud group can give up the excess and calls succeed, at most MaxNodes stay untainted |
| Progress.DecidedDown | pkg/controller/scale_down.go:172-229 | A tick that decides to scale down, without failing calls, taints exactly the oldest nodes, as many as both clamps leave |
| Counts.FloorBeforehand | pkg/controller/controller.go:231-240 | For every listed real tick, whatever it does and whatever calls fail: it ends with MinNodes untainted nodes if and only if what the unhealthy pass and the scale-down are going to taint fits in what there is above the minimum and what the scale-up is going to free |
| Breaches.FloorBreached | pkg/controller/controller.go:231-240 | Every idle pair of an old ready node and a newer sick one, with a minimum of one, ends with no untainted node |
| Breaches.FloorBreachedLocked | pkg/controller/controller.go:231-240 | Under a held lock, a group at its minimum with a sick untainted node ends below it |
| Counts.UntaintedCount | pkg/controller/controller.go:122-172 | The exact untainted count after every listed real tick, told before it: the old count, less the nodes that either pass is going to taint, plus those that the scale-up is going to free |
| Counts.UntaintedFloor | pkg/controller/scale_down.go:172-216 | Without health checks no real tick, listed or not, leaves fewer untainted nodes than the minimum if it found that many, whatever it does and whatever calls fail |
| ScalingTheorems.TaintFloor | pkg/controller/scale_down.go:172-216 | A scale-down taints at most untainted - MinNodes nodes, at most target - MinSize when the target is not below it, at distinct original positions |
| ScalingTheorems.TaintAmountReached | pkg/controller/scale_down.go:172-229 | Without failures the tainted positions are exactly the front of the oldest-first order |
| ScalingTheorems.OldestFirst | pkg/controller/util.go:86-118 | An untouched node strictly older than a tainted one had its call fail |
| ScalingTheorems.NewestFirst | pkg/controller/scale_up.go:112-168 | A node left tainted although strictly newer than an untainted one was unhealthy or had its call fail |
| ScalingTheorems.UntaintBound | pkg/controller/scale_up.go:112-168 | At most n nodes are untainted, at distinct positions, none unhealthy when health checks are on |
| ScalingTheorems.ScaleUpConserves | pkg/controller/scale_up.go:14-108 | An error-free scale-up gives untainted + added equal to the delta or fills the cached target exactly to MaxSize; the lock is taken exactly when nodes were added; a capacity that is set is above the cached target and at most MaxSize |
| ScalingTheorems.TickLock | pkg/controller/controller.go:305-353 | What a tick may do to the lock; an increase under a held lock comes only from the minimum path |
| CloudTheorems.IncreaseDuringCoolDown | pkg/controller/controller.go:305-319 | Exactly when a tick grows the group while the lock is held |
| Breaches.GrownDuringCoolDown | pkg/controller/controller.go:305-319 | A group whose nodes are all cordoned is grown during the cool-down |
| Plans.TickIsPlanned | pkg/controller/controller.go:210-481 | The whole report of every tick (outcome, delta, verdict, both removals with their termination and deletion counts, tainted and untainted positions, nodes added) and the cloud group, lock and tracker it leaves, as functions of the world, the input and the orders before it, whatever fails |
| Verdicts.VerdictOfTick | pkg/controller/controller.go:430-446 | Every tick that acts: it finds the group unhealthy if and only if health checks are on, some node is tested, and 100 times the number of positions with a sick node among the tested ones is at least (max+1)*size; then it only reaps, with delta 0 and nothing picked or added; otherwise it acts on the decision |
| Verdicts.SickMeans | pkg/k8s/node.go:31-52 | A node is sick when it is schedulable, past its grace period, and its first Ready condition, if any, does not say True |
| Verdicts.CountMeans | pkg/controller/controller.go:594-606 | The count is the number of positions whose node is sick |
| Verdicts.SickGroupNotGrown | pkg/controller/controller.go:430-446 | A group with more sick nodes than the percentage allows, all past the grace period and all tested, is not grown, tainted or untainted by the scaling, whatever its utilisation |
| WrittenOut.OutcomesMean | pkg/controller/controller.go:266-353 | Exactly when each outcome before the decision occurs, in numbers, and the delta it reports |
| WrittenOut.ListsMean | pkg/controller/controller.go:122-172 | Outside dry mode: which list a node is on, by cordoning, the force taint's key and the escalator taint's key |
| WrittenOut.DryListsMean | pkg/controller/controller.go:122-172 | In dry mode without health checks: which list a node is on, by the two trackers |
| WrittenOut.RequestsMean | pkg/controller/scale_down.go:52-132 | Which nodes both passes of a real tick request, if and only if, in terms of taints, stamps, annotation, listed pods and sickness |
| WrittenOut.SickAreTainted | pkg/controller/controller.go:485-498 | The unhealthy pass taints exactly the sick nodes whose call succeeds |
| WrittenOut.TaintsMean | pkg/controller/util.go:86-118 | Whatever calls fail: no more than both minimums allow are tainted, none whose call fails, and every other one if that is not enough |
| WrittenOut.GainsMean | pkg/controller/scale_up.go:14-49 | What a tick tries to gain is the delta it reports; what it asks of the cloud is what untainting leaves of that, as far as MaxSize allows |
| WrittenOut.UntaintsMean | pkg/controller/scale_up.go:112-168 | No more than the delta are untainted, none that is sick under health checks or whose call fails, and every other tainted node if that is not enough |
| WrittenOut.RemembersFirst | pkg/controller/controller.go:225-229 | The remembered capacity is that of the first listed node, or the one from before |
| CloudTheorems.TickGroup | pkg/cloudprovider/aws/aws.go:277-314 | Every tick: both removals are two-stage (a prefix of the request is terminated, all instances of the group, never more than target - MinSize; API objects go only after the whole request); instances leave the group only as victims of the two passes |
| Meanings.InstancesLeave | pkg/cloudprovider/aws/aws.go:292-303 | An id that leaves the group in a tick is that of the first cached instance whose provider id is that of a node which one of the two passes terminated |
| Meanings.InstancesGone | pkg/cloudprovider/aws/aws.go:292-303 | The instance that the provider id of a terminated node names is not in the group afterwards, unless a fleet brings that id |
| CloudTheorems.TickCapacity | pkg/cloudprovider/aws/aws.go:253-272 | The exact desired capacity after every tick: what the removals leave; with SetDesiredCapacity the cached target plus what is asked; in one shot the attached batches on top, also when a later batch fails |
| CloudTheorems.GrowsWithoutLock | pkg/cloudprovider/aws/aws.go:408-464 | A tick grows the real group and takes no lock if and only if a one-shot increase is asked for, its instances become ready and a batch after the first fails |
| Breaches.GrownWithoutLock | pkg/cloudprovider/aws/aws.go:408-464 | An all-cordoned group in one-shot mode whose second attach call fails has grown by a batch, with the lock as it was |
| CloudTheorems.DesiredFloor | pkg/cloudprovider/aws/aws.go:277-284 | From a fresh description: a tick that acts without growing ends at MinSize or above if and only if what both candidate lists are going to lose fits in the room; every other tick ends at MinSize or above |
| CloudTheorems.AllOrNothing | pkg/cloudprovider/aws/aws.go:277-314 | Without failures, and with members only, a call terminates its whole request if it passes the guard and nothing otherwise |
| Breaches.MinimumSizeBreached | pkg/cloudprovider/aws/aws.go:277-284 | Every tick on an empty force-tainted node and a due tainted one, both instances of a group with one node to spare, ends with the desired capacity at MinSize - 1 |
| Reaping.DueNowOrNever | pkg/cloudprovider/aws/aws.go:277-284 | Over quiet runs: a due node is removed at some tick if and only if the nodes due with it do not exceed target - MinSize, and then at that very tick |
| Reaping.StuckForever | pkg/controller/scale_down.go:134-170 | Once the due nodes exceed the room, all of them are due and too many at every later tick |
| Breaches.NotReaped | pkg/cloudprovider/aws/aws.go:277-284 | An idle group at MinSize that consists of one due node is left exactly as it was by every tick |
| Breaches.NeverReaped | pkg/cloudprovider/aws/aws.go:277-284 | No quiet run from such a group, however long, removes the node |
| TickTheorems.PartitionIsExact | pkg/controller/controller.go:122-172 | The four lists hold every node of the snapshot exactly once |
| TickTheorems.SelectAppend | pkg/controller/controller.go:122-172 | Filtering keeps the order of the snapshot |
| TickTheorems.TickNodes | pkg/controller/controller.go:210-481 | The API server after a tick is the one before it with the reported nodes tainted, removed and untainted, and nothing else |
| TickTheorems.TickAccounts | pkg/controller/controller.go:412-467 | Which nodes each removal asks for and what each outcome leaves undone; an unhealthy group is only reaped |
| TickTheorems.TickSeparates | pkg/controller/controller.go:412-467 | Requested by the force pass, requested by the reap pass, tainted by the scale-down and untainted by the scale-up are four disjoint groups, each from its own list |
| TickTheorems.CordonedUntouched | pkg/k8s/node.go:31-52 | Outside dry mode a cordoned node object is left exactly as it is |
| TickTheorems.TickKeepsUnique | pkg/controller/controller.go:210-481 | A tick keeps node names unique |
| TickTheorems.DryTickChangesNothing | pkg/controller/scale_down.go:52-132 | No dry tick changes a node object or the cloud group |
| DryRuns.TrackerNeverRepeats | pkg/controller/util.go:86-118 | Over every run of ticks and environment steps, with any nodes and any failures: as long as dry ticks do without health checks the tracker stays free of repeats |
| DryRuns.DryRunChangesNothing | pkg/controller/scale_down.go:52-132 | Over every run: no dry tick changes a node object or the cloud group |
| DrySimulation.DryRunSimulates | pkg/controller/controller.go:122-172 | Over every pair of runs under the same inputs and the same changes to both clusters, up to and including the first tick that finds the real controller about to delete a node: the same partition, outcome, decision and taint and untaint positions; a listed name is tracked, once, exactly when its real node is tainted |
| DrySimulation.DryTickSimulates | pkg/controller/util.go:86-118 | One tick: the same report, also when nodes are due; the tracker still stands for the real taints afterwards if and only if the real tick, by its request and the cached description, is not going to delete a node |
| DrySimulation.DeletesWhen | pkg/controller/scale_down.go:134-170 | A removal deletes a node object if and only if its request is not empty, passes the size guards, holds only members that terminate, and its first object can be deleted |
| Breaches.PartsAtReap | pkg/controller/scale_down.go:134-170 | A dry and a real controller of an idle group whose sole node is due and may go: after the tick the real group has fewer nodes and the two have parted |
| Breaches.TrackedTwice | pkg/controller/controller.go:485-498 | A node that stays sick through two dry ticks with health checks is tracked twice, from an empty tracker |
| DrySimulation.SplitAgrees | pkg/controller/controller.go:122-172 | The tracker and the taints give the same partition |
| DryRuns.ForgetExact | pkg/controller/scale_up.go:112-168 | Untainting takes exactly the picked names off a tracker without repeats |
| DryRuns.UnhealthyRepeats | pkg/controller/controller.go:485-498 | With health checks the tracker ends a dry tick free of repeats if and only if no unhealthy node was tracked already |
| Controllers.Controller.ScaleNodeGroup | pkg/controller/controller.go:210-481 | The imperative tick computes exactly `Tick`, new world and report |
| Controllers.Controller.FilterNodes | pkg/controller/controller.go:122-172 | The appending loop computes the four in-order filters |
| Controllers.Controller.TaintInstances | pkg/controller/util.go:86-118 | Picks along the order, skipping failing calls, up to max; the API or the tracker changes for exactly those |
| Controllers.Controller.TaintUnhealthyInstances | pkg/controller/controller.go:485-498 | Taints all unhealthy nodes of the snapshot whose call succeeds |
| Controllers.Controller.TaintOldestN | pkg/controller/scale_down.go:220-229 | The same along the oldest-first order |
| Controllers.Controller.UntaintNewestN | pkg/controller/scale_up.go:112-168 | Untaints along the newest-first order, skipping unhealthy nodes and failing calls; edits the tracker in dry mode |
| Controllers.Controller.ScaleUp | pkg/controller/scale_up.go:14-39 | Untaint first, then grow by the remainder and lock |
| Controllers.Controller.GrowGroup | pkg/controller/scale_up.go:42-89 | The clamp to MaxSize, the refusal, the increase |
| Controllers.Controller.ScaleDownTaint | pkg/controller/scale_down.go:172-216 | Both clamps, the refusal, the tainting |
| Controllers.Controller.ScaleDown | pkg/controller/scale_down.go:23-39 | Reap, then taint whatever the reaping did |
| Controllers.Controller.TryDeleteNodes | pkg/controller/scale_down.go:134-170 | Cloud first; API objects only after every instance |
| Controllers.Controller.TryRemoveForceTaintedNodes | pkg/controller/scale_down.go:52-68 | Requests exactly the empty force-tainted nodes, none in dry mode |
| Controllers.Controller.TryRemoveTaintedNodes | pkg/controller/scale_down.go:73-132 | Requests exactly the due tainted nodes, none in dry mode |
| Controllers.Controller.ScaleOnMaxNodeAge | pkg/controller/controller.go:624-646 | True exactly at the minimum, with nothing tainted and a node past the maximum age |
| Controllers.Controller.DecideDelta | pkg/controller/controller.go:358-408 | The switch and the three overrides compute the specified decision |
| Decision.DeltaIsLeast | pkg/controller/util.go:14-47 | For equal nodes, also from zero with matching cached capacity: at least one, never the negative-delta error, and the least number that brings CPU and memory to the threshold |
| Decision.FromNothingGrowsByOne | pkg/controller/util.go:14-47 | From zero without cached capacity: exactly one node |
| Decision.NoFlap | pkg/controller/controller.go:358-387 | Once the added nodes are there, no second scale-up; no scale-down either when m*(scaleUp - taintUpper) >= scaleUp |
| Decision.FlapsBelowBound | pkg/controller/controller.go:358-387 | For every smaller m, one included, some request makes the group scale up by one and then down |
| Decision.NextDecisionIsQuiet | pkg/controller/controller.go:321-408 | The same for the whole decision on listed nodes and pods, absent the overrides |
| Flapping.NextTickRests | pkg/controller/controller.go:358-467 | Two ticks: after a scale-up that gets what it asked for, in untainted and added nodes, once those have registered and with unchanged requests, the next tick neither scales up nor untaints nor adds; at or above the size bound it taints nothing either |
| Decision.UsageBounds | pkg/controller/util.go:59-82 | Percentages compare with thresholds as integer inequalities on requests and capacity do |
| Decision.BandTable | pkg/controller/controller.go:358-387 | The bands of equal nodes, in requests and capacity: under the lower threshold exactly the fast rate is lost, under the upper one exactly the slow rate, and up to and including the scale-up threshold nothing changes |
| Decision.OverridesMean | pkg/controller/controller.go:389-408 | The overrides, in numbers: one node at least when starved or aged, the excess at least over the maximum, and no change otherwise |
| Decision.UsageMeans | pkg/controller/util.go:59-82 | When capacity cannot be used, and when use is unbounded |
| Bands.BandsOfTick | pkg/controller/controller.go:358-467 | The bands of a whole real tick of equal nodes: the oldest nodes are tainted at the fast or the slow rate, as far as both minimums allow, or the tick rests |
| Bands.StarvedOrAgedGrows | pkg/controller/controller.go:389-399 | An acting healthy tick of a starved or aged group not over its maximum ends scaled up with a delta of at least one |
| Utilisation.ToAddExact | pkg/controller/util.go:14-47 | The percentage formula asks for d nodes or fewer exactly when u + d nodes fit |
| Utilisation.FromZeroExact | pkg/controller/util.go:14-47 | The from-zero formula asks for d nodes or fewer exactly when d nodes fit; milli-units cancel |
| Health.VerdictExact | pkg/controller/controller.go:513-535 | Unhealthy exactly when the tested nodes are not none and 100*unhealthy >= (max+1)*size |
| Health.TestSetIsNewest | pkg/controller/controller.go:576-592 | The tested nodes are the newest ceil(p*n/100) of the n nodes past the grace period |
| Health.VerdictIgnoresListing | pkg/controller/controller.go:537-555 | With distinct creation times the verdict does not depend on the listing order |
| Health.FilterCommutesWithSort | pkg/controller/controller.go:561-573 | Filtering before or after sorting selects the same nodes in the same order |
| Health.FilterOutNodesTooNew | pkg/controller/controller.go:561-573 | The loop keeps exactly the nodes past the grace period, in order |
| Health.GetMostRecentNodes | pkg/controller/controller.go:576-592 | The loop takes the specified prefix |
| Health.CountUnhealthyNodes | pkg/controller/controller.go:594-606 | The loop counts the unhealthy nodes |
| Health.IsNodegroupHealthy | pkg/controller/controller.go:513-535 | The composed verdict |
| Pods.StarvationCharacterised | pkg/controller/controller.go:608-618 | The comparison of running maxima holds exactly when some pending pod's CPU (or memory) is positive and exceeds the free amount of every untainted node by a direct scan |
| Pods.IsScaleOnStarve | pkg/controller/controller.go:608-618 | With the option and the maximum: the method decides that property |
| Pods.CalculatePodsRequestedUsage | pkg/k8s/util.go:54-72 | The total, and maxima attained by a listed pending pod and exceeded by none |
| Pods.CalculateNodesCapacity | pkg/k8s/util.go:76-99 | The total, and free maxima attained by a node and exceeded by none |
| Pods.MapPodsToNode | pkg/k8s/util.go:102-114 | The map answers the in-order filter of the pod list by node name |
| Pods.NodeAvailableResources | pkg/k8s/util.go:145-161 | Allocatable minus the sum over scheduled, pending or running pods of the node |
| Pods.EqualCapacity | pkg/k8s/util.go:76-99 | Equal nodes have n times the capacity of one |
| Pods.ComputePodResourceRequest | pkg/k8s/scheduler/types.go:101-118 | Containers summed, widened by each init container, plus overhead |
| Pods.WidestIsLeastCover | pkg/k8s/scheduler/types.go:58-71 | The widening is the least amount that covers the sum and every init container |
| Pods.RequestMeans | pkg/k8s/scheduler/types.go:101-118 | The overhead comes on top; a container adds its request; a pod of one container requests just that; init containers are covered with no more than needed |
| Pods.TotalsAppend | pkg/k8s/util.go:54-72 | Total requests and use add up over the pod list |
| Pods.CapacityAppend | pkg/k8s/util.go:76-99 | Total capacity adds up over the node list |
| Pods.OneOfEach | pkg/k8s/util.go:128-141 | A pod uses its node's resources if and only if it is pending or running and its first PodScheduled condition says True |
| Pods.FreeMeans | pkg/k8s/util.go:145-161 | What is free on a node: its size, less every pod of it that uses it |
| Pods.EmptyMeans | pkg/k8s/util.go:37-44 | A node is empty when every listed pod assigned to it is owned by a daemonset |
| Pods.Resource.Add | pkg/k8s/scheduler/types.go:30-43 | Adds a resource list to the fields |
| Pods.Resource.SetMaxResource | pkg/k8s/scheduler/types.go:58-71 | Takes the maximum field by field |
| Pods.CreateNodeNameToInfoMap | pkg/k8s/node_state.go:10-39 | For unique names the keys are exactly the listed nodes, each with the in-order filter of the pods |
| Pods.NodePodsRemaining | pkg/k8s/node_state.go:48-65 | The number of pods not owned by a daemonset, or not found |
| Pods.NodeEmpty | pkg/k8s/node_state.go:42-45 | Through the index: no listed pod on the node other than daemonset pods |
| Taints.UntaintUndoesTaint | pkg/k8s/taint.go:119-144 | Deleting a just-added taint restores the exact taint sequence; the stamp reads back the second |
| Taints.UntaintKeepsOthers | pkg/k8s/taint.go:119-144 | Deleting takes one escalator taint and keeps the multiplicity of every other |
| Taints.MarksOfTainted | pkg/k8s/taint.go:39-79 | An escalator taint already there is kept as it is; otherwise there is exactly the new one |
| Taints.AddedTaint | pkg/k8s/taint.go:39-79 | The added taint: the escalator's key, the Unix time in whole seconds, the configured effect, or NoSchedule if there is none |
| Taints.MarksOfUntainted | pkg/k8s/taint.go:119-144 | A node with at most one escalator taint has none after deletion |
| Taints.KubeClient.AddToBeRemovedTaint | pkg/k8s/taint.go:39-79 | On the API server: exactly this node is tainted, or nothing changes |
| Taints.KubeClient.DeleteToBeRemovedTaint | pkg/k8s/taint.go:119-144 | On the API server: exactly this node is untainted, or nothing changes |
| Taints.KubeClient.DeleteNodes | pkg/k8s/node.go:19-27 | Deletes in order up to the first failing call |
| Decimal.ParseFormat | pkg/k8s/taint.go:105-115 | Reading a written stamp gives the number back |
| Decimal.DigitsMean | pkg/k8s/taint.go:39-79 | A stamp is written in decimal, digit by digit, without leading zeros |
| Order.SortNodesSorts | pkg/controller/sort.go:18-35 | A creation-time sort is an ordered permutation, so such orders exist |
| Order.PicksGreedy | pkg/controller/util.go:86-118 | Along an order, an earlier position that was not picked was skipped |
| Order.PicksSound | pkg/controller/util.go:86-118 | Picks are distinct original positions, at most max, none skipped |
| Cloud.TerminatedIsSafe | pkg/cloudprovider/aws/aws.go:277-314 | One call terminates at most target - MinSize nodes, each an instance of the group |
| Cloud.BelongsIsFound | pkg/cloudprovider/aws/aws.go:317-327 | A node belongs exactly when the search finds an instance id for it |
| Cloud.NodeGroup.BelongsTo | pkg/cloudprovider/aws/aws.go:317-327 | The loop decides membership |
| Cloud.NodeGroup.DeleteNodes | pkg/cloudprovider/aws/aws.go:277-314 | Both size guards, then terminates up to the first outsider or failure; success exactly when all went |
| Cloud.NodeGroup.IncreaseSize | pkg/cloudprovider/aws/aws.go:253-272 | Refuses a non-positive delta and one beyond MaxSize; otherwise the configured strategy |
| Cloud.NodeGroup.AttachInstancesToASG | pkg/cloudprovider/aws/aws.go:408-464 | For every list and failure point the attached batches and the list given to termination hold each instance exactly once; at most 20 a batch; success attaches all in order |
| Cloud.NodeGroup.TerminateOrphanedInstances | pkg/cloudprovider/aws/aws.go:636-665 | The id lists sent; the try counter and the fatal stop at three |
| Cloud.TriesMean | pkg/cloudprovider/aws/aws.go:408-464 | A successful one-shot increase resets the count of failures; one that leaves instances to terminate adds one; anything else leaves it |
| Cloud.TriesSinceSuccess | pkg/cloudprovider/aws/aws.go:658-664 | Over every sequence of increases: the count is at most the number of increases since the last success, so only consecutive failures reach the fatal stop |
| Cloud.TerminateCoverageAndLimit | pkg/cloudprovider/aws/aws.go:636-665 | One call per thousand, each naming everything up to there; every instance is named in some call; no call exceeds a thousand ids exactly when there are at most a thousand instances |

## Left out

- Start-up, informers, caches, leader election and the AWS builder: wiring over libraries.
- Metrics, logging and `calculateNewNodeMetrics`: they decide nothing.
- YAML decoding, duration parsing and `ValidateNodeGroup`: their results are preconditions.
- Label filters: they only define which pods and nodes are listed.
- `RunOnce` and `RunForever`: credential retries, sleeps and the loop over groups; a run is one group's ticks and environment steps.
- Fleet and template request building, `GetInstance` and instance tagging: AWS requests, taken as success or failure.
- `DecreaseTargetSize`: never called by the control loop.
- Rounding of `float64` and overflow of `int64`.
- Stamps beyond the int64 range: they parse here and are errors in Go; the controller never writes one.
- A pod list whose requests are malformed: resource quantities are whole non-negative numbers here, so listing never fails on them.
- DrySimulation.DryRunSimulates: both clusters are given the same joining nodes and the same cloud description, also after an increase that only the real controller made; names that the tracker still holds do not join again.
