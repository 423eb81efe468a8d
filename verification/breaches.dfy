/** Properties that the control loop does not have, each with the worlds that show it. The exact
    conditions are `Counts.FloorBeforehand`, `CloudTheorems.DesiredFloor`,
    `CloudTheorems.IncreaseDuringCoolDown`, `CloudTheorems.GrowsWithoutLock`, `Reaping.DueNowOrNever`,
    `DryRuns.UnhealthyRepeats` and `DrySimulation.DryTickSimulates`. */
module Breaches {
  import opened Cluster
  import opened Taints
  import opened Order
  import opened Pods
  import opened Utilisation
  import opened Decision
  import opened Health
  import opened ScaleLocks
  import opened Cloud
  import opened ControlLoop
  import opened TickTheorems
  import opened Counts
  import opened Plans
  import opened Progress
  import opened CloudTheorems
  import opened DryRuns
  import opened DrySimulation
  import opened Reaping

  // ---------- the minimum and the unhealthy pass ----------

  predicate HealthOptions(o: Options) {
    && ValidThresholds(o) && o.minNodes == 1 && o.maxNodes >= 2 && o.fastRate == 1 && !o.dryMode && !o.scaleOnStarve
    && o.maxNodeAge <= 0 && o.unhealthyGrace > 0 && o.newestPercent == 100 && o.maxUnhealthyPercent == 50
  }

  /** An old node that is ready and a newer one that is not, nothing requested, nothing failing. */
  ghost predicate Pair(w: World, env: Input, a: Node, b: Node) {
    && HealthOptions(env.opts) && env.listed && env.pods == [] && env.taintFails == {} && env.unhealthyTaintFails == {}
    && w.nodes == [a, b] && a.name != b.name && Plain(a) && Plain(b)
    && a.created < b.created && b.created + env.opts.unhealthyGrace < env.now
    && Ready(a.conditions) && !Ready(b.conditions)
    && a.cpu > 0 && a.memory > 0 && b.cpu > 0 && b.memory > 0
    && w.group.cached.target > w.group.cached.minSize && !Held(w.lock, env.now)
  }

  const PAIR_ORDERS := Orders([0, 1], [], [1, 0])

  lemma PairSplit(w: World, env: Input, a: Node, b: Node)
    requires Pair(w, env, a, b)
    ensures SplitOf(w, env) == Split([a, b], [], [], [])
  {
    hide Prepared;
    var m := ModeOf(Prepared(w, env), env.opts);
    assert Classify(m, a) == IsUntainted && Classify(m, b) == IsUntainted;
    hide Classify;
    hide Select;
    hide Plain;
    SelectAll(w.nodes, m, IsUntainted);
    SelectNone(w.nodes, m, IsTainted);
    SelectNone(w.nodes, m, IsForced);
    SelectNone(w.nodes, m, IsCordoned);
  }

  lemma PairUnhealthy(w: World, env: Input, a: Node, b: Node)
    requires Pair(w, env, a, b)
    ensures Unhealthied(w, env) == {b.name}
  {
    var ns, g := w.nodes, env.opts.unhealthyGrace;
    assert !Unhealthy(a, g, env.now) && Unhealthy(b, g, env.now);
    hide Unhealthy;
    assert ns[..1] == [a] && ns[..1][..0] == [];
    assert UnhealthyAt([a], g, env.now) == [];
    assert UnhealthyAt(ns, g, env.now) == [1];
    var none: set<string> := {};
    assert TaintSkips(w, env.opts, ns, {}) == none;
    PicksAll([1], ns, none, 1);
    assert UnhealthyPicks(w, env) == [1];
    hide UnhealthyPicks;
    assert At(ns, [1]) == [b];
  }

  lemma {:induction false} TwoPositions()
    ensures Permutation([0, 1], 2) && Permutation([1, 0], 2) && Permutation([], 0)
  {
    assert Iota(1) == Iota(0) + [0];
    assert Iota(2) == Iota(1) + [1];
    var zero: seq<nat>, one: seq<nat> := [0], [1];
    assert Iota(0) == [] && Iota(1) == zero;
    hide Iota;
    assert Iota(2) == zero + one && [0, 1] == zero + one && [1, 0] == one + zero;
    assert multiset(one + zero) == multiset(zero + one);
  }

  lemma PairOrdered(a: Node, b: Node)
    requires a.created < b.created
    ensures SortOrder([0, 1], [a, b], false) && Distinct([0, 1])
    ensures SortOrder([1, 0], [a, b], true)
    ensures SortOrder([], [], true)
  {
    TwoPositions();
    hide Permutation;
  }

  lemma PairValid(w: World, env: Input, a: Node, b: Node)
    requires Pair(w, env, a, b)
    ensures Valid(w, env, PAIR_ORDERS)
  {
    PairSplit(w, env, a, b);
    PairOrdered(a, b);
    hide SplitOf;
    hide SortOrder;
  }

  lemma PairHealthy(w: World, env: Input, a: Node, b: Node)
    requires Pair(w, env, a, b)
    ensures JudgedHealthy(w.nodes, env, [1, 0])
  {
    var ns, g := w.nodes, env.opts.unhealthyGrace;
    var aged := [b, a];
    assert !Unhealthy(a, g, env.now) && Unhealthy(b, g, env.now);
    hide Unhealthy;
    assert At(ns, [1, 0]) == aged;
    assert aged[..1] == [b] && [b][..0] == [];
    assert OldEnough([b], g, env.now) == [b];
    assert OldEnough(aged, g, env.now) == aged;
    TestSizeExact(100, 2);
    hide TestSize;
    assert TestSet(ns, [1, 0], env.opts, env.now) == aged;
    hide TestSet;
    assert CountUnhealthy([b], g, env.now) == 1;
    assert CountUnhealthy(aged, g, env.now) == 1;
  }

  lemma PairDecides(w: World, env: Input, a: Node, b: Node)
    requires Pair(w, env, a, b) && Valid(w, env, PAIR_ORDERS)
    ensures ReachesDecision(w, env, PAIR_ORDERS)
    ensures Decided(w, env) == Delta(-1)
  {
    hide Valid;
    hide SplitOf;
    hide Prepared;
    hide JudgedHealthy;
    PairSplit(w, env, a, b);
    PairHealthy(w, env, a, b);
    IdleUsage([], [a, b]);
    hide UsageOf;
    assert !AgedOut(env.opts, [a, b], [], env.now) && !StarvedScale(env.opts, [], [a, b]);
    hide AgedOut;
    hide StarvedScale;
    hide Plain;
    hide Ready;
  }

  lemma PairPlan(w: World, env: Input, a: Node, b: Node)
    requires Pair(w, env, a, b) && Valid(w, env, PAIR_ORDERS)
    ensures ToTaint(w, env, PAIR_ORDERS) == [0] && ToUntaint(w, env, PAIR_ORDERS) == []
  {
    hide SplitOf;
    hide Decided;
    hide JudgedHealthy;
    hide Plain;
    hide Ready;
    hide UsageOf;
    hide TaintsAlong;
    PairDecides(w, env, a, b);
    PairSplit(w, env, a, b);
    hide Valid;
    assert Acts(w, env) && Effective(w, env, PAIR_ORDERS) == -1;
    NoGrowth(w, env, PAIR_ORDERS);
    PairTaints(env, w.group.cached, a, b);
    assert Shrinkage(w, env, PAIR_ORDERS) == 1;
    hide Shrinkage;
    hide ToUntaint;
  }

  lemma PairTaints(env: Input, d: Description, a: Node, b: Node)
    requires HealthOptions(env.opts) && env.taintFails == {} && d.target > d.minSize
    ensures TaintsAlong(env.opts, d, env.taintFails, [0, 1], [a, b], 1) == [0]
  {
    var none: set<string> := {};
    PicksAll([0, 1], [a, b], none, 1);
    hide Picks;
  }

  /** With a minimum of one node: the unhealthy pass taints the sick node, the scale-down the old
      one, and the group is left without an untainted node. */
  lemma FloorBreached(w: World, env: Input, a: Node, b: Node)
    requires Pair(w, env, a, b)
    ensures Valid(w, env, PAIR_ORDERS)
    ensures |UntaintedNodes(w.nodes)| == 2 && UntaintedNodes(Tick(w, env, PAIR_ORDERS).0.nodes) == []
  {
    hide Tick;
    hide Valid;
    hide SplitOf;
    hide Unhealthied;
    hide UntaintedNodes;
    hide ToTaint;
    hide ToUntaint;
    PairValid(w, env, a, b);
    PairPlan(w, env, a, b);
    PairSplit(w, env, a, b);
    PairUnhealthy(w, env, a, b);
    UntaintedCount(w, env, PAIR_ORDERS);
    BothTainted(w, env, a, b);
    hide NewlyTainted;
    assert Freed(SplitOf(w, env), []) == {};
    hide Freed;
  }

  lemma BothTainted(w: World, env: Input, a: Node, b: Node)
    requires a.name != b.name && Unhealthied(w, env) == {b.name}
    ensures |NewlyTainted(w, env, Split([a, b], [], [], []), [0])| == 2
  {
    hide Unhealthied;
    var both := {a.name, b.name};
    assert At([a, b], [0]) == [a];
    assert Names([a]) == {a.name} && Names([a, b]) == both;
    assert ({b.name} + {a.name}) * both == both;
  }

  /** The same without any scale-down: under a held lock, a group at its minimum with one sick
      untainted node is left below it. */
  lemma FloorBreachedLocked(w: World, env: Input, ord: Orders)
    requires Valid(w, env, ord) && !env.opts.dryMode && env.listed && Held(w.lock, env.now)
    requires |UntaintedNodes(w.nodes)| == env.opts.minNodes
    requires Unhealthied(w, env) * Names(UntaintedNodes(w.nodes)) != {}
    ensures |UntaintedNodes(Tick(w, env, ord).0.nodes)| < env.opts.minNodes
  {
    hide Tick;
    hide SplitOf;
    hide UntaintedNodes;
    hide Unhealthied;
    hide UsageOf;
    hide Decided;
    SplitIsReal(w, env);
    UntaintedCount(w, env, ord);
    assert !Acts(w, env) && !TooFewUntainted(w, env);
    NoGrowth(w, env, ord);
    assert ToTaint(w, env, ord) == [];
    hide Valid;
    hide ToTaint;
    hide ToUntaint;
    NothingPicked(w, env, SplitOf(w, env));
    hide NewlyTainted;
    hide Freed;
  }

  lemma NothingPicked(w: World, env: Input, s: Split)
    ensures Freed(s, []) == {} && NewlyTainted(w, env, s, []) == Unhealthied(w, env) * Names(s.untainted)
  {
    hide Unhealthied;
    assert At(s.untainted, []) == [];
  }

  // ---------- the minimum of the cloud group ----------

  /** An empty force-tainted node and a due tainted one, both instances of a group that may lose one. */
  ghost predicate OneTooMany(w: World, env: Input, f: Node, t: Node) {
    && IdleOptions(env.opts) && env.opts.minNodes == 0 && env.listed && env.pods == [] && env.terminateFails == {}
    && w.nodes == [f, t] && f.name != t.name && !f.unschedulable && !t.unschedulable
    && HasTaint(f, TO_BE_FORCE_REMOVED) && !HasTaint(t, TO_BE_FORCE_REMOVED) && Reapable(env, t, true)
    && Belongs(w.group.cached, f) && Belongs(w.group.cached, t)
    && w.group.desired == w.group.cached.target == w.group.cached.minSize + 1 && !Held(w.lock, env.now)
  }

  lemma OneTooManySplit(w: World, env: Input, f: Node, t: Node)
    requires OneTooMany(w, env, f, t)
    ensures SplitOf(w, env) == Split([], [t], [f], [])
  {
    hide Prepared;
    hide Belongs;
    hide Held;
    var m := ModeOf(Prepared(w, env), env.opts);
    assert Classify(m, f) == IsForced && Classify(m, t) == IsTainted;
    hide Classify;
    SelectPair(f, t, m, IsForced);
    SelectPair(f, t, m, IsTainted);
    SelectNone(w.nodes, m, IsUntainted);
    SelectNone(w.nodes, m, IsCordoned);
    hide Select;
  }

  lemma SelectPair(a: Node, b: Node, m: Mode, c: Class)
    ensures Select([a, b], m, c) == (if Classify(m, a) == c then [a] else []) + if Classify(m, b) == c then [b] else []
  {
    hide Classify;
    assert [a, b] == [a] + [b] && [a] == [] + [a];
    SelectSnoc([a], b, m, c);
    SelectSnoc([], a, m, c);
    assert Select([], m, c) == [];
    hide Select;
  }

  lemma OneTooManyPlan(w: World, env: Input, ord: Orders, f: Node, t: Node)
    requires OneTooMany(w, env, f, t) && Valid(w, env, ord)
    ensures ForceRequest(w, env) == [f] && ReapRequest(w, env, ord) == [t] && Asked(w, env, ord) == 0
  {
    OneTooManySplit(w, env, f, t);
    hide SplitOf;
    hide Prepared;
    hide Belongs;
    hide Reapable;
    IdleDecision(env.opts, [], [], [t], Prepared(w, env).cached, env.now);
    hide Decide;
    hide UsageOf;
    hide Valid;
    assert Acts(w, env) && Effective(w, env, ord) < 0 && JudgedHealthy(w.nodes, env, ord.health);
    NoGrowth(w, env, ord);
    hide Asked;
    hide Effective;
    assert EmptyNode(env.pods, f.name);
    assert Removable(env, f, ForcePass) && Removable(env, t, ReapPass(true));
    OneCandidate(env, f, ForcePass);
    OneCandidate(env, t, ReapPass(true));
    hide Candidates;
    hide Acts;
  }

  lemma OneCandidate(env: Input, n: Node, pass: Pass)
    requires !env.opts.dryMode && Removable(env, n, pass)
    ensures Candidates(env, [n], pass) == [n]
  {
    hide Removable;
    assert [n][..0] == [];
    assert Candidates(env, [], pass) == [];
  }

  /** Both passes look at the same cached target, each passes the guard, and the desired capacity
      ends below the minimum. */
  lemma MinimumSizeBreached(w: World, env: Input, ord: Orders, f: Node, t: Node)
    requires OneTooMany(w, env, f, t) && Valid(w, env, ord)
    ensures Tick(w, env, ord).0.group.desired == w.group.cached.minSize - 1
  {
    hide Tick;
    hide Valid;
    hide ForceRequest;
    hide ReapRequest;
    hide Asked;
    hide Reapable;
    hide Belongs;
    OneTooManyPlan(w, env, ord, f, t);
    TickCapacity(w, env, ord);
    AllOrNothing(w.group.cached, [f]);
    AllOrNothing(w.group.cached, [t]);
    hide Terminated;
  }

  // ---------- the lock and the minimum ----------

  /** A group whose nodes are all cordoned is below its minimum: the tick grows it although an
      earlier increase is still cooling down. */
  lemma GrownDuringCoolDown(w: World, env: Input, ord: Orders)
    requires Valid(w, env, ord) && Held(w.lock, env.now) && env.listed && !env.opts.dryMode
    requires forall n :: n in w.nodes ==> n.unschedulable
    requires 0 < env.opts.minNodes <= |w.nodes|
    requires w.group.cached.target < w.group.cached.maxSize && !w.group.oneShot && env.answer.setDesiredOk
    ensures Tick(w, env, ord).1.up.added > 0 && Tick(w, env, ord).0.group.desired > w.group.cached.target
  {
    hide Tick;
    hide Prepared;
    AllCordoned(w, env);
    hide SplitOf;
    hide Valid;
    IncreaseDuringCoolDown(w, env, ord);
    TickGroup(w, env, ord);
  }

  lemma AllCordoned(w: World, env: Input)
    requires !env.opts.dryMode && forall n :: n in w.nodes ==> n.unschedulable
    ensures SplitOf(w, env).untainted == [] && SplitOf(w, env).tainted == []
  {
    hide Prepared;
    var m := ModeOf(Prepared(w, env), env.opts);
    SelectNone(w.nodes, m, IsUntainted);
    SelectNone(w.nodes, m, IsTainted);
    hide Select;
  }

  /** A group whose nodes are all cordoned asks for what the minimum needs. */
  lemma AllCordonedAsks(w: World, env: Input, ord: Orders)
    requires Valid(w, env, ord) && env.listed && !env.opts.dryMode && 0 < env.opts.minNodes <= |w.nodes|
    requires forall n :: n in w.nodes ==> n.unschedulable
    requires w.group.cached.target < w.group.cached.maxSize
    ensures Asked(w, env, ord) > 0 && ForceRequest(w, env) == [] && ReapRequest(w, env, ord) == [] && !Reaches(w, env)
  {
    hide Prepared;
    AllCordoned(w, env);
    hide SplitOf;
    hide UsageOf;
    assert TooFewUntainted(w, env) && !Reaches(w, env);
    assert Growth(w, env, ord) == env.opts.minNodes;
    assert |ToUntaint(w, env, ord)| == 0 by {
      assert ord.newest == [];
    }
    hide Valid;
  }

  /** Such a group in one-shot mode, with more instances than one batch holds: when the second
      attach call fails, the real group has grown by a batch, and the lock is as it was. */
  lemma GrownWithoutLock(w: World, env: Input, ord: Orders)
    requires Valid(w, env, ord) && env.listed && !env.opts.dryMode && 0 < env.opts.minNodes <= |w.nodes|
    requires forall n :: n in w.nodes ==> n.unschedulable
    requires w.group.cached.target < w.group.cached.maxSize && w.group.oneShot
    requires var f := env.answer.fleet; f.Fleet? && f.ready && f.failure == FailsAt(1) && |f.ids| > ATTACH_BATCH
    ensures var (w', r) := Tick(w, env, ord);
            w'.group.desired == w.group.desired + ATTACH_BATCH && r.up.added == 0 && w'.lock == w.lock
  {
    hide Tick;
    AllCordonedAsks(w, env, ord);
    TickCapacity(w, env, ord);
    TickIsPlanned(w, env, ord);
    SelectedAtMost(w, env);
    NothingAsked(w.group, env);
    hide Valid;
    hide Asked;
    hide ForceRequest;
    hide ReapRequest;
    hide Prepared;
    hide SplitOf;
    hide Reaches;
    hide ToTaint;
    hide ToUntaint;
    hide Terminated;
    hide AfterRemovals;
    hide TrackerAfter;
  }

  // ---------- a node that is due ----------

  /** An idle group that consists of one due node, an instance of the cloud group. */
  ghost predicate SoleDue(w: World, env: Input, t: Node) {
    && IdleOptions(env.opts) && env.opts.minNodes == 0 && env.listed && env.pods == []
    && env.terminateFails == {} && env.deleteFails == {}
    && w.nodes == [t] && !t.unschedulable && !HasTaint(t, TO_BE_FORCE_REMOVED) && Reapable(env, t, true)
    && Belongs(w.group.cached, t) && w.group.desired == w.group.cached.target && !Held(w.lock, env.now)
  }

  lemma SoleDueSplit(w: World, env: Input, t: Node)
    requires SoleDue(w, env, t)
    ensures SplitOf(w, env) == Split([], [t], [], [])
  {
    hide Prepared;
    hide Belongs;
    hide Held;
    var m := ModeOf(Prepared(w, env), env.opts);
    assert Classify(m, t) == IsTainted;
    hide Classify;
    SelectAll(w.nodes, m, IsTainted);
    SelectNone(w.nodes, m, IsForced);
    SelectNone(w.nodes, m, IsUntainted);
    SelectNone(w.nodes, m, IsCordoned);
    hide Select;
  }

  lemma SoleDueActs(w: World, env: Input, ord: Orders, t: Node)
    requires SoleDue(w, env, t) && Valid(w, env, ord)
    ensures Acts(w, env) && Effective(w, env, ord) < 0 && JudgedHealthy(w.nodes, env, ord.health)
    ensures Quietly(w, env, ord)
  {
    SoleDueSplit(w, env, t);
    hide SplitOf;
    hide Prepared;
    hide Belongs;
    hide Reapable;
    IdleDecision(env.opts, [], [], [t], Prepared(w, env).cached, env.now);
    hide Decide;
    hide UsageOf;
    assert JudgedHealthy(w.nodes, env, ord.health);
    hide Valid;
  }

  lemma SoleDuePlan(w: World, env: Input, ord: Orders, t: Node)
    requires SoleDue(w, env, t) && Valid(w, env, ord)
    ensures Quietly(w, env, ord) && Due(w, env) == [t] && ReapRequest(w, env, ord) == [t] && ForceRequest(w, env) == []
    ensures ToTaint(w, env, ord) == [] && ToUntaint(w, env, ord) == [] && Asked(w, env, ord) == 0
  {
    hide Prepared;
    hide Belongs;
    hide Reapable;
    hide JudgedHealthy;
    hide Quietly;
    hide TaintsAlong;
    SoleDueActs(w, env, ord, t);
    SoleDueSplit(w, env, t);
    hide SplitOf;
    hide Acts;
    NoGrowth(w, env, ord);
    assert Removable(env, t, ReapPass(true));
    OneCandidate(env, t, ReapPass(true));
    NoCandidate(env, ForcePass);
    hide Candidates;
    hide Asked;
    hide ToUntaint;
    ValidFacts(w, env, ord);
    hide Valid;
    NothingAlong(env.opts, w.group.cached, env.taintFails, Shrinkage(w, env, ord));
    hide Shrinkage;
  }

  lemma NoCandidate(env: Input, pass: Pass)
    ensures Candidates(env, [], pass) == []
  {
  }

  lemma NothingAlong(o: Options, d: Description, failing: set<string>, wanted: int)
    ensures TaintsAlong(o, d, failing, [], [], wanted) == []
  {
  }

  /** A group at its minimum size keeps its due node, and is left exactly as it was. */
  lemma NotReaped(w: World, env: Input, ord: Orders, t: Node)
    requires SoleDue(w, env, t) && Valid(w, env, ord) && w.group.cached.target == w.group.cached.minSize
    ensures Quietly(w, env, ord) && Due(w, env) == [t] && |Due(w, env)| > Room(w.group.cached)
    ensures Tick(w, env, ord).0.nodes == [t] && Tick(w, env, ord).0.group == w.group
  {
    hide Tick;
    hide Reapable;
    hide Belongs;
    hide ToTaint;
    hide ToUntaint;
    hide Asked;
    hide ForceRequest;
    hide ReapRequest;
    hide SplitOf;
    SoleDuePlan(w, env, ord, t);
    PlannedNodes(w, env, ord);
    TickIsPlanned(w, env, ord);
    SelectedAtMost(w, env);
    hide Valid;
    hide Due;
    hide Quietly;
    hide Prepared;
    hide Reaches;
    var r := Tick(w, env, ord).1;
    NoneDeleted(r.forced);
    NoneDeleted(r.reaped);
    var none: set<string> := {};
    assert none + none == none && Unhealthied(w, env) == none;
    assert At(SplitOf(w, env).untainted, []) == [] && At(SplitOf(w, env).tainted, []) == [];
    NothingAfter(w.nodes, env.now, env.opts.taintEffect);
    NoneTerminated(w.group, []);
    NoneTerminated(w.group, [t]);
    hide AfterTerminating;
    hide DeletedNames;
  }

  /** So it is never removed: no quiet run from such a group, however long, loses the node. */
  lemma NeverReaped(ws: seq<World>, envs: seq<Input>, ords: seq<Orders>, t: Node, j: nat)
    requires QuietRun(ws, envs, ords) && j < |ws| && |envs| > 0
    requires SoleDue(ws[0], envs[0], t) && ws[0].group.cached.target == ws[0].group.cached.minSize
    ensures t.name in Names(ws[j].nodes)
  {
    hide Tick;
    hide Reapable;
    hide Belongs;
    hide Quietly;
    hide Due;
    assert QuietStep(ws[0], envs[0], ords[0], ws[1]);
    QuietIsValid(ws[0], envs[0], ords[0]);
    NotReaped(ws[0], envs[0], ords[0], t);
    if j == 0 {
      assert t in ws[0].nodes;
    } else {
      DueNowOrNever(ws, envs, ords, 0, t);
    }
    hide QuietStep;
  }

  lemma QuietIsValid(w: World, env: Input, ord: Orders)
    requires Quietly(w, env, ord)
    ensures Valid(w, env, ord)
  {
  }

  // ---------- dry mode ----------

  /** A node that stays sick through two dry ticks with health checks is tracked twice. */
  lemma TrackedTwice(v: World, env: Input, ord: Orders, env': Input, ord': Orders, n: Node)
    requires Valid(v, env, ord) && Valid(Tick(v, env, ord).0, env', ord') && v.tracker == [] && n in v.nodes
    requires env.opts.dryMode && env.listed && env.opts.unhealthyGrace > 0
    requires env'.opts.dryMode && env'.listed && env'.opts.unhealthyGrace > 0
    requires Unhealthy(n, env.opts.unhealthyGrace, env.now) && Unhealthy(n, env'.opts.unhealthyGrace, env'.now)
    ensures !NoRepeats(Tick(Tick(v, env, ord).0, env', ord').0.tracker)
  {
    hide Tick;
    hide Unhealthy;
    hide NoRepeats;
    var v1 := Tick(v, env, ord).0;
    DryTickChangesNothing(v, env, ord);
    assert NoRepeats(v.tracker) by {
      EmptyHasNone();
    }
    UnhealthyRepeats(v, env, ord);
    SickIsTracked(v, env, ord, n);
    UnhealthyRepeats(v1, env', ord');
    hide Valid;
  }

  lemma EmptyHasNone()
    ensures NoRepeats([])
  {
  }

  lemma SickIsTracked(v: World, env: Input, ord: Orders, n: Node)
    requires Valid(v, env, ord) && env.opts.dryMode && env.listed && env.opts.unhealthyGrace > 0
    requires n in v.nodes && Unhealthy(n, env.opts.unhealthyGrace, env.now)
    ensures n.name in Tick(v, env, ord).0.tracker
  {
    hide Tick;
    hide SplitOf;
    hide UnhealthyAt;
    hide Unhealthy;
    SickNotUntainted(v, env, ord, n);
    TickIsPlanned(v, env, ord);
    PassTracks(v, env);
    PickedUnhealthy(v.nodes, env.opts.unhealthyGrace, env.now, n);
    hide Prepared;
    hide Valid;
    hide ToTaint;
    hide ToUntaint;
    InNameList(At(v.nodes, UnhealthyAt(v.nodes, env.opts.unhealthyGrace, env.now)), n.name);
    var tracker, untainted := Start(v, env).tracker, At(SplitOf(v, env).tainted, ToUntaint(v, env, ord));
    assert n.name in tracker;
    ForgetCount(tracker, untainted, n.name);
    assert n.name in multiset(Forget(tracker, untainted));
    hide Forget;
  }

  /** A dry controller that tracks the sole node of an idle group, beside the real one whose node is
      due and may go: after the tick the real group has fewer nodes, and the two have parted. */
  lemma PartsAtReap(w: World, v: World, env: Input, ord: Orders, t: Node)
    requires Mirrors(w, v) && Smooth(env) && Valid(v, env, ord) && SoleDue(w, Real(env), t)
    requires w.group.cached.target > w.group.cached.minSize
    ensures Valid(w, Real(env), ord) && ToDelete(w, Real(env), ord) == 1
    ensures |Tick(w, Real(env), ord).0.nodes| < |Tick(v, env, ord).0.nodes|
    ensures !Mirrors(Tick(w, Real(env), ord).0, Tick(v, env, ord).0)
  {
    hide Tick;
    hide Reapable;
    hide ReapRequest;
    SameValid(w, v, env, ord);
    SoleDuePlan(w, Real(env), ord, t);
    DeletesWhen(w.group.cached, [t], Real(env));
    hide Belongs;
    DeletesAsPlanned(w, Real(env), ord);
    MirroredNames(w, v);
    DryTickSimulates(w, v, env, ord);
    DryTickChangesNothing(v, env, ord);
    FewerAfter(w, v, env, ord);
    hide Mirrors;
    hide Valid;
    hide Terminated;
  }
}
