/** Progress: an idle group shrinks to its minimum and stays there; a group over its maximum is
    brought back under it. */
module Progress {
  import opened Cluster
  import opened Order
  import opened Pods
  import opened Utilisation
  import opened Decision
  import opened ScaleLocks
  import opened Cloud
  import opened ControlLoop
  import opened TickTheorems
  import opened ScalingTheorems
  import opened Plans
  import opened CloudTheorems
  import opened Counts

  // ---------- over the maximum ----------

  /** The tick gets to act: listed, not below the minimum, usable capacity, unlocked, healthy. */
  ghost predicate ReachesDecision(w: World, env: Input, ord: Orders)
    requires Valid(w, env, ord)
  {
    Reaches(w, env) && JudgedHealthy(w.nodes, env, ord.health)
  }

  /** Once there are untainted nodes, the switch never reports a negative delta. */
  lemma NeverNegative(o: Options, u: Usage, request: Amount, n: nat, cached: Cached)
    requires o.scaleUp > 0 && n > 0 && u.Usage?
    ensures SwitchDelta(o, u, request, n, cached).Delta?
  {
    if Above(u, o.scaleUp) {
      var p, t, c := MaxReal(u.cpu, u.memory), o.scaleUp as real, n as real;
      assert (p - t) / t > 0.0;
      assert c * ((p - t) / t) > 0.0;
      assert ToAdd(n, p, o.scaleUp) > 0;
    }
  }

  lemma OverMaxDelta(o: Options, pods: seq<Pod>, untainted: seq<Node>, tainted: seq<Node>, cached: Cached, now: int)
    requires o.scaleUp > 0 && !UsageOf(pods, untainted).DivisionByZero?
    requires |untainted| > o.maxNodes >= 0
    ensures var d := Decide(o, pods, untainted, tainted, cached, now);
            d.Delta? && d.nodes <= o.maxNodes - |untainted|
  {
    assert UsageOf(pods, untainted).Usage?;
    NeverNegative(o, UsageOf(pods, untainted), TotalRequest(pods), |untainted|, cached);
    hide SwitchDelta;
    hide UsageOf;
    hide StarvedScale;
    hide AgedOut;
  }

  /** Over the maximum the decision is to lose at least the excess. */
  lemma OverMaxDecides(w: World, env: Input, ord: Orders)
    requires Valid(w, env, ord) && ReachesDecision(w, env, ord) && env.opts.scaleUp > 0
    requires |SplitOf(w, env).untainted| > env.opts.maxNodes >= 0
    ensures Acts(w, env)
            && Effective(w, env, ord) == Decided(w, env).nodes <= env.opts.maxNodes - |SplitOf(w, env).untainted|
  {
    hide Prepared;
    hide SplitOf;
    hide UsageOf;
    hide JudgedHealthy;
    var s, p := SplitOf(w, env), Prepared(w, env);
    OverMaxDelta(env.opts, env.pods, s.untainted, s.tainted, p.cached, env.now);
    hide Decide;
    hide Valid;
  }

  lemma OverMaxTainted(w: World, env: Input, ord: Orders)
    requires Valid(w, env, ord) && ReachesDecision(w, env, ord) && !env.opts.dryMode && env.taintFails == {}
    requires |SplitOf(w, env).untainted| > env.opts.maxNodes >= env.opts.minNodes >= 0
    requires Decided(w, env).Delta? && Decided(w, env).nodes <= env.opts.maxNodes - |SplitOf(w, env).untainted|
    requires w.group.cached.target - w.group.cached.minSize >= |SplitOf(w, env).untainted| - env.opts.maxNodes
    ensures |UntaintedNodes(Tick(w, env, ord).0.nodes)| <= env.opts.maxNodes
  {
    hide Tick;
    hide SplitOf;
    hide Decided;
    hide UntaintedNodes;
    assert env.listed;
    DecidedDown(w, env, ord);
    ExcessIsTainted(w, env, ord);
    hide Valid;
    hide ReachesDecision;
  }

  /** Over-max correction: such a tick never grows the cloud group, whatever the utilisation; and
      if the cloud group can give up the excess and no taint call fails, no more than the maximum
      of nodes stay untainted. */
  lemma OverMaxIsCorrected(w: World, env: Input, ord: Orders)
    requires Valid(w, env, ord) && ReachesDecision(w, env, ord) && env.opts.scaleUp > 0
    requires |SplitOf(w, env).untainted| > env.opts.maxNodes >= env.opts.minNodes >= 0
    ensures var (w', r) := Tick(w, env, ord);
            var d := w.group.cached;
            && r.outcome == ScaledDown && r.up.added == 0 && w'.group.desired <= w.group.desired
            && ((!env.opts.dryMode && env.taintFails == {}
                 && d.target - d.minSize >= |SplitOf(w, env).untainted| - env.opts.maxNodes)
                ==> |UntaintedNodes(w'.nodes)| <= env.opts.maxNodes)
  {
    hide Tick;
    hide SplitOf;
    hide Decided;
    hide Asked;
    hide Outlook;
    hide UsageOf;
    hide JudgedHealthy;
    hide Follows;
    hide PlanOf;
    hide CapacityLeft;
    hide UntaintedNodes;
    OverMaxDecides(w, env, ord);
    LeftAtMost(w, env, ord);
    NoGrowth(w, env, ord);
    ActingIsPlanned(w, env, ord);
    TickCapacity(w, env, ord);
    hide Acts;
    hide Effective;
    if !env.opts.dryMode && env.taintFails == {}
      && w.group.cached.target - w.group.cached.minSize >= |SplitOf(w, env).untainted| - env.opts.maxNodes {
      OverMaxTainted(w, env, ord);
    }
    hide Valid;
    hide ReachesDecision;
  }

  lemma LeftAtMost(w: World, env: Input, ord: Orders)
    requires Valid(w, env, ord)
    ensures CapacityLeft(w, env, ord) <= w.group.desired
  {
    hide ForceRequest;
    hide ReapRequest;
    hide Terminated;
  }

  /** The picks of a scale-down are that many fewer untainted nodes, at least. */
  lemma ExcessIsTainted(w: World, env: Input, ord: Orders)
    requires Valid(w, env, ord) && !env.opts.dryMode && env.listed && Tick(w, env, ord).1.up == NO_UP
    ensures var (w', r) := Tick(w, env, ord);
            && r.split == SplitOf(w, env)
            && |UntaintedNodes(w'.nodes)| <= |r.split.untainted| - |r.taintPicks|
            && (env.opts.unhealthyGrace <= 0 ==> |UntaintedNodes(w'.nodes)| == |r.split.untainted| - |r.taintPicks|)
  {
    hide Tick;
    hide SplitOf;
    ValidFacts(w, env, ord);
    UntaintedCount(w, env, ord);
    TickIsPlanned(w, env, ord);
    TickSeparates(w, env, ord);
    SplitIsReal(w, env);
    hide Valid;
    hide ToTaint;
    hide ToUntaint;
    hide ForceRequest;
    hide ReapRequest;
    hide Asked;
    var r, s := Tick(w, env, ord).1, SplitOf(w, env);
    assert Freed(s, []) == {};
    assert env.opts.unhealthyGrace <= 0 ==> Unhealthied(w, env) == {};
    NewlyTaintedCount(w, env, s, r.taintPicks);
    hide Freed;
    hide NewlyTainted;
    hide Unhealthied;
  }

  lemma AlongOldest(o: Options, d: Description, failing: set<string>, oldest: seq<nat>, untainted: seq<Node>,
      wanted: nat)
    requires InRange(oldest, |untainted|) && |oldest| == |untainted| >= o.minNodes >= 0 && failing == {}
    ensures var m := Clamped(o, |untainted|, d, wanted);
            0 <= m <= |untainted| && TaintsAlong(o, d, failing, oldest, untainted, wanted) == oldest[..m]
  {
    var m := Clamped(o, |untainted|, d, wanted);
    PicksAll(oldest, untainted, {}, m);
    hide Picks;
  }

  /** A tick that decides to scale down taints exactly the oldest nodes. */
  lemma DecidedDown(w: World, env: Input, ord: Orders)
    requires Valid(w, env, ord) && ReachesDecision(w, env, ord)
    requires !env.opts.dryMode && env.taintFails == {} && env.opts.minNodes >= 0
    requires Decided(w, env).Delta? && Decided(w, env).nodes < 0
    ensures var r, u := Tick(w, env, ord).1, SplitOf(w, env).untainted;
            var m := Clamped(env.opts, |u|, w.group.cached, -Decided(w, env).nodes);
            && r.up == NO_UP && r.split == SplitOf(w, env)
            && 0 <= m <= |u| == |ord.oldest| && r.taintPicks == ord.oldest[..m]
  {
    hide Tick;
    hide SplitOf;
    hide Decided;
    hide UsageOf;
    hide JudgedHealthy;
    assert Acts(w, env) && Effective(w, env, ord) == Decided(w, env).nodes;
    assert Shrinkage(w, env, ord) == -Decided(w, env).nodes;
    NoGrowth(w, env, ord);
    ActingIsPlanned(w, env, ord);
    ValidFacts(w, env, ord);
    AlongOldest(env.opts, w.group.cached, env.taintFails, ord.oldest, SplitOf(w, env).untainted,
      Shrinkage(w, env, ord));
    SelectedAtMost(w, env);
    hide Valid;
    hide TaintsAlong;
    hide Clamped;
    hide Shrinkage;
    hide Effective;
    hide ToUntaint;
    hide Asked;
    hide ForceRequest;
    hide ReapRequest;
    hide Outlook;
  }

  // ---------- an idle group ----------

  predicate IdleOptions(o: Options) {
    && ValidThresholds(o) && o.fastRate >= 1 && 0 <= o.minNodes <= o.maxNodes
    && !o.dryMode && o.unhealthyGrace <= 0 && o.maxNodeAge <= 0
  }

  /** Nothing is requested and no taint call fails. */
  ghost predicate QuietInput(env: Input, o: Options) {
    env.opts == o && env.listed && TotalRequest(env.pods) == NOTHING && env.taintFails == {}
  }

  /** Every node has capacity, the cloud group's minimum is the group's own and its target covers
      the untainted nodes. */
  ghost predicate Covered(w: World, o: Options) {
    && UniqueNames(w.nodes)
    && (forall n :: n in w.nodes ==> n.cpu > 0 && n.memory > 0)
    && w.group.cached.minSize == o.minNodes
    && w.group.cached.target >= |UntaintedNodes(w.nodes)| >= o.minNodes
  }

  /** Nothing is requested and no call fails. */
  ghost predicate IdleInput(env: Input, o: Options) {
    QuietInput(env, o) && env.terminateFails == {} && env.deleteFails == {}
  }

  /** Every node also belongs to the freshly described cloud group, whose target covers them all. */
  ghost predicate IdleWorld(w: World, o: Options) {
    && Covered(w, o)
    && (forall n :: n in w.nodes ==> Belongs(w.group.cached, n))
    && w.group.cached.target == w.group.desired >= |w.nodes|
  }

  /** How many nodes an idle tick wants to remove. */
  function IdleRate(o: Options, untainted: int): int {
    if untainted > o.maxNodes then MaxInt(o.fastRate, untainted - o.maxNodes) else o.fastRate
  }

  lemma {:induction false} ZeroRequests(pods: seq<Pod>)
    requires TotalRequest(pods) == NOTHING
    ensures forall p :: p in pods ==> Request(p) == NOTHING
  {
    if pods != [] {
      ZeroRequests(pods[..|pods| - 1]);
      assert pods == pods[..|pods| - 1] + [pods[|pods| - 1]];
    }
  }

  lemma {:induction false} PositiveCapacity(ns: seq<Node>)
    requires ns != [] && forall n :: n in ns ==> n.cpu > 0 && n.memory > 0
    ensures Capacity(ns).cpu > 0 && Capacity(ns).memory > 0
  {
    assert ns[|ns| - 1] in ns;
    if |ns| > 1 {
      PositiveCapacity(ns[..|ns| - 1]);
    }
  }

  lemma IdleUsage(pods: seq<Pod>, ns: seq<Node>)
    requires TotalRequest(pods) == NOTHING
    requires forall n :: n in ns ==> n.cpu > 0 && n.memory > 0
    ensures UsageOf(pods, ns) == Usage(0.0, 0.0)
  {
    if ns != [] {
      PositiveCapacity(ns);
      NothingOf(Capacity(ns));
    }
    hide TotalRequest;
    hide Percent;
  }

  lemma NothingOf(c: Amount)
    requires c.cpu > 0 && c.memory > 0
    ensures Percent(0, c.cpu) == 0.0 && Percent(Milli(0), Milli(c.memory)) == 0.0
  {
  }

  lemma IdleDecision(o: Options, pods: seq<Pod>, untainted: seq<Node>, tainted: seq<Node>, cached: Cached, now: int)
    requires IdleOptions(o) && TotalRequest(pods) == NOTHING
    requires forall n :: n in untainted ==> n.cpu > 0 && n.memory > 0
    ensures !UsageOf(pods, untainted).DivisionByZero?
    ensures Decide(o, pods, untainted, tainted, cached, now) == Delta(-IdleRate(o, |untainted|))
  {
    IdleUsage(pods, untainted);
    ZeroRequests(pods);
    assert !StarvedScale(o, pods, untainted);
    hide UsageOf;
    hide StarvedScale;
  }

  /** Without failures a removal is all or nothing. */
  lemma RemoveAllOrNothing(w: World, env: Input, request: seq<Node>)
    requires Names(request) <= Names(w.nodes) && env.terminateFails == {} && env.deleteFails == {}
    requires forall n :: n in request ==> Belongs(w.group.cached, n)
    ensures var (w1, r) := Remove(w, env, request);
            || (r.terminated == r.deleted == 0 && w1.nodes == w.nodes && w1.group == w.group)
            || (r.terminated == r.deleted == |request| && w1.nodes == Without(w.nodes, Names(request))
                && w1.group.desired == w.group.desired - |request| && w1.group.cached == w.group.cached)
  {
    assert env.terminateFails + Outsiders(w.group.cached, request) == {};
    assert env.deleteFails + (Names(request) - Names(w.nodes)) == {};
    assert request[..|request|] == request && request[..0] == [];
    assert AfterTerminating(w.group, []) == w.group;
    hide Belongs;
    hide InstanceFor;
  }

  /** Conservation: a removal without failures takes as much off the real desired capacity as it
      takes off the API server. */
  lemma RemoveConserves(w: World, env: Input, request: seq<Node>)
    requires UniqueNames(w.nodes) && UniqueNames(request) && Names(request) <= Names(w.nodes)
    requires env.terminateFails == {} && env.deleteFails == {}
    requires forall n :: n in request ==> Belongs(w.group.cached, n)
    ensures var w1 := Remove(w, env, request).0;
            && w1.group.desired - |w1.nodes| == w.group.desired - |w.nodes|
            && w1.group.cached == w.group.cached && UniqueNames(w1.nodes)
            && Names(w1.nodes) >= Names(w.nodes) - Names(request)
            && w1.lock == w.lock
            && forall n :: n in w1.nodes ==> n in w.nodes
  {
    RemoveAllOrNothing(w, env, request);
    RemoveKeepsLock(w, env, request);
    hide Remove;
    CountNames(request);
    WithoutCount(w.nodes, Names(request));
    WithoutUnique(w.nodes, Names(request));
    assert Names(request) * Names(w.nodes) == Names(request);
    StillNamed(w.nodes, Names(request));
  }

  lemma StillNamed(ns: seq<Node>, gone: set<string>)
    ensures Names(Without(ns, gone)) == Names(ns) - gone
  {
    forall x | x in Names(ns) - gone ensures x in Names(Without(ns, gone)) {
      var n :| n in ns && n.name == x;
      assert n in Without(ns, gone);
    }
  }

  /** The same for a whole scale-down tick: both removals conserve, and tainting deletes nothing. */
  lemma DownConserves(w: World, env: Input, ord: Orders, s: Split, delta: int)
    requires InRange(ord.oldest, |s.untainted|) && Distinct(ord.oldest)
    requires InRange(ord.newest, |s.tainted|) && Distinct(ord.newest)
    requires delta < 0 && !env.opts.dryMode && env.terminateFails == {} && env.deleteFails == {}
    requires UniqueNames(w.nodes) && UniqueNames(s.forced) && UniqueNames(s.tainted)
    requires Names(s.forced) <= Names(w.nodes) && Names(s.tainted) <= Names(w.nodes)
             && Names(s.forced) !! Names(s.tainted)
    requires forall n :: n in s.forced || n in s.tainted ==> Belongs(w.group.cached, n)
    ensures var w' := Act(w, env, ord, s, delta, true).0;
            && w'.group.desired - |w'.nodes| == w.group.desired - |w.nodes|
            && w'.group.cached == w.group.cached && w'.lock == w.lock
  {
    var f, g := Candidates(env, s.forced, ForcePass), Candidates(env, s.tainted, ReapPass(true));
    CandidateNames(env, s.forced, ForcePass);
    CandidateNames(env, s.tainted, ReapPass(true));
    C.CandidatesUnique(env, s.forced, ForcePass);
    C.CandidatesUnique(env, s.tainted, ReapPass(true));
    RemoveConserves(w, env, f);
    var w1 := Remove(w, env, f).0;
    RemoveConserves(w1, env, g);
    hide Remove;
    hide Candidates;
    hide TaintPicks;
    hide Belongs;
  }

  lemma IdleSplit(w: World, env: Input)
    requires UniqueNames(w.nodes) && env.opts.unhealthyGrace <= 0 && !env.opts.dryMode
    ensures var s := SplitOf(w, env);
            && Prepared(w, env).nodes == w.nodes
            && UniqueNames(s.forced) && UniqueNames(s.tainted)
            && Names(s.forced) <= Names(w.nodes) && Names(s.tainted) <= Names(w.nodes)
               && Names(s.untainted) <= Names(w.nodes)
            && Names(s.forced) !! Names(s.tainted)
            && (forall n :: n in s.forced || n in s.tainted || n in s.untainted ==> n in w.nodes)
  {
    var m := ModeOf(Prepared(w, env), env.opts);
    C.SelectUnique(w.nodes, m, IsForced);
    C.SelectUnique(w.nodes, m, IsTainted);
    ClassesDisjoint(w.nodes, m, IsForced, IsTainted);
  }

  lemma IdleReaches(w: World, env: Input, ord: Orders, o: Options)
    requires IdleOptions(o) && QuietInput(env, o) && Covered(w, o)
    requires Valid(w, env, ord) && !Held(w.lock, env.now) && (w.nodes != [] || env.pods != [])
    ensures ReachesDecision(w, env, ord)
    ensures var s := SplitOf(w, env);
            Decided(w, env) == Delta(-IdleRate(o, |s.untainted|))
  {
    IdleSplit(w, env);
    SplitIsReal(w, env);
    hide Prepared;
    hide SplitOf;
    var p, s := Prepared(w, env), SplitOf(w, env);
    IdleDecision(o, env.pods, s.untainted, s.tainted, p.cached, env.now);
    hide Decide;
    hide UsageOf;
  }

  /** How many nodes an idle tick taints. */
  lemma IdleAmount(o: Options, u: nat, d: Description)
    requires IdleOptions(o) && d.target >= u >= o.minNodes == d.minSize
    ensures Clamped(o, u, d, IdleRate(o, u)) == u - MaxInt(o.minNodes, u - IdleRate(o, u))
  {
  }

  lemma IdleCount(w: World, env: Input, ord: Orders, o: Options)
    requires IdleOptions(o) && QuietInput(env, o) && Covered(w, o)
    requires Valid(w, env, ord) && !Held(w.lock, env.now) && (w.nodes != [] || env.pods != [])
    ensures var u := |UntaintedNodes(w.nodes)|;
            |UntaintedNodes(Tick(w, env, ord).0.nodes)| == MaxInt(o.minNodes, u - IdleRate(o, u))
  {
    hide Tick;
    hide Prepared;
    hide SplitOf;
    hide Decide;
    IdleReaches(w, env, ord, o);
    ValidFacts(w, env, ord);
    SplitIsReal(w, env);
    SelectedAtMost(w, env);
    hide ReachesDecision;
    hide Valid;
    DecidedDown(w, env, ord);
    ExcessIsTainted(w, env, ord);
    IdleAmount(o, |SplitOf(w, env).untainted|, w.group.cached);
    hide Clamped;
    hide IdleRate;
    hide UntaintedNodes;
  }

  lemma IdleConserves(w: World, env: Input, ord: Orders, o: Options)
    requires IdleOptions(o) && IdleInput(env, o) && IdleWorld(w, o)
    requires Valid(w, env, ord) && !Held(w.lock, env.now) && (w.nodes != [] || env.pods != [])
    ensures var w' := Tick(w, env, ord).0;
            && w'.group.desired - |w'.nodes| == w.group.desired - |w.nodes| && w'.group.cached == w.group.cached
            && w'.lock == Released(w.lock)
  {
    hide Tick;
    hide Act;
    hide Prepared;
    hide SplitOf;
    hide Decide;
    hide JudgedHealthy;
    IdleReaches(w, env, ord, o);
    ActsForm(w, env, ord);
    ValidFacts(w, env, ord);
    hide ReachesDecision;
    hide Valid;
    IdleSplit(w, env);
    SelectedAtMost(w, env);
    var p, s := Prepared(w, env), SplitOf(w, env);
    DownConserves(p.(lock := Released(p.lock)), env, ord, s, Decided(w, env).nodes);
  }

  /** One quiet tick: the untainted count falls by the rate, to no less than the minimum. */
  lemma CoveredTick(w: World, env: Input, ord: Orders, o: Options)
    requires IdleOptions(o) && QuietInput(env, o) && Covered(w, o)
    requires Valid(w, env, ord) && !Held(w.lock, env.now)
    ensures var u := |UntaintedNodes(w.nodes)|;
            |UntaintedNodes(Tick(w, env, ord).0.nodes)| == MaxInt(o.minNodes, u - IdleRate(o, u))
  {
    hide Tick;
    hide UntaintedNodes;
    hide Valid;
    if w.nodes == [] && env.pods == [] {
      IdleEmpty(w, env, ord, o);
    } else {
      IdleCount(w, env, ord, o);
    }
  }

  /** One idle tick: the untainted count falls by the rate, to no less than the minimum; the
      real desired capacity falls with the nodes and the lock stays open. */
  lemma IdleTick(w: World, env: Input, ord: Orders, o: Options)
    requires IdleOptions(o) && IdleInput(env, o) && IdleWorld(w, o)
    requires Valid(w, env, ord) && !Held(w.lock, env.now)
    ensures var w' := Tick(w, env, ord).0;
            var u := |UntaintedNodes(w.nodes)|;
            && |UntaintedNodes(w'.nodes)| == MaxInt(o.minNodes, u - IdleRate(o, u))
            && w'.group.desired - |w'.nodes| == w.group.desired - |w.nodes| && w'.group.cached == w.group.cached
            && w'.lock.lockTime == w.lock.lockTime && w'.lock.minimum == w.lock.minimum
  {
    hide Tick;
    hide UntaintedNodes;
    hide Valid;
    CoveredTick(w, env, ord, o);
    if w.nodes == [] && env.pods == [] {
      IdleEmpty(w, env, ord, o);
    } else {
      IdleConserves(w, env, ord, o);
    }
  }

  lemma IdleEmpty(w: World, env: Input, ord: Orders, o: Options)
    requires IdleOptions(o) && QuietInput(env, o) && Valid(w, env, ord) && w.nodes == [] && env.pods == []
    ensures Tick(w, env, ord).0 == w && |UntaintedNodes(w.nodes)| == 0
  {
    hide Weigh;
  }

  // ---------- idle runs ----------

  /** Between two idle ticks the cloud group is described afresh and nothing else happens. */
  ghost predicate Refreshed(w: World, w': World) {
    && w'.nodes == w.nodes && w'.lock == w.lock && w'.group.desired == w.group.desired
    && w'.group.cached.target == w.group.desired && w'.group.cached.minSize == w.group.cached.minSize
    && forall n :: n in w.nodes ==> Belongs(w'.group.cached, n)
  }

  ghost predicate IdleStep(w: World, env: Input, ord: Orders, w': World, o: Options) {
    IdleInput(env, o) && Valid(w, env, ord) && Refreshed(Tick(w, env, ord).0, w')
  }

  /** An idle run: only the first world and the first tick's lock are constrained. */
  ghost predicate IdleRun(ws: seq<World>, envs: seq<Input>, ords: seq<Orders>, o: Options) {
    && IdleOptions(o) && |ws| == |envs| + 1 == |ords| + 1 && IdleWorld(ws[0], o)
    && (envs != [] ==> !Held(ws[0].lock, envs[0].now))
    && (forall k :: 0 <= k < |envs| ==> IdleStep(ws[k], envs[k], ords[k], ws[k + 1], o))
    && forall i, j :: 0 <= i < j < |envs| ==> envs[i].now <= envs[j].now
  }

  lemma NodesKeepSize(w: World, env: Input, ord: Orders)
    requires Valid(w, env, ord) && !env.opts.dryMode
    requires forall n :: n in w.nodes ==> n.cpu > 0 && n.memory > 0
    ensures forall n :: n in Tick(w, env, ord).0.nodes ==> n.cpu > 0 && n.memory > 0
  {
    hide Tick;
    hide Valid;
    hide Unhealthied;
    TickFates(w, env, ord);
    var (w', r) := Tick(w, env, ord);
    forall n' | n' in w'.nodes ensures n'.cpu > 0 && n'.memory > 0 {
      var n := Origin(w.nodes, env, Unhealthied(w, env), DeletedNames(r.forced) + DeletedNames(r.reaped),
        TaintedNames(r), UntaintedNames(r), n');
    }
  }

  lemma IdleStepKeeps(w: World, env: Input, ord: Orders, w': World, o: Options)
    requires IdleOptions(o) && IdleWorld(w, o) && !Held(w.lock, env.now) && IdleStep(w, env, ord, w', o)
    ensures IdleWorld(w', o)
    ensures w'.group.desired - |w'.nodes| == w.group.desired - |w.nodes|
    ensures w'.lock.lockTime == w.lock.lockTime && w'.lock.minimum == w.lock.minimum
    ensures var u := |UntaintedNodes(w.nodes)|;
            |UntaintedNodes(w'.nodes)| == MaxInt(o.minNodes, u - IdleRate(o, u))
  {
    hide Tick;
    hide Valid;
    hide Belongs;
    IdleTick(w, env, ord, o);
    TickKeepsUnique(w, env, ord);
    NodesKeepSize(w, env, ord);
    FewerUntainted(w'.nodes);
    hide UntaintedNodes;
  }

  lemma FewerUntainted(ns: seq<Node>)
    ensures |UntaintedNodes(ns)| <= |ns|
  {
  }

  lemma {:induction false} IdleInvariant(ws: seq<World>, envs: seq<Input>, ords: seq<Orders>, o: Options, k: nat)
    requires IdleRun(ws, envs, ords, o) && k < |ws|
    ensures IdleWorld(ws[k], o)
    ensures ws[k].group.desired - |ws[k].nodes| == ws[0].group.desired - |ws[0].nodes|
    ensures ws[k].lock.lockTime == ws[0].lock.lockTime && ws[k].lock.minimum == ws[0].lock.minimum
  {
    hide IdleWorld;
    hide IdleStep;
    if k > 0 {
      IdleInvariant(ws, envs, ords, o, k - 1);
      assert IdleStep(ws[k - 1], envs[k - 1], ords[k - 1], ws[k], o);
      IdleStepKeeps(ws[k - 1], envs[k - 1], ords[k - 1], ws[k], o);
    }
  }

  lemma RateStep(o: Options, u0: int, k: nat, before: int, after: int)
    requires IdleOptions(o) && k > 0 && u0 >= o.minNodes
    requires o.minNodes <= before <= MaxInt(o.minNodes, u0 - (k - 1) * o.fastRate)
    requires u0 <= o.maxNodes ==> before == MaxInt(o.minNodes, u0 - (k - 1) * o.fastRate)
    requires after == MaxInt(o.minNodes, before - IdleRate(o, before))
    ensures o.minNodes <= after <= MaxInt(o.minNodes, u0 - k * o.fastRate)
    ensures u0 <= o.maxNodes ==> after == MaxInt(o.minNodes, u0 - k * o.fastRate)
    ensures before > o.minNodes ==> after < before
  {
    assert k * o.fastRate == (k - 1) * o.fastRate + o.fastRate;
    assert (k - 1) * o.fastRate >= 0;
  }

  /** A quiet run: at every tick the target covers the untainted nodes and the lock is open; between
      ticks the untainted nodes stay as they are, and anything else may change. */
  ghost predicate CoveredRun(ws: seq<World>, envs: seq<Input>, ords: seq<Orders>, o: Options) {
    && IdleOptions(o) && |ws| == |envs| + 1 == |ords| + 1
    && forall k :: 0 <= k < |envs| ==> CoveredStep(ws[k], envs[k], ords[k], ws[k + 1], o)
  }

  ghost predicate CoveredStep(w: World, env: Input, ord: Orders, w': World, o: Options) {
    && QuietInput(env, o) && Covered(w, o) && Valid(w, env, ord) && !Held(w.lock, env.now)
    && UntaintedNodes(w'.nodes) == UntaintedNodes(Tick(w, env, ord).0.nodes)
  }

  lemma CoveredOne(ws: seq<World>, envs: seq<Input>, ords: seq<Orders>, o: Options, k: nat)
    requires CoveredRun(ws, envs, ords, o) && k < |envs|
    ensures var u, u' := |UntaintedNodes(ws[k].nodes)|, |UntaintedNodes(ws[k + 1].nodes)|;
            u >= o.minNodes && u' == MaxInt(o.minNodes, u - IdleRate(o, u))
  {
    hide UntaintedNodes;
    hide Tick;
    hide Valid;
    assert CoveredStep(ws[k], envs[k], ords[k], ws[k + 1], o);
    CoveredTick(ws[k], envs[k], ords[k], o);
  }

  /** Convergence. Every tick takes the untainted count down, strictly until it is at the minimum:
      after k ticks it is at most max(MinNodes, u0 - k * Fast), exactly that if the group was not
      over its maximum, and never below MinNodes. */
  lemma {:induction false} CoveredConverges(ws: seq<World>, envs: seq<Input>, ords: seq<Orders>, o: Options, k: nat)
    requires CoveredRun(ws, envs, ords, o) && k < |ws| && |UntaintedNodes(ws[0].nodes)| >= o.minNodes
    ensures var u0, u := |UntaintedNodes(ws[0].nodes)|, |UntaintedNodes(ws[k].nodes)|;
            && o.minNodes <= u <= MaxInt(o.minNodes, u0 - k * o.fastRate)
            && (u0 <= o.maxNodes ==> u == MaxInt(o.minNodes, u0 - k * o.fastRate))
            && (k > 0 && |UntaintedNodes(ws[k - 1].nodes)| > o.minNodes ==> u < |UntaintedNodes(ws[k - 1].nodes)|)
  {
    hide UntaintedNodes;
    hide CoveredStep;
    if k > 0 {
      CoveredConverges(ws, envs, ords, o, k - 1);
      CoveredOne(ws, envs, ords, o, k - 1);
      RateStep(o, |UntaintedNodes(ws[0].nodes)|, k, |UntaintedNodes(ws[k - 1].nodes)|, |UntaintedNodes(ws[k].nodes)|);
    }
  }

  /** In an idle run without failures the target covers the untainted nodes at every tick, and the
      lock stays open. */
  lemma IdleStaysCovered(ws: seq<World>, envs: seq<Input>, ords: seq<Orders>, o: Options)
    requires IdleRun(ws, envs, ords, o)
    ensures CoveredRun(ws, envs, ords, o) && |UntaintedNodes(ws[0].nodes)| >= o.minNodes
  {
    hide UntaintedNodes;
    hide Tick;
    hide Valid;
    hide Belongs;
    forall k | 0 <= k < |envs| ensures CoveredStep(ws[k], envs[k], ords[k], ws[k + 1], o) {
      IdleInvariant(ws, envs, ords, o, k);
      assert IdleStep(ws[k], envs[k], ords[k], ws[k + 1], o);
    }
  }

  /** Idle convergence, from conditions on the first world only. */
  lemma IdleConverges(ws: seq<World>, envs: seq<Input>, ords: seq<Orders>, o: Options, k: nat)
    requires IdleRun(ws, envs, ords, o) && k < |ws|
    ensures var u0, u := |UntaintedNodes(ws[0].nodes)|, |UntaintedNodes(ws[k].nodes)|;
            && o.minNodes <= u <= MaxInt(o.minNodes, u0 - k * o.fastRate)
            && (u0 <= o.maxNodes ==> u == MaxInt(o.minNodes, u0 - k * o.fastRate))
            && (k > 0 && |UntaintedNodes(ws[k - 1].nodes)| > o.minNodes ==> u < |UntaintedNodes(ws[k - 1].nodes)|)
  {
    IdleStaysCovered(ws, envs, ords, o);
    hide IdleRun;
    CoveredConverges(ws, envs, ords, o, k);
  }
}
