/** No flapping, over two ticks: once a scale-up has what it asked for, the next tick rests. */
module Flapping {
  import opened Cluster
  import opened Taints
  import opened Order
  import opened Pods
  import opened Utilisation
  import opened Decision
  import opened ControlLoop
  import opened TickTheorems
  import opened Plans
  import opened Counts

  /** A group of equal nodes, each tainted at most once, whose size is remembered. */
  ghost predicate EqualGroup(w: World, size: Amount) {
    && Sized(w.nodes, size) && (w.nodes == [] ==> w.cached == size)
    && forall n :: n in w.nodes ==> |Marks(n.taints)| <= 1
  }

  /** A real tick without health checks that scales up because utilisation is above the threshold,
      and gets what it asks for: the cloud's maximum does not get in the way, and no increase fails. */
  ghost predicate ScalesUpInFull(w: World, env: Input, ord: Orders) {
    && Valid(w, env, ord) && !env.opts.dryMode && env.opts.unhealthyGrace <= 0
    && ValidThresholds(env.opts) && env.opts.fastRate >= 0 && env.opts.slowRate >= 0
    && Acts(w, env) && Effective(w, env, ord) > 0
    && Above(UsageOf(env.pods, SplitOf(w, env).untainted), env.opts.scaleUp)
    && Asked(w, env, ord) == Growth(w, env, ord) - |ToUntaint(w, env, ord)|
    && (Asked(w, env, ord) > 0 ==> Granted(w, env, ord))
  }

  /** The world of the next tick: as many new untainted nodes as the tick added, of the same size,
      and nothing else about the untainted ones; any time later, with the same pods and options. */
  ghost predicate Registered(w: World, env: Input, ord: Orders, w': World, env': Input, size: Amount)
    requires Valid(w, env, ord)
  {
    && Sized(w'.nodes, size) && env'.opts == env.opts && env'.pods == env.pods
    && |UntaintedNodes(w'.nodes)| == |UntaintedNodes(Tick(w, env, ord).0.nodes)| + Tick(w, env, ord).1.up.added
  }

  /** None of the overrides applies. */
  ghost predicate NoOverride(w: World, env: Input) {
    var s := SplitOf(w, env);
    && |s.untainted| <= env.opts.maxNodes
    && !StarvedScale(env.opts, env.pods, s.untainted) && !AgedOut(env.opts, s.untainted, s.tainted, env.now)
  }

  // ---------- the first tick ----------

  lemma SplitSized(w: World, env: Input, size: Amount)
    requires Sized(w.nodes, size)
    ensures Sized(SplitOf(w, env).untainted, size)
  {
    SplitListed(w, env);
    hide SplitOf;
  }

  lemma SizeRemembered(w: World, env: Input, size: Amount)
    requires Sized(w.nodes, size) && (w.nodes == [] ==> w.cached == size)
    ensures Prepared(w, env).cached == size
  {
    hide UnhealthyPicks;
    if w.nodes != [] {
      assert w.nodes[0] in w.nodes;
    }
  }

  /** Above the threshold the overrides do not raise the delta; and a group over its maximum would
      not scale up. */
  lemma SwitchDecides(o: Options, pods: seq<Pod>, untainted: seq<Node>, tainted: seq<Node>, cached: Cached, now: int)
    requires ValidThresholds(o) && !UsageOf(pods, untainted).DivisionByZero?
    requires Decide(o, pods, untainted, tainted, cached, now).Delta?
    requires Decide(o, pods, untainted, tainted, cached, now).nodes > 0
    requires SwitchDelta(o, UsageOf(pods, untainted), TotalRequest(pods), |untainted|, cached).nodes >= 1
    ensures Decide(o, pods, untainted, tainted, cached, now) ==
            SwitchDelta(o, UsageOf(pods, untainted), TotalRequest(pods), |untainted|, cached)
  {
    hide SwitchDelta;
    hide UsageOf;
    hide StarvedScale;
    hide AgedOut;
  }

  /** The whole delta is gained: untainted or added. */
  lemma GainsDelta(w: World, env: Input, ord: Orders, size: Amount)
    requires ScalesUpInFull(w, env, ord) && EqualGroup(w, size)
    ensures var (w', r) := Tick(w, env, ord);
            |UntaintedNodes(w'.nodes)| + r.up.added == |SplitOf(w, env).untainted| + Effective(w, env, ord)
  {
    hide Tick;
    hide SplitOf;
    hide Decided;
    hide JudgedHealthy;
    hide UsageOf;
    hide Sized;
    assert Growth(w, env, ord) == Effective(w, env, ord) && ToTaint(w, env, ord) == [];
    UntaintedCount(w, env, ord);
    TickIsPlanned(w, env, ord);
    SelectedAtMost(w, env);
    SplitListed(w, env);
    UntaintsDistinct(w, env, ord);
    hide Valid;
    hide Acts;
    hide Effective;
    hide Growth;
    hide Asked;
    hide ToUntaint;
    hide ToTaint;
    hide Prepared;
    var s, v := SplitOf(w, env), ToUntaint(w, env, ord);
    AllFreed(s, v);
    NothingTainted(w, env, s);
    hide Freed;
    hide NewlyTainted;
  }

  lemma NothingTainted(w: World, env: Input, s: Split)
    requires env.opts.unhealthyGrace <= 0
    ensures NewlyTainted(w, env, s, []) == {}
  {
    assert Unhealthied(w, env) == {};
    assert At(s.untainted, []) == [];
  }

  lemma UntaintsDistinct(w: World, env: Input, ord: Orders)
    requires Valid(w, env, ord)
    ensures Distinct(ToUntaint(w, env, ord)) && UniqueNames(SplitOf(w, env).tainted)
  {
    TickSeparates(w, env, ord);
    TickIsPlanned(w, env, ord);
    C.SelectUnique(w.nodes, ModeOf(Prepared(w, env), env.opts), IsTainted);
    hide Tick;
    hide Prepared;
    hide ToUntaint;
  }

  /** Nodes that carry the taint at most once are all freed. */
  lemma AllFreed(s: Split, untaints: seq<nat>)
    requires UniqueNames(s.tainted) && InRange(untaints, |s.tainted|) && Distinct(untaints)
    requires forall n :: n in s.tainted ==> |Marks(n.taints)| <= 1
    ensures |Freed(s, untaints)| == |untaints|
  {
    var picked := At(s.tainted, untaints);
    AtUnique(s.tainted, untaints);
    forall n | n in picked ensures !Tainted(UntaintNode(n)) {
      assert n in s.tainted;
      MarksOfUntainted(n);
    }
    hide Tainted;
    hide UntaintNode;
    assert Singles(picked) == Names(picked);
  }

  /** The delta is what the switch asks for. */
  lemma DeltaIsSwitched(w: World, env: Input, ord: Orders, size: Amount)
    requires ScalesUpInFull(w, env, ord) && EqualGroup(w, size)
    ensures var u := SplitOf(w, env).untainted;
            && Sized(u, size)
            && Effective(w, env, ord) ==
               SwitchDelta(env.opts, UsageOf(env.pods, u), TotalRequest(env.pods), |u|, size).nodes
  {
    hide SplitOf;
    hide Prepared;
    SplitSized(w, env, size);
    SizeRemembered(w, env, size);
    hide Sized;
    var u, t := SplitOf(w, env).untainted, SplitOf(w, env).tainted;
    UsageOfSized(env.pods, u, size);
    SizedPositive(u, size);
    DeltaIsLeast(env.opts, TotalRequest(env.pods), size, |u|, size);
    hide UsageOf;
    hide SwitchDelta;
    hide JudgedHealthy;
    assert Effective(w, env, ord) == Decided(w, env).nodes;
    SwitchDecides(env.opts, env.pods, u, t, size, env.now);
    hide Decide;
    hide Valid;
    hide Asked;
  }

  lemma SizedPositive(ns: seq<Node>, size: Amount)
    requires Sized(ns, size)
    ensures size.cpu > 0 && size.memory > 0
  {
  }

  // ---------- the second tick ----------

  /** What the second tick decides. */
  lemma DecidesToRest(w: World, env: Input, ord: Orders, w': World, env': Input, size: Amount)
    requires ScalesUpInFull(w, env, ord) && EqualGroup(w, size) && Registered(w, env, ord, w', env', size)
    requires NoOverride(w', env')
    ensures var u' := SplitOf(w', env').untainted;
            && |u'| == |SplitOf(w, env).untainted| + Effective(w, env, ord)
            && !UsageOf(env'.pods, u').DivisionByZero?
            && Decided(w', env').Delta? && Decided(w', env').nodes <= 0
            && (|u'| * (env.opts.scaleUp - env.opts.taintUpper) >= env.opts.scaleUp ==> Decided(w', env') == Delta(0))
  {
    hide Tick;
    hide SplitOf;
    hide Prepared;
    hide UsageOf;
    hide SwitchDelta;
    hide Sized;
    hide UntaintedNodes;
    hide StarvedScale;
    hide AgedOut;
    GainsDelta(w, env, ord, size);
    DeltaIsSwitched(w, env, ord, size);
    hide Effective;
    SplitIsReal(w', env');
    SplitSized(w', env', size);
    var u, u', t' := SplitOf(w, env).untainted, SplitOf(w', env').untainted, SplitOf(w', env').tainted;
    assert w'.nodes != [] by {
      SelectedAtMost(w', env');
    }
    SizeRemembered(w', env', size);
    NextDecisionIsQuiet(env.opts, env.pods, u, u', t', size, size, env'.now);
    hide Decide;
    hide Valid;
  }

  /** No flapping: after a scale-up in full, with the nodes it added registered and requests
      unchanged, the next tick does not scale up; and it taints nothing either if the group has
      scaleUp / (scaleUp - taintUpper) nodes or more. */
  lemma NextTickRests(w: World, env: Input, ord: Orders, w': World, env': Input, ord': Orders, size: Amount)
    requires ScalesUpInFull(w, env, ord) && EqualGroup(w, size) && Registered(w, env, ord, w', env', size)
    requires Valid(w', env', ord') && NoOverride(w', env')
    ensures var r := Tick(w', env', ord').1;
            && r.outcome != ScaledUp && r.up.picks == [] && r.up.added == 0
            && (|SplitOf(w', env').untainted| * (env.opts.scaleUp - env.opts.taintUpper) >= env.opts.scaleUp ==>
               r.taintPicks == [])
  {
    hide Tick;
    hide SplitOf;
    hide UsageOf;
    hide Decided;
    DecidesToRest(w, env, ord, w', env', size);
    assert !TooFewUntainted(w', env');
    assert Acts(w', env') ==> Effective(w', env', ord') <= 0;
    NoGrowth(w', env', ord');
    TickIsPlanned(w', env', ord');
    hide NoOverride;
    hide Registered;
    hide EqualGroup;
    hide Asked;
    hide ToUntaint;
    hide ForceRequest;
    hide ReapRequest;
    hide JudgedHealthy;
    hide Valid;
  }
}
