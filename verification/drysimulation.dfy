/** Dry mode simulates: a dry controller's tracker stands for the taints that a real one, given the
    same cluster, has written, and both decide and pick alike. */
module DrySimulation {
  import opened Cluster
  import opened Taints
  import opened Order
  import opened Pods
  import opened Utilisation
  import opened Decision
  import opened Cloud
  import opened ControlLoop
  import opened TickTheorems
  import opened Plans
  import opened CloudTheorems
  import opened DryRuns

  // ---------- the relation ----------

  /** Not cordoned, and carrying neither escalator taint. */
  predicate Plain(n: Node) {
    !n.unschedulable && !HasTaint(n, TO_BE_FORCE_REMOVED) && !Tainted(n)
  }

  /** The same node object but for its taints. */
  predicate Alike(a: Node, b: Node) {
    a == b.(taints := a.taints)
  }

  ghost predicate AlikeAll(a: seq<Node>, b: seq<Node>) {
    |a| == |b| && forall i :: 0 <= i < |a| ==> Alike(a[i], b[i])
  }

  /** The real node carries one escalator taint if the dry controller tracks it, and none if not. */
  predicate Shows(live: Node, tracked: bool) {
    !HasTaint(live, TO_BE_FORCE_REMOVED) && |Marks(live.taints)| == if tracked then 1 else 0
  }

  ghost predicate MirrorNodes(live: seq<Node>, dry: seq<Node>, tracker: seq<string>) {
    && AlikeAll(live, dry)
    && forall i :: 0 <= i < |dry| ==> Plain(dry[i]) && Shows(live[i], dry[i].name in tracker)
  }

  /** The simulation relation between a real world and a dry one. */
  ghost predicate Mirrors(w: World, v: World) {
    && UniqueNames(v.nodes) && MirrorNodes(w.nodes, v.nodes, v.tracker)
    && NoRepeats(v.tracker) && v.forceTracker == []
    && w.group.cached == v.group.cached && w.lock == v.lock && w.cached == v.cached
  }

  ghost predicate SameSplit(s: Split, z: Split) {
    && AlikeAll(s.untainted, z.untainted) && AlikeAll(s.tainted, z.tainted)
    && s.forced == [] && z.forced == [] && s.cordoned == [] && z.cordoned == []
  }

  /** Everything a dry tick reports is what the real tick reports, except for what it deletes. */
  ghost predicate SameReport(r: Report, q: Report) {
    && r.outcome == q.outcome && r.delta == q.delta && r.healthy == q.healthy && SameSplit(r.split, q.split)
    && r.taintPicks == q.taintPicks && r.up == q.up
  }

  function Real(env: Input): Input {
    env.(opts := env.opts.(dryMode := false))
  }

  /** A dry tick without health checks, in which the corresponding real calls would succeed. */
  predicate Smooth(env: Input) {
    && env.opts.dryMode && env.opts.unhealthyGrace <= 0
    && env.taintFails == {} && env.untaintFails == {}
    && env.answer.setDesiredOk && env.answer.fleet.Fleet? && env.answer.fleet.ready
       && env.answer.fleet.failure.NoFailure?
  }

  // ---------- the same partition ----------

  lemma SameClass(live: Node, dry: Node, tracker: seq<string>, m: Mode)
    requires Alike(live, dry) && Plain(dry) && Shows(live, dry.name in tracker) && !m.dry
    ensures Classify(m, live) == Classify(Mode(true, tracker, []), dry) == if dry.name in tracker then IsTainted
            else IsUntainted
  {
  }

  /** Lists whose nodes are classed alike, position by position. */
  ghost predicate SameClasses(a: seq<Node>, m: Mode, b: seq<Node>, d: Mode) {
    |a| == |b| && forall i :: 0 <= i < |a| ==> Classify(m, a[i]) == Classify(d, b[i])
  }

  lemma AlikeSnoc(a: seq<Node>, b: seq<Node>, x: Node, y: Node)
    requires AlikeAll(a, b) && Alike(x, y)
    ensures AlikeAll(a + [x], b + [y])
  {
    hide Alike;
  }

  lemma {:induction false} SelectAlike(a: seq<Node>, m: Mode, b: seq<Node>, d: Mode, c: Class)
    requires SameClasses(a, m, b, d) && AlikeAll(a, b)
    ensures AlikeAll(Select(a, m, c), Select(b, d, c))
  {
    hide Classify;
    hide Alike;
    if a != [] {
      var k := |a| - 1;
      SelectAlike(a[..k], m, b[..k], d, c);
      AlikeSnoc(Select(a[..k], m, c), Select(b[..k], d, c), a[k], b[k]);
      assert Classify(m, a[k]) == Classify(d, b[k]);
      hide AlikeAll;
      hide SameClasses;
    }
  }

  /** The same partition. */
  lemma SplitAgrees(live: seq<Node>, dry: seq<Node>, tracker: seq<string>, m: Mode)
    requires MirrorNodes(live, dry, tracker) && !m.dry
    ensures SameSplit(FilterNodes(live, m), FilterNodes(dry, Mode(true, tracker, [])))
  {
    var d := Mode(true, tracker, []);
    hide Plain;
    hide Alike;
    hide Shows;
    forall i | 0 <= i < |dry|
      ensures Classify(m, live[i]) == Classify(d, dry[i]) == if dry[i].name in tracker then IsTainted else IsUntainted
    {
      SameClass(live[i], dry[i], tracker, m);
    }
    hide Classify;
    hide Select;
    SelectAlike(live, m, dry, d, IsUntainted);
    SelectAlike(live, m, dry, d, IsTainted);
    hide AlikeAll;
    SelectNone(live, m, IsForced);
    SelectNone(dry, d, IsForced);
    SelectNone(live, m, IsCordoned);
    SelectNone(dry, d, IsCordoned);
  }

  // ---------- the same decision ----------

  lemma AlikeNames(a: seq<Node>, b: seq<Node>)
    requires AlikeAll(a, b)
    ensures Names(a) == Names(b) && (UniqueNames(b) ==> UniqueNames(a))
  {
    C.SameNames(a, b);
  }

  lemma {:induction false} SameCapacity(a: seq<Node>, b: seq<Node>)
    requires AlikeAll(a, b)
    ensures Capacity(a) == Capacity(b)
  {
    if a != [] {
      SameCapacity(a[..|a| - 1], b[..|b| - 1]);
    }
  }

  lemma AlikeMember(a: seq<Node>, b: seq<Node>, n: Node) returns (m: Node)
    requires AlikeAll(a, b) && n in b
    ensures m in a && Alike(m, n)
  {
    var i :| 0 <= i < |b| && b[i] == n;
    m := a[i];
  }

  lemma AlikeSymmetric(a: seq<Node>, b: seq<Node>)
    requires AlikeAll(a, b)
    ensures AlikeAll(b, a)
  {
  }

  lemma StarvedCarries(pods: seq<Pod>, a: seq<Node>, b: seq<Node>)
    requires AlikeAll(a, b) && Starved(pods, a)
    ensures Starved(pods, b)
  {
    forall n | n in b ensures exists m :: m in a && Free(m, pods) == Free(n, pods) {
      var m := AlikeMember(a, b, n);
    }
    hide Free;
    hide AlikeAll;
  }

  lemma AgedCarries(o: Options, a: seq<Node>, b: seq<Node>, now: int)
    requires AlikeAll(a, b) && exists n :: n in a && now - n.created > o.maxNodeAge
    ensures exists n :: n in b && now - n.created > o.maxNodeAge
  {
    AlikeSymmetric(a, b);
    var n :| n in a && now - n.created > o.maxNodeAge;
    var m := AlikeMember(b, a, n);
  }

  lemma SameStarved(pods: seq<Pod>, a: seq<Node>, b: seq<Node>)
    requires AlikeAll(a, b)
    ensures Starved(pods, a) <==> Starved(pods, b)
  {
    AlikeSymmetric(a, b);
    hide Starved;
    hide AlikeAll;
    if Starved(pods, a) {
      StarvedCarries(pods, a, b);
    } else if Starved(pods, b) {
      StarvedCarries(pods, b, a);
    }
  }

  lemma SameAged(o: Options, a: seq<Node>, b: seq<Node>, s: seq<Node>, z: seq<Node>, now: int)
    requires AlikeAll(a, b) && |s| == |z|
    ensures AgedOut(o, a, s, now) <==> AgedOut(o, b, z, now)
  {
    AlikeSymmetric(a, b);
    if AgedOut(o, a, s, now) {
      AgedCarries(o, a, b, now);
    } else if AgedOut(o, b, z, now) {
      AgedCarries(o, b, a, now);
    }
  }

  /** Neither dry mode nor taints are looked at, and of the tainted nodes only how many there are. */
  lemma SameDecision(env: Input, a: seq<Node>, b: seq<Node>, s: seq<Node>, z: seq<Node>, cached: Cached)
    requires AlikeAll(a, b) && |s| == |z| && env.opts.scaleUp != 0
    ensures UsageOf(env.pods, a) == UsageOf(env.pods, b)
    ensures !UsageOf(env.pods, a).DivisionByZero? ==>
            Decide(Real(env).opts, env.pods, a, s, cached, env.now) == Decide(env.opts, env.pods, b, z, cached, env.now)
  {
    SameCapacity(a, b);
    SameStarved(env.pods, a, b);
    SameAged(env.opts, a, b, s, z, env.now);
    assert AgedOut(Real(env).opts, a, s, env.now) == AgedOut(env.opts, a, s, env.now);
    hide Starved;
    hide AgedOut;
    hide Alike;
    hide CalcScaleUpDelta;
    hide CalcPercentUsage;
  }

  // ---------- the same plan ----------

  lemma MirroredNames(w: World, v: World)
    requires Mirrors(w, v)
    ensures UniqueNames(w.nodes) && AlikeAll(w.nodes, v.nodes) && Names(w.nodes) == Names(v.nodes)
  {
    AlikeNames(w.nodes, v.nodes);
    hide Plain;
    hide Shows;
    hide Alike;
  }

  lemma MirrorsPrepare(w: World, v: World, env: Input)
    requires Mirrors(w, v) && Smooth(env)
    ensures Prepared(w, Real(env)).cached == Prepared(v, env).cached
    ensures Prepared(w, Real(env)).nodes == w.nodes && Prepared(v, env).nodes == v.nodes
    ensures Prepared(v, env).tracker == v.tracker && Prepared(v, env).forceTracker == []
  {
    hide Plain;
    hide Shows;
    if v.nodes != [] {
      assert Alike(w.nodes[0], v.nodes[0]);
    }
    hide Alike;
  }

  /** The tick's partitions of mirrored worlds agree, list by list; a tainted node is tracked, and
      its real object is tainted. */
  lemma MirrorsPart(w: World, v: World, env: Input)
    requires Mirrors(w, v) && Smooth(env)
    ensures SameSplit(SplitOf(w, Real(env)), SplitOf(v, env))
    ensures forall n :: n in SplitOf(w, Real(env)).tainted ==> Tainted(n) && n in w.nodes
    ensures forall n :: n in SplitOf(v, env).tainted ==> n.name in v.tracker
    ensures forall n :: n in SplitOf(v, env).untainted ==> n.name !in v.tracker && n in v.nodes
  {
    MirrorsPrepare(w, v, env);
    SplitAgrees(w.nodes, v.nodes, v.tracker, ModeOf(Prepared(w, Real(env)), Real(env).opts));
    hide Prepared;
    hide Mirrors;
    hide SameSplit;
  }

  lemma SameOrders(s: Split, z: Split, ord: Orders)
    requires SameSplit(s, z) && ValidOrders(z, ord)
    ensures ValidOrders(s, ord)
  {
    hide Permutation;
  }

  lemma SameValid(w: World, v: World, env: Input, ord: Orders)
    requires Mirrors(w, v) && Smooth(env) && Valid(v, env, ord)
    ensures Valid(w, Real(env), ord)
  {
    MirroredNames(w, v);
    MirrorsPart(w, v, env);
    SameOrders(SplitOf(w, Real(env)), SplitOf(v, env), ord);
    hide SplitOf;
    hide ValidOrders;
    hide Permutation;
  }

  lemma {:induction false} PicksByName(order: seq<nat>, a: seq<Node>, b: seq<Node>, max: int)
    requires AlikeAll(a, b) && InRange(order, |a|)
    ensures Picks(order, a, {}, max) == Picks(order, b, {}, max)
  {
    if order != [] && max > 0 {
      PicksByName(order[1..], a, b, max - 1);
    }
  }

  /** Both ticks reach the decision or not, and decide the same. */
  lemma SameDecided(w: World, v: World, env: Input)
    requires Mirrors(w, v) && Smooth(env) && env.opts.scaleUp != 0
    ensures var s, z := SplitOf(w, Real(env)), SplitOf(v, env);
            && |s.untainted| == |z.untainted| && |w.nodes| == |v.nodes|
            && UsageOf(env.pods, s.untainted) == UsageOf(env.pods, z.untainted)
            && (!UsageOf(env.pods, z.untainted).DivisionByZero? ==> Decided(w, Real(env)) == Decided(v, env))
    ensures Reaches(w, Real(env)) <==> Reaches(v, env)
    ensures TooFewUntainted(w, Real(env)) <==> TooFewUntainted(v, env)
  {
    hide SplitOf;
    hide Prepared;
    hide Decide;
    hide UsageOf;
    hide Alike;
    hide Plain;
    hide Shows;
    MirrorsPrepare(w, v, env);
    MirrorsPart(w, v, env);
    MirroredNames(w, v);
    var s, z := SplitOf(w, Real(env)), SplitOf(v, env);
    SameDecision(env, s.untainted, z.untainted, s.tainted, z.tainted, Prepared(v, env).cached);
    hide MirrorNodes;
  }

  /** The stages of the two ticks are the same. */
  lemma SameStages(w: World, v: World, env: Input, ord: Orders)
    requires Mirrors(w, v) && Smooth(env) && Valid(v, env, ord) && Valid(w, Real(env), ord)
    ensures Reaches(w, Real(env)) <==> Reaches(v, env)
    ensures Acts(w, Real(env)) <==> Acts(v, env)
    ensures Growth(w, Real(env), ord) == Growth(v, env, ord) && Shrinkage(w, Real(env), ord) == Shrinkage(v, env, ord)
    ensures Outlook(w, Real(env), ord) == Outlook(v, env, ord)
  {
    hide SplitOf;
    hide Decided;
    hide UsageOf;
    hide MirrorNodes;
    SameDecided(w, v, env);
    hide Valid;
    assert Acts(w, Real(env)) <==> Acts(v, env);
    hide NoRepeats;
    SameGrowth(w, v, env, ord);
    SameOutlook(w, v, env, ord);
    hide Growth;
    hide Shrinkage;
    hide Outlook;
  }

  /** What `SameDecided` says, as the later stages use it. */
  ghost predicate StagesMatch(w: World, v: World, env: Input)
    requires env.opts.scaleUp != 0
  {
    var s, z := SplitOf(w, Real(env)), SplitOf(v, env);
    && |s.untainted| == |z.untainted| && |w.nodes| == |v.nodes| && w.lock == v.lock && env.opts.unhealthyGrace <= 0
    && UsageOf(env.pods, s.untainted) == UsageOf(env.pods, z.untainted)
    && (!UsageOf(env.pods, z.untainted).DivisionByZero? ==> Decided(w, Real(env)) == Decided(v, env))
    && (Reaches(w, Real(env)) <==> Reaches(v, env))
    && (TooFewUntainted(w, Real(env)) <==> TooFewUntainted(v, env))
  }

  lemma SameGrowth(w: World, v: World, env: Input, ord: Orders)
    requires Valid(v, env, ord) && Valid(w, Real(env), ord) && StagesMatch(w, v, env)
    ensures Growth(w, Real(env), ord) == Growth(v, env, ord) && Shrinkage(w, Real(env), ord) == Shrinkage(v, env, ord)
  {
    hide SplitOf;
    hide Decided;
    hide UsageOf;
    hide Valid;
  }

  lemma SameOutlook(w: World, v: World, env: Input, ord: Orders)
    requires Valid(v, env, ord) && Valid(w, Real(env), ord) && StagesMatch(w, v, env)
    ensures Outlook(w, Real(env), ord) == Outlook(v, env, ord)
  {
    hide SplitOf;
    hide Decided;
    hide UsageOf;
    hide Valid;
  }

  lemma TaintsByName(env: Input, d: Description, oldest: seq<nat>, a: seq<Node>, b: seq<Node>, wanted: int)
    requires AlikeAll(a, b) && InRange(oldest, |a|) && env.taintFails == {}
    ensures TaintsAlong(Real(env).opts, d, env.taintFails, oldest, a, wanted) ==
            TaintsAlong(env.opts, d, env.taintFails, oldest, b, wanted)
  {
    var amount := TaintAmount(env.opts, |a|, d, wanted);
    assert amount == TaintAmount(Real(env).opts, |a|, d, wanted);
    hide TaintAmount;
    hide Alike;
    if amount.Some? {
      PicksByName(oldest, a, b, amount.value);
    }
    hide Picks;
  }

  /** The same nodes are tainted. */
  lemma SameTaints(w: World, v: World, env: Input, ord: Orders)
    requires Mirrors(w, v) && Smooth(env) && Valid(v, env, ord) && Valid(w, Real(env), ord)
    ensures ToTaint(w, Real(env), ord) == ToTaint(v, env, ord)
  {
    hide SplitOf;
    hide Shrinkage;
    hide TaintsAlong;
    hide MirrorNodes;
    hide AlikeAll;
    SameStages(w, v, env, ord);
    MirrorsPart(w, v, env);
    ValidFacts(v, env, ord);
    ValidFacts(w, Real(env), ord);
    hide Valid;
    TaintsByName(env, v.group.cached, ord.oldest, SplitOf(w, Real(env)).untainted, SplitOf(v, env).untainted,
      Shrinkage(v, env, ord));
  }

  /** The same nodes are untainted. */
  lemma SameUntainted(w: World, v: World, env: Input, ord: Orders)
    requires Mirrors(w, v) && Smooth(env) && Valid(v, env, ord) && Valid(w, Real(env), ord)
    ensures ToUntaint(w, Real(env), ord) == ToUntaint(v, env, ord)
  {
    SameStages(w, v, env, ord);
    MirrorsPart(w, v, env);
    MirrorsPrepare(w, v, env);
    ValidFacts(v, env, ord);
    hide SplitOf;
    hide Growth;
    hide Prepared;
    hide Valid;
    hide Mirrors;
    var s, z := SplitOf(w, Real(env)), SplitOf(v, env);
    assert UntaintSkips(Prepared(w, Real(env)), Real(env), s.tainted) == {};
    assert UntaintSkips(Prepared(v, env), env, z.tainted) == {};
    PicksByName(ord.newest, s.tainted, z.tainted, Growth(v, env, ord));
    hide Picks;
    hide Alike;
    hide UntaintSkips;
  }

  /** As many nodes are asked for, and given. */
  lemma SameAsking(w: World, v: World, env: Input, ord: Orders)
    requires Mirrors(w, v) && Smooth(env) && Valid(v, env, ord) && Valid(w, Real(env), ord)
    ensures Asked(w, Real(env), ord) == Asked(v, env, ord)
    ensures Granted(w, Real(env), ord) <==> Granted(v, env, ord)
  {
    SameStages(w, v, env, ord);
    SameUntainted(w, v, env, ord);
    AskedFits(v, env, ord);
    hide Growth;
    hide ToUntaint;
    hide Valid;
  }

  lemma SameReports(w: World, v: World, env: Input, ord: Orders)
    requires Mirrors(w, v) && Smooth(env) && Valid(v, env, ord) && Valid(w, Real(env), ord)
    ensures SameReport(Tick(w, Real(env), ord).1, Tick(v, env, ord).1)
  {
    hide Tick;
    hide Valid;
    SameStages(w, v, env, ord);
    SameTaints(w, v, env, ord);
    SameUntainted(w, v, env, ord);
    SameAsking(w, v, env, ord);
    MirrorsPart(w, v, env);
    SelectedAtMost(w, Real(env));
    SelectedAtMost(v, env);
    TickIsPlanned(w, Real(env), ord);
    TickIsPlanned(v, env, ord);
    UnlistedSplit(w, Real(env), ord);
    UnlistedSplit(v, env, ord);
    hide Mirrors;
    hide SplitOf;
    hide Prepared;
    hide Asked;
    hide ToTaint;
    hide ToUntaint;
    hide Outlook;
    hide Reaches;
    hide ForceRequest;
    hide ReapRequest;
    hide Growth;
    hide IncreaseOk;
    hide Alike;
  }

  lemma UnlistedSplit(w: World, env: Input, ord: Orders)
    requires Valid(w, env, ord)
    ensures !env.listed ==> Tick(w, env, ord).1.split == Split([], [], [], [])
  {
    hide Weigh;
  }

  // ---------- the same taints afterwards ----------

  lemma UntaintedForce(n: Node)
    requires !HasTaint(n, TO_BE_FORCE_REMOVED)
    ensures !HasTaint(UntaintNode(n), TO_BE_FORCE_REMOVED)
  {
    NoKey(n.taints, TO_BE_FORCE_REMOVED);
    NoKey(UntaintNode(n).taints, TO_BE_FORCE_REMOVED);
    UntaintAddsNothing(n);
  }

  /** What one node shows after a tick that taints the untracked and untaints the tracked. */
  lemma ShowsAfter(live: Node, tracked: bool, taint: bool, untaint: bool, now: nat, effect: string)
    requires Shows(live, tracked) && (taint ==> !tracked) && (untaint ==> tracked)
    ensures var a := if taint then TaintNode(live, now, effect) else live;
            var b := if untaint then UntaintNode(a) else a;
            Shows(b, taint || (tracked && !untaint)) && Alike(b, live)
  {
    TaintedForce(live, now, effect);
    UntaintedForce(live);
    MarksOfTainted(live, now, effect);
    MarksOfUntainted(live);
    hide HasTaint;
    hide Marks;
  }

  lemma MirrorStep(live: seq<Node>, dry: seq<Node>, tracker: seq<string>, t: set<string>, v: set<string>,
      after: seq<string>, now: nat, effect: string)
    requires MirrorNodes(live, dry, tracker)
    requires (forall x :: x in t ==> x !in tracker) && (forall x :: x in v ==> x in tracker)
    requires forall x :: x in after <==> x in t || (x in tracker && x !in v)
    ensures MirrorNodes(UntaintAll(TaintAll(live, t, now, effect), v), dry, after)
  {
    var r := UntaintAll(TaintAll(live, t, now, effect), v);
    hide Plain;
    hide Shows;
    hide TaintNode;
    hide UntaintNode;
    forall i | 0 <= i < |dry| ensures Alike(r[i], dry[i]) && Shows(r[i], dry[i].name in after) {
      var x := dry[i].name;
      assert live[i].name == x;
      ShowsAfter(live[i], x in tracker, x in t, x in v, now, effect);
      assert TaintAll(live, t, now, effect)[i].name == x by {
        assert Alike(live[i], dry[i]);
      }
    }
  }

  lemma TrackedAfter(tracker: seq<string>, env: Input, z: Split, taints: seq<nat>, untaints: seq<nat>, x: string)
    requires env.opts.dryMode && NoRepeats(tracker) && InRange(taints, |z.untainted|) && InRange(untaints, |z.tainted|)
    ensures x in TrackerAfter(tracker, env, z, taints, untaints) <==>
            x in Names(At(z.untainted, taints)) || (x in tracker && x !in Names(At(z.tainted, untaints)))
  {
    ForgetExact(tracker, At(z.tainted, untaints));
    InNameList(At(z.untainted, taints), x);
    hide Forget;
    hide NameList;
    hide NoRepeats;
  }

  lemma InNameList(ns: seq<Node>, x: string)
    ensures x in NameList(ns) <==> x in Names(ns)
  {
    if x in Names(ns) {
      var n :| n in ns && n.name == x;
      var i :| 0 <= i < |ns| && ns[i] == n;
      assert NameList(ns)[i] == x;
    }
  }

  lemma AlikeAt(a: seq<Node>, b: seq<Node>, at: seq<nat>)
    requires AlikeAll(a, b) && InRange(at, |a|)
    ensures Names(At(a, at)) == Names(At(b, at))
  {
    AlikeNames(At(a, at), At(b, at));
  }

  /** The names that a tick taints and untaints. */
  ghost function TaintedBy(w: World, env: Input, ord: Orders): set<string>
    requires Valid(w, env, ord) && InRange(ToTaint(w, env, ord), |SplitOf(w, env).untainted|)
  {
    Names(At(SplitOf(w, env).untainted, ToTaint(w, env, ord)))
  }

  ghost function UntaintedBy(w: World, env: Input, ord: Orders): set<string>
    requires Valid(w, env, ord) && InRange(ToUntaint(w, env, ord), |SplitOf(w, env).tainted|)
  {
    Names(At(SplitOf(w, env).tainted, ToUntaint(w, env, ord)))
  }

  lemma NoneForced(w: World, v: World, env: Input, ord: Orders)
    requires Mirrors(w, v) && Smooth(env) && Valid(w, Real(env), ord)
    ensures Tick(w, Real(env), ord).1.forced.request == []
  {
    hide Tick;
    MirrorsPart(w, v, env);
    TickIsPlanned(w, Real(env), ord);
    hide SplitOf;
    hide Valid;
    hide Acts;
    hide ToTaint;
    hide ToUntaint;
    hide ReapRequest;
    hide Asked;
  }

  /** The nodes after a real tick, in terms of its plan. */
  lemma PlannedNodes(w: World, env: Input, ord: Orders)
    requires Valid(w, env, ord) && !env.opts.dryMode
    ensures var (w', r) := Tick(w, env, ord);
            && InRange(ToTaint(w, env, ord), |SplitOf(w, env).untainted|)
               && InRange(ToUntaint(w, env, ord), |SplitOf(w, env).tainted|)
            && r.forced.deleted <= |r.forced.request| && r.reaped.deleted <= |r.reaped.request|
            && w'.nodes ==
               UntaintAll(TaintAll(Without(TaintAll(w.nodes, Unhealthied(w, env), env.now, env.opts.taintEffect),
                                                       DeletedNames(r.forced) + DeletedNames(r.reaped)),
                                               TaintedBy(w, env, ord), env.now, env.opts.taintEffect),
                                      UntaintedBy(w, env, ord))
  {
    hide Tick;
    hide SplitOf;
    TickFates(w, env, ord);
    TickIsPlanned(w, env, ord);
    UnlistedSplit(w, env, ord);
    if !env.listed {
      NothingPlannedUnlisted(w, env, ord);
      assert At(SplitOf(w, env).untainted, []) == [] && At(SplitOf(w, env).tainted, []) == [];
    }
    hide Valid;
    hide ToTaint;
    hide ToUntaint;
    hide Unhealthied;
    hide DeletedNames;
  }

  lemma NoneDeleted(r: Removal)
    requires r.deleted <= |r.request| && (r.request == [] || r.deleted == 0)
    ensures DeletedNames(r) == {}
  {
    assert r.request[..r.deleted] == [];
  }

  /** The real nodes after a tick: only what was reaped is gone. */
  lemma RealNodes(w: World, v: World, env: Input, ord: Orders)
    requires Mirrors(w, v) && Smooth(env) && Valid(w, Real(env), ord)
    ensures var (w', r) := Tick(w, Real(env), ord);
            && InRange(ToTaint(w, Real(env), ord), |SplitOf(w, Real(env)).untainted|)
            && InRange(ToUntaint(w, Real(env), ord), |SplitOf(w, Real(env)).tainted|)
            && r.reaped.deleted <= |r.reaped.request|
            && w'.nodes == UntaintAll(TaintAll(Without(w.nodes, DeletedNames(r.reaped)),
                                               TaintedBy(w, Real(env), ord), env.now, env.opts.taintEffect),
                                      UntaintedBy(w, Real(env), ord))
  {
    hide Tick;
    hide SplitOf;
    hide TaintedBy;
    hide UntaintedBy;
    hide ToTaint;
    hide ToUntaint;
    hide DeletedNames;
    PlannedNodes(w, Real(env), ord);
    NoneForced(w, v, env, ord);
    hide Valid;
    var r := Tick(w, Real(env), ord).1;
    NoneDeleted(r.forced);
    assert Unhealthied(w, Real(env)) == {};
    assert {} + DeletedNames(r.reaped) == DeletedNames(r.reaped);
    NothingAfter(w.nodes, env.now, env.opts.taintEffect);
  }

  // ---------- one tick ----------

  lemma MirrorPicks(live: seq<Node>, dry: seq<Node>, tracker: seq<string>, env: Input, s: Split, z: Split,
      taints: seq<nat>, untaints: seq<nat>)
    requires MirrorNodes(live, dry, tracker) && SameSplit(s, z) && NoRepeats(tracker) && env.opts.dryMode
    requires InRange(taints, |z.untainted|) && InRange(untaints, |z.tainted|)
    requires InRange(taints, |s.untainted|) && InRange(untaints, |s.tainted|)
    requires forall n :: n in z.untainted ==> n.name !in tracker
    requires forall n :: n in z.tainted ==> n.name in tracker
    ensures MirrorNodes(UntaintAll(TaintAll(live, Names(At(s.untainted, taints)), env.now, env.opts.taintEffect),
            Names(At(s.tainted, untaints))),
                        dry, TrackerAfter(tracker, env, z, taints, untaints))
  {
    hide MirrorNodes;
    hide NoRepeats;
    hide Alike;
    var after := TrackerAfter(tracker, env, z, taints, untaints);
    AlikeAt(s.untainted, z.untainted, taints);
    AlikeAt(s.tainted, z.tainted, untaints);
    var t, u := Names(At(z.untainted, taints)), Names(At(z.tainted, untaints));
    forall x ensures x in after <==> x in t || (x in tracker && x !in u) {
      TrackedAfter(tracker, env, z, taints, untaints, x);
    }
    hide TrackerAfter;
    forall n | n in At(z.untainted, taints) ensures n in z.untainted {}
    forall n | n in At(z.tainted, untaints) ensures n in z.tainted {}
    hide At;
    MirrorStep(live, dry, tracker, t, u, after, env.now, env.opts.taintEffect);
  }

  lemma DryTrackerAfter(v: World, env: Input, ord: Orders)
    requires Valid(v, env, ord) && Smooth(env)
    ensures InRange(ToTaint(v, env, ord), |SplitOf(v, env).untainted|)
            && InRange(ToUntaint(v, env, ord), |SplitOf(v, env).tainted|)
    ensures Tick(v, env, ord).0.tracker ==
            TrackerAfter(v.tracker, env, SplitOf(v, env), ToTaint(v, env, ord), ToUntaint(v, env, ord))
  {
    hide Tick;
    hide SplitOf;
    StartTracker(v, env);
    hide Start;
    TickIsPlanned(v, env, ord);
    hide Valid;
    hide ToTaint;
    hide ToUntaint;
    hide TrackerAfter;
  }

  lemma MirroredAfter(w: World, v: World, env: Input, ord: Orders)
    requires Mirrors(w, v) && Smooth(env) && Valid(v, env, ord) && Valid(w, Real(env), ord)
    requires Tick(w, Real(env), ord).1.reaped.deleted == 0
    ensures MirrorNodes(Tick(w, Real(env), ord).0.nodes, v.nodes, Tick(v, env, ord).0.tracker)
  {
    hide Tick;
    hide SplitOf;
    hide MirrorNodes;
    hide NoRepeats;
    hide TrackerAfter;
    hide DeletedNames;
    hide ToTaint;
    hide ToUntaint;
    MirrorsPart(w, v, env);
    RealNodes(w, v, env, ord);
    DryTrackerAfter(v, env, ord);
    SameTaints(w, v, env, ord);
    SameUntainted(w, v, env, ord);
    hide Valid;
    NoneDeleted(Tick(w, Real(env), ord).1.reaped);
    NothingAfter(w.nodes, env.now, env.opts.taintEffect);
    hide SameSplit;
    MirrorPicks(w.nodes, v.nodes, v.tracker, env, SplitOf(w, Real(env)), SplitOf(v, env), ToTaint(v, env, ord),
      ToUntaint(v, env, ord));
  }

  /** A tick that deletes a node leaves fewer real nodes than dry ones. */
  lemma FewerAfter(w: World, v: World, env: Input, ord: Orders)
    requires Mirrors(w, v) && Smooth(env) && Valid(w, Real(env), ord)
    requires Tick(w, Real(env), ord).1.reaped.deleted > 0
    ensures |Tick(w, Real(env), ord).0.nodes| < |w.nodes|
  {
    hide Tick;
    hide Mirrors;
    hide SplitOf;
    hide ToTaint;
    hide ToUntaint;
    RealNodes(w, v, env, ord);
    TickAccounts(w, Real(env), ord);
    SplitListed(w, Real(env));
    assert UniqueNames(w.nodes);
    hide Valid;
    var r := Tick(w, Real(env), ord).1.reaped;
    var gone := DeletedNames(r);
    var n := r.request[..r.deleted][0];
    assert n in r.request[..r.deleted] && n in r.request;
    hide Candidates;
    assert n in w.nodes && n.name in gone * Names(w.nodes);
    WithoutCount(w.nodes, gone);
    hide Without;
  }

  /** The rest of the relation. */
  lemma OthersAfter(w: World, v: World, env: Input, ord: Orders)
    requires Mirrors(w, v) && Smooth(env) && Valid(v, env, ord) && Valid(w, Real(env), ord)
    ensures var w', v' := Tick(w, Real(env), ord).0, Tick(v, env, ord).0;
            && v'.nodes == v.nodes && v'.forceTracker == [] && NoRepeats(v'.tracker)
            && w'.group.cached == v'.group.cached && w'.lock == v'.lock && w'.cached == v'.cached
  {
    hide Tick;
    hide SplitOf;
    hide NoRepeats;
    hide MirrorNodes;
    DryTickChangesNothing(v, env, ord);
    StartTracker(v, env);
    DryTickTracker(v, env, ord);
    SameStages(w, v, env, ord);
    SameAsking(w, v, env, ord);
    MirrorsPrepare(w, v, env);
    SelectedAtMost(w, Real(env));
    SelectedAtMost(v, env);
    TickIsPlanned(w, Real(env), ord);
    TickIsPlanned(v, env, ord);
    GroupKeeps(w.group, Real(env), ForceRequest(w, Real(env)), ReapRequest(w, Real(env), ord),
      Asked(w, Real(env), ord));
    hide Prepared;
    hide Valid;
    hide Asked;
    hide ToTaint;
    hide ToUntaint;
    hide ForceRequest;
    hide ReapRequest;
    hide Reaches;
    hide AfterRemovals;
    hide AfterAsking;
    hide TrackerAfter;
    hide Outlook;
    hide Growth;
    hide IncreaseOk;
  }

  lemma GroupKeeps(g: Group, env: Input, f: seq<Node>, r: seq<Node>, asked: int)
    ensures AfterAsking(AfterRemovals(g, env, f, r), env, asked).cached == g.cached
  {
    hide Terminated;
  }

  /** How many nodes the real tick is going to delete. */
  ghost function ToDelete(w: World, env: Input, ord: Orders): nat
    requires Valid(w, env, ord)
  {
    Deleted(w.group.cached, ReapRequest(w, env, ord), env)
  }

  lemma DeletesAsPlanned(w: World, env: Input, ord: Orders)
    requires Valid(w, env, ord)
    ensures Tick(w, env, ord).1.reaped.deleted == ToDelete(w, env, ord)
  {
    hide Tick;
    TickIsPlanned(w, env, ord);
    SelectedAtMost(w, env);
    hide Prepared;
    hide Valid;
    hide ReapRequest;
    hide ForceRequest;
    hide ToTaint;
    hide ToUntaint;
    hide Asked;
    hide Deleted;
  }

  /** When a removal deletes anything: exactly when its request is not empty and passes the size
      guards, every node of it is an instance of the group that terminates, and the first node
      object can be deleted. */
  lemma DeletesWhen(d: Description, request: seq<Node>, env: Input)
    ensures Deleted(d, request, env) > 0 <==>
            && request != [] && MayDelete(d, |request|)
            && (forall n :: n in request ==> Belongs(d, n) && n.name !in env.terminateFails)
            && request[0].name !in env.deleteFails
  {
    hide Belongs;
    var refused := env.terminateFails + Outsiders(d, request);
    var k := DeletedPrefix(request, refused);
    if k == |request| {
      forall n | n in request ensures Belongs(d, n) && n.name !in env.terminateFails {
        var i :| 0 <= i < |request| && request[i] == n;
        assert request[i].name !in refused;
      }
    } else {
      var n := request[k];
      assert n in request && n.name in refused;
      if n.name !in env.terminateFails {
        var m :| m in request && !Belongs(d, m) && m.name == n.name;
      }
    }
    hide Outsiders;
  }

  /** A dry tick reports what the real one does, whatever that one deletes; and it keeps the
      simulation, in which the tracker is free of repeats and names exactly the tainted nodes, if
      and only if the real one is not going to delete a node. */
  lemma DryTickSimulates(w: World, v: World, env: Input, ord: Orders)
    requires Mirrors(w, v) && Smooth(env) && Valid(v, env, ord)
    ensures Valid(w, Real(env), ord)
    ensures SameReport(Tick(w, Real(env), ord).1, Tick(v, env, ord).1)
    ensures Mirrors(Tick(w, Real(env), ord).0, Tick(v, env, ord).0) <==> ToDelete(w, Real(env), ord) == 0
  {
    hide Tick;
    hide ToDelete;
    SameValid(w, v, env, ord);
    DeletesAsPlanned(w, Real(env), ord);
    SameReports(w, v, env, ord);
    OthersAfter(w, v, env, ord);
    MirroredNames(w, v);
    if ToDelete(w, Real(env), ord) == 0 {
      MirroredAfter(w, v, env, ord);
    } else {
      FewerAfter(w, v, env, ord);
    }
    hide Valid;
    hide Plain;
    hide Shows;
    hide Alike;
    hide NoRepeats;
  }

  // ---------- whole runs ----------

  /** The node objects of a name that was there: each keeps its escalator taints. */
  ghost predicate Carried(w: World, v: World, a: Node, b: Node) {
    exists j :: 0 <= j < |v.nodes| && j < |w.nodes| && v.nodes[j].name == b.name
                && Marks(a.taints) == Marks(w.nodes[j].taints) && Marks(b.taints) == Marks(v.nodes[j].taints)
  }

  /** The node objects of a name that is new to the group and to the tracker. */
  ghost predicate Joined(v: World, a: Node, b: Node) {
    b.name !in v.tracker && Marks(a.taints) == [] && Marks(b.taints) == []
  }

  /** What happens to both clusters alike between two ticks: nodes join, leave, are listed in another
      order, change readiness, annotations, size or other taints, and the cloud group is described
      afresh, with the same description. None is cordoned or force-tainted, and nobody else writes
      the escalator taint. */
  ghost predicate SharedChange(w: World, v: World, w': World, v': World) {
    && UniqueNames(v'.nodes) && AlikeAll(w'.nodes, v'.nodes)
    && (forall i :: 0 <= i < |v'.nodes| ==>
          && !v'.nodes[i].unschedulable
          && !HasTaint(w'.nodes[i], TO_BE_FORCE_REMOVED) && !HasTaint(v'.nodes[i], TO_BE_FORCE_REMOVED)
          && (Carried(w, v, w'.nodes[i], v'.nodes[i]) || Joined(v, w'.nodes[i], v'.nodes[i])))
    && w' == w.(nodes := w'.nodes, group := w'.group) && v' == v.(nodes := v'.nodes, group := v'.group)
    && w'.group.cached == v'.group.cached
  }

  /** A real and a dry controller, given the same input and the same orders, then the same change. */
  ghost predicate TwinStep(w: World, v: World, env: Input, ord: Orders, w': World, v': World) {
    && Smooth(env) && Valid(v, env, ord)
    && (Valid(w, Real(env), ord) ==> SharedChange(Tick(w, Real(env), ord).0, Tick(v, env, ord).0, w', v'))
  }

  /** Both controllers start on the same untainted nodes with nothing tracked. */
  ghost predicate TwinStart(w: World, v: World) {
    && w.nodes == v.nodes && UniqueNames(v.nodes) && (forall n :: n in v.nodes ==> Plain(n))
    && v.tracker == [] && v.forceTracker == []
    && w.group.cached == v.group.cached && w.lock == v.lock && w.cached == v.cached
  }

  ghost predicate TwinRun(ws: seq<World>, vs: seq<World>, envs: seq<Input>, ords: seq<Orders>) {
    && |ws| == |vs| == |envs| + 1 == |ords| + 1 && TwinStart(ws[0], vs[0])
    && forall k :: 0 <= k < |envs| ==> TwinStep(ws[k], vs[k], envs[k], ords[k], ws[k + 1], vs[k + 1])
  }

  /** No tick before `k` finds the real controller about to delete a node. */
  ghost predicate NoneDeletedBefore(ws: seq<World>, envs: seq<Input>, ords: seq<Orders>, k: nat)
    requires k <= |envs| == |ords| && |envs| < |ws|
  {
    forall j :: 0 <= j < k && Valid(ws[j], Real(envs[j]), ords[j]) ==>
      ToDelete(ws[j], Real(envs[j]), ords[j]) == 0
  }

  lemma ChangeMirrors(w: World, v: World, w': World, v': World)
    requires Mirrors(w, v) && SharedChange(w, v, w', v')
    ensures Mirrors(w', v')
  {
    hide Alike;
    hide HasTaint;
    hide NoRepeats;
    forall i | 0 <= i < |v'.nodes| ensures Plain(v'.nodes[i]) && Shows(w'.nodes[i], v'.nodes[i].name in v'.tracker) {
      if Carried(w, v, w'.nodes[i], v'.nodes[i]) {
        var j :| 0 <= j < |v.nodes| && j < |w.nodes| && v.nodes[j].name == v'.nodes[i].name
                 && Marks(w'.nodes[i].taints) == Marks(w.nodes[j].taints)
                    && Marks(v'.nodes[i].taints) == Marks(v.nodes[j].taints);
        assert Plain(v.nodes[j]) && Shows(w.nodes[j], v.nodes[j].name in v.tracker);
        MarkedIsTainted(v.nodes[j]);
      }
      MarkedIsTainted(v'.nodes[i]);
    }
  }

  lemma MarkedIsTainted(n: Node)
    ensures Tainted(n) <==> Marks(n.taints) != []
  {
  }

  lemma StartMirrors(w: World, v: World)
    requires TwinStart(w, v)
    ensures Mirrors(w, v)
  {
    hide HasTaint;
    forall i | 0 <= i < |v.nodes| ensures Plain(v.nodes[i]) && Shows(w.nodes[i], false) {
      assert v.nodes[i] in v.nodes;
      MarkedIsTainted(v.nodes[i]);
    }
  }

  /** The simulation holds along every pair of runs, until the real controller deletes a node. */
  lemma {:induction false} TwinsMirror(ws: seq<World>, vs: seq<World>, envs: seq<Input>, ords: seq<Orders>, k: nat)
    requires TwinRun(ws, vs, envs, ords) && k <= |envs| && NoneDeletedBefore(ws, envs, ords, k)
    ensures Mirrors(ws[k], vs[k])
  {
    hide Mirrors;
    hide TwinStep;
    hide Valid;
    hide Tick;
    hide ToDelete;
    if k == 0 {
      StartMirrors(ws[0], vs[0]);
    } else {
      var j := k - 1;
      TwinsMirror(ws, vs, envs, ords, j);
      assert TwinStep(ws[j], vs[j], envs[j], ords[j], ws[k], vs[k]);
      TwinsStep(ws[j], vs[j], envs[j], ords[j], ws[k], vs[k]);
    }
  }

  lemma TwinsStep(w: World, v: World, env: Input, ord: Orders, w': World, v': World)
    requires Mirrors(w, v) && TwinStep(w, v, env, ord, w', v')
    ensures Valid(w, Real(env), ord)
    ensures ToDelete(w, Real(env), ord) == 0 ==> Mirrors(w', v')
  {
    hide Tick;
    hide ToDelete;
    DryTickSimulates(w, v, env, ord);
    hide Valid;
    hide Mirrors;
    hide SharedChange;
    if ToDelete(w, Real(env), ord) == 0 {
      ChangeMirrors(Tick(w, Real(env), ord).0, Tick(v, env, ord).0, w', v');
    }
  }

  /** Dry mode simulates real taints, over every run and up to and including the first tick in which
      the real controller deletes a node: each tick finds the same partition, decides the same, and
      picks the same positions to taint and untaint; and a name of the group is tracked, once,
      exactly when the real node of that name is tainted. */
  lemma DryRunSimulates(ws: seq<World>, vs: seq<World>, envs: seq<Input>, ords: seq<Orders>, k: nat)
    requires TwinRun(ws, vs, envs, ords) && k < |envs| && NoneDeletedBefore(ws, envs, ords, k)
    ensures Valid(ws[k], Real(envs[k]), ords[k]) && Valid(vs[k], envs[k], ords[k])
    ensures SameReport(Tick(ws[k], Real(envs[k]), ords[k]).1, Tick(vs[k], envs[k], ords[k]).1)
    ensures NoRepeats(vs[k].tracker)
    ensures forall n :: n in ws[k].nodes ==> (Tainted(n) <==> n.name in vs[k].tracker)
  {
    hide Tick;
    hide Mirrors;
    TwinsMirror(ws, vs, envs, ords, k);
    assert TwinStep(ws[k], vs[k], envs[k], ords[k], ws[k + 1], vs[k + 1]);
    hide TwinRun;
    DryTickSimulates(ws[k], vs[k], envs[k], ords[k]);
    TrackedIffTainted(ws[k], vs[k]);
    hide Valid;
    hide SameReport;
  }

  lemma TrackedIffTainted(w: World, v: World)
    requires Mirrors(w, v)
    ensures NoRepeats(v.tracker) && forall n :: n in w.nodes ==> (Tainted(n) <==> n.name in v.tracker)
  {
    forall i | 0 <= i < |w.nodes| ensures Tainted(w.nodes[i]) <==> w.nodes[i].name in v.tracker {
      assert Alike(w.nodes[i], v.nodes[i]) && Shows(w.nodes[i], v.nodes[i].name in v.tracker);
      MarkedIsTainted(w.nodes[i]);
    }
    hide Tainted;
    hide Shows;
  }
}
