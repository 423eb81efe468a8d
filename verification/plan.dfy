/** What a tick is going to do, told from the world, the input and the orders it starts with. The
    functions below name the tick's stages; `TickIsPlanned` says that its report is exactly that. */
module Plans {
  import opened Cluster
  import opened Taints
  import opened Order
  import opened Utilisation
  import opened Decision
  import opened ScaleLocks
  import opened Cloud
  import opened ControlLoop
  import opened TickTheorems

  // ---------- the stages ----------

  /** How many node objects a removal deletes: none unless every instance of the request went. */
  function Deleted(d: Description, request: seq<Node>, env: Input): nat {
    if MayDelete(d, |request|) && Terminated(d, request, env.terminateFails) == |request| then
      DeletedPrefix(request, env.deleteFails)
    else 0
  }

  /** The increase that a scale-up asks for, after untainting `picks`. */
  function AskedFor(d: Description, delta: int, picks: nat): int {
    if delta - picks <= 0 then 0 else MaxInt(0, NodesToAdd(d, delta - picks))
  }

  predicate GrantedTo(g: Group, env: Input, asked: int) {
    asked > 0 && (env.opts.dryMode || IncreaseOk(g, asked, env.answer))
  }

  /** The cloud group after it was asked. */
  function AfterAsking(g: Group, env: Input, asked: int): Group {
    if env.opts.dryMode || asked <= 0 then g else AfterIncrease(g, asked, env.answer)
  }

  /** The tick gets as far as the decision: listed, not below the minimum, usable capacity, unlocked. */
  ghost predicate Reaches(w: World, env: Input) {
    var s := SplitOf(w, env);
    && env.listed && (w.nodes != [] || env.pods != [])
    && |s.untainted| >= env.opts.minNodes
    && !UsageOf(env.pods, s.untainted).DivisionByZero?
    && !Held(w.lock, env.now)
  }

  /** The decision that a tick which reaches it will take. */
  ghost function Decided(w: World, env: Input): Delta
    requires env.opts.scaleUp != 0 && !UsageOf(env.pods, SplitOf(w, env).untainted).DivisionByZero?
  {
    Decide(env.opts, env.pods, SplitOf(w, env).untainted, SplitOf(w, env).tainted, Prepared(w, env).cached, env.now)
  }

  /** The tick gets to remove and to scale. */
  ghost predicate Acts(w: World, env: Input)
    requires env.opts.scaleUp != 0
  {
    Reaches(w, env) && Decided(w, env).Delta?
  }

  /** The delta it acts on: none in a group that is judged unhealthy. */
  ghost function Effective(w: World, env: Input, ord: Orders): int
    requires env.opts.scaleUp != 0 && Acts(w, env) && InRange(ord.health, |w.nodes|)
  {
    if JudgedHealthy(w.nodes, env, ord.health) then Decided(w, env).nodes else 0
  }

  /** There are enough nodes, but too few of them untainted. */
  ghost predicate TooFewUntainted(w: World, env: Input) {
    && env.listed && (w.nodes != [] || env.pods != [])
    && |w.nodes| >= env.opts.minNodes > |SplitOf(w, env).untainted|
  }

  /** How many nodes the tick tries to gain. */
  ghost function Growth(w: World, env: Input, ord: Orders): int
    requires Valid(w, env, ord)
  {
    if TooFewUntainted(w, env) then env.opts.minNodes - |SplitOf(w, env).untainted|
    else if Acts(w, env) && Effective(w, env, ord) > 0 then Effective(w, env, ord)
    else 0
  }

  /** The tainted nodes it untaints. */
  ghost function ToUntaint(w: World, env: Input, ord: Orders): seq<nat>
    requires Valid(w, env, ord)
  {
    UntaintPicks(Prepared(w, env), env, ord.newest, SplitOf(w, env).tainted, Growth(w, env, ord))
  }

  /** How many nodes it asks of the cloud. */
  ghost function Asked(w: World, env: Input, ord: Orders): int
    requires Valid(w, env, ord)
  {
    AskedFor(w.group.cached, Growth(w, env, ord), |ToUntaint(w, env, ord)|)
  }

  /** The cloud gives them. In dry mode it is not asked. */
  ghost predicate Granted(w: World, env: Input, ord: Orders)
    requires Valid(w, env, ord)
  {
    GrantedTo(w.group, env, Asked(w, env, ord))
  }

  /** The nodes that each removal pass asks to delete. */
  ghost function ForceRequest(w: World, env: Input): seq<Node>
    requires env.opts.scaleUp != 0
  {
    if Acts(w, env) then Candidates(env, SplitOf(w, env).forced, ForcePass) else []
  }

  ghost function ReapRequest(w: World, env: Input, ord: Orders): seq<Node>
    requires Valid(w, env, ord)
  {
    if Acts(w, env) && Effective(w, env, ord) <= 0 then
      Candidates(env, SplitOf(w, env).tainted, ReapPass(JudgedHealthy(w.nodes, env, ord.health)))
    else []
  }

  /** How many nodes the tick tries to lose. */
  ghost function Shrinkage(w: World, env: Input, ord: Orders): nat
    requires Valid(w, env, ord)
  {
    if Acts(w, env) && Effective(w, env, ord) < 0 then -Effective(w, env, ord) else 0
  }

  /** The untainted nodes that the scale-down taints: along the order, those whose call succeeds. */
  ghost function ToTaint(w: World, env: Input, ord: Orders): seq<nat>
    requires Valid(w, env, ord)
  {
    if Shrinkage(w, env, ord) > 0 then
      TaintsAlong(env.opts, w.group.cached, env.taintFails, ord.oldest, SplitOf(w, env).untainted,
        Shrinkage(w, env, ord))
    else []
  }

  // ---------- facts about the start of a tick ----------

  lemma ValidFacts(w: World, env: Input, ord: Orders)
    requires Valid(w, env, ord)
    ensures var s := SplitOf(w, env);
            && UniqueNames(w.nodes) && env.opts.scaleUp != 0
            && InRange(ord.oldest, |s.untainted|) && Distinct(ord.oldest) && |ord.oldest| == |s.untainted|
            && InRange(ord.newest, |s.tainted|) && Distinct(ord.newest) && InRange(ord.health, |w.nodes|)
  {
    hide SplitOf;
    PermutationFacts(ord.oldest, |SplitOf(w, env).untainted|);
  }

  lemma SelectedAtMost(w: World, env: Input)
    ensures |SplitOf(w, env).untainted| <= |w.nodes|
    ensures Prepared(w, env).lock == w.lock
    ensures Prepared(w, env).group == w.group
    ensures Prepared(w, env).forceTracker == w.forceTracker
  {
    PreparedGroup(w, env);
    hide Prepared;
  }

  /** The unhealthy pass drops no node. */
  lemma PreparedNames(w: World, env: Input)
    ensures Names(Prepared(w, env).nodes) == Names(w.nodes)
  {
    PreparedNodes(w, env);
    C.SameNames(w.nodes, Prepared(w, env).nodes);
    hide Prepared;
  }

  lemma SplitListed(w: World, env: Input)
    ensures var s := SplitOf(w, env);
            && (forall n :: n in s.untainted || n in s.tainted || n in s.forced ==> n in w.nodes)
            && Names(s.untainted) <= Names(w.nodes) && Names(s.tainted) <= Names(w.nodes)
               && Names(s.forced) <= Names(w.nodes)
  {
    hide Prepared;
  }

  lemma SplitDisjoint(w: World, env: Input)
    requires UniqueNames(w.nodes)
    ensures var s := SplitOf(w, env);
            && Names(s.untainted) !! Names(s.tainted) && Names(s.untainted) !! Names(s.forced)
            && Names(s.tainted) !! Names(s.forced)
  {
    var m := ModeOf(Prepared(w, env), env.opts);
    ClassesDisjoint(w.nodes, m, IsUntainted, IsTainted);
    ClassesDisjoint(w.nodes, m, IsUntainted, IsForced);
    ClassesDisjoint(w.nodes, m, IsTainted, IsForced);
    hide Prepared;
  }

  // ---------- which stage a tick reaches ----------

  /** A tick that gets to act does so on the decision and the health verdict. */
  lemma ActsForm(w: World, env: Input, ord: Orders)
    requires Valid(w, env, ord) && Acts(w, env)
    ensures var s, p := SplitOf(w, env), Prepared(w, env);
            Tick(w, env, ord) ==
            Act(p.(lock := Released(p.lock)), env, ord, s, Decided(w, env).nodes,
              JudgedHealthy(w.nodes, env, ord.health))
  {
    hide Act;
    hide Prepared;
    hide SplitOf;
    hide Decide;
    hide UsageOf;
    hide JudgedHealthy;
    hide Tick;
    SelectedAtMost(w, env);
    ListedForm(w, env, ord);
    hide Valid;
  }

  /** A tick below the minimum only scales up. */
  lemma MinimumForm(w: World, env: Input, ord: Orders)
    requires Valid(w, env, ord) && TooFewUntainted(w, env)
    ensures var u := ScaleUp(Prepared(w, env), env, ord.newest, SplitOf(w, env).tainted, Growth(w, env, ord));
            && Tick(w, env, ord).0 == u.0
            && Tick(w, env, ord).1 == Quiet(BelowMinimum, Growth(w, env, ord), SplitOf(w, env)).(up := u.1)
  {
    hide ScaleUp;
    hide Prepared;
    hide SplitOf;
    hide Tick;
    ListedForm(w, env, ord);
    hide Valid;
  }

  /** Any other tick does nothing but look. */
  lemma RestForm(w: World, env: Input, ord: Orders)
    requires Valid(w, env, ord) && !TooFewUntainted(w, env) && !Acts(w, env)
    ensures var (w', r) := Tick(w, env, ord);
            && w'.group == w.group
            && w'.nodes == (if env.listed then Prepared(w, env) else w).nodes
            && w'.tracker == (if env.listed then Prepared(w, env) else w).tracker
            && w'.cached == (if env.listed then Prepared(w, env) else w).cached && w'.forceTracker == w.forceTracker
            && r == Quiet(r.outcome, r.delta, r.split) && !Acted(r) && (r.outcome, r.delta) == Outlook(w, env, ord)
            && (env.listed ==> r.split == SplitOf(w, env))
            && w'.lock == (if Reaches(w, env) then Released(w.lock) else w.lock)
  {
    hide Prepared;
    hide SplitOf;
    hide Decide;
    hide UsageOf;
    hide Tick;
    hide Act;
    SelectedAtMost(w, env);
    ListedForm(w, env, ord);
    hide Valid;
  }

  // ---------- the stages of an acting tick ----------

  /** One removal, from what it is given. */
  lemma RemovePlan(w: World, env: Input, request: seq<Node>)
    ensures var (w1, r) := Remove(w, env, request);
            && r.request == request && r.terminated == Terminated(w.group.cached, request, env.terminateFails)
            && (Names(request) <= Names(w.nodes) ==> r.deleted == Deleted(w.group.cached, request, env))
            && r.deleted <= r.terminated <= |request|
            && w1.group == AfterTerminating(w.group, request[..r.terminated])
            && w1 == w.(nodes := w1.nodes, group := w1.group)
            && w1.nodes == Without(w.nodes, Names(request[..r.deleted]))
  {
    RemoveShape(w, env, request);
    hide Outsiders;
    if Names(request) <= Names(w.nodes) {
      assert env.deleteFails + (Names(request) - Names(w.nodes)) == env.deleteFails;
    }
  }

  lemma GrowPlan(w: World, env: Input, picks: seq<nat>, left: int)
    requires left > 0
    ensures var (w1, up) := GrowGroup(w, env, picks, left);
            var asked := MaxInt(0, NodesToAdd(w.group.cached, left));
            && up.picks == picks && up.added == (if GrantedTo(w.group, env, asked) then asked else 0)
            && w1.group == AfterAsking(w.group, env, asked)
            && w1.lock == (if GrantedTo(w.group, env, asked) then Taken(w.lock, asked, env.now) else w.lock)
            && up.ok == GrantedTo(w.group, env, asked)
            && w1 == w.(group := w1.group, lock := w1.lock)
  {
    hide IncreaseOk;
    hide AfterIncrease;
  }

  /** A scale-up, from what it is given. */
  lemma ScaleUpPlan(w: World, env: Input, newest: seq<nat>, tainted: seq<Node>, delta: nat)
    requires InRange(newest, |tainted|) && Distinct(newest)
    ensures var (w1, up) := ScaleUp(w, env, newest, tainted, delta);
            var asked := AskedFor(w.group.cached, delta, |UntaintPicks(w, env, newest, tainted, delta)|);
            && up.picks == UntaintPicks(w, env, newest, tainted, delta) && InRange(up.picks, |tainted|)
            && up.added == (if GrantedTo(w.group, env, asked) then asked else 0)
            && w1.group == AfterAsking(w.group, env, asked)
            && w1.lock == (if GrantedTo(w.group, env, asked) then Taken(w.lock, asked, env.now) else w.lock)
            && w1.nodes == AfterUntaint(w, env, At(tainted, up.picks)).nodes
            && w1.tracker == AfterUntaint(w, env, At(tainted, up.picks)).tracker
            && w1.cached == w.cached && w1.forceTracker == w.forceTracker
            && up.ok == (delta <= |up.picks| || GrantedTo(w.group, env, asked))
  {
    ScaleUpForm(w, env, newest, tainted, delta);
    hide ScaleUp;
    hide GrowGroup;
    var p := UntaintPicks(w, env, newest, tainted, delta);
    hide UntaintPicks;
    var w1 := AfterUntaint(w, env, At(tainted, p));
    assert w1.group == w.group && w1.lock == w.lock && w1.cached == w.cached && w1.forceTracker == w.forceTracker;
    hide AfterUntaint;
    hide IncreaseOk;
    hide AfterIncrease;
    if |p| < delta {
      GrowPlan(w1, env, p, delta - |p|);
    }
  }

  /** The cloud group after two removals, both guarded by the same cached description. */
  function AfterRemovals(g: Group, env: Input, f: seq<Node>, r: seq<Node>): Group {
    var g1 := AfterTerminating(g, f[..Terminated(g.cached, f, env.terminateFails)]);
    AfterTerminating(g1, r[..Terminated(g.cached, r, env.terminateFails)])
  }

  lemma NoRemoval(g: Group, env: Input, f: seq<Node>)
    ensures AfterRemovals(g, env, f, []) == AfterTerminating(g, f[..Terminated(g.cached, f, env.terminateFails)])
  {
    var none: seq<Node> := [];
    assert none[..Terminated(g.cached, none, env.terminateFails)] == none;
    NoneTerminated(AfterTerminating(g, f[..Terminated(g.cached, f, env.terminateFails)]), none);
  }

  /** Removing some nodes leaves the others' names in place. */
  lemma StillThere(ns: seq<Node>, kept: seq<Node>, gone: set<string>)
    requires Names(kept) <= Names(ns) && Names(kept) !! gone
    ensures Names(kept) <= Names(Without(ns, gone))
  {
    forall x | x in Names(kept) ensures x in Names(Without(ns, gone)) {
      var n :| n in ns && n.name == x;
      assert n in Without(ns, gone);
    }
  }

  /** A removal among `from` spares the nodes on another list. */
  lemma RemovalSpares(w: World, env: Input, from: seq<Node>, pass: Pass, kept: seq<Node>)
    requires Names(kept) <= Names(w.nodes) && Names(kept) !! Names(from)
    ensures Names(kept) <= Names(Remove(w, env, Candidates(env, from, pass)).0.nodes)
  {
    var request := Candidates(env, from, pass);
    CandidateNames(env, from, pass);
    RemoveShape(w, env, request);
    var (w1, r) := Remove(w, env, request);
    hide Remove;
    hide Candidates;
    DeletedAreRequested(r);
    StillThere(w.nodes, kept, DeletedNames(r));
  }

  /** Who may be untainted does not depend on which other nodes were removed. */
  lemma SameUntaints(w: World, v: World, env: Input, newest: seq<nat>, tainted: seq<Node>, delta: int)
    requires InRange(newest, |tainted|) && w.tracker == v.tracker
    requires Names(tainted) <= Names(w.nodes) && Names(tainted) <= Names(v.nodes)
    ensures UntaintPicks(w, env, newest, tainted, delta) == UntaintPicks(v, env, newest, tainted, delta)
  {
    forall n | n in tainted ensures MayUntaint(w, env, n) <==> MayUntaint(v, env, n) {
      assert n.name in Names(tainted);
    }
    assert UntaintSkips(w, env, tainted) == UntaintSkips(v, env, tainted);
  }

  /** The tainted positions, when every untainted node is still there. */
  function TaintsAlong(o: Options, d: Description, failing: set<string>, oldest: seq<nat>, untainted: seq<Node>,
      wanted: int): seq<nat>
    requires InRange(oldest, |untainted|)
  {
    match TaintAmount(o, |untainted|, d, wanted)
    case None => []
    case Some(n) => Picks(oldest, untainted, if o.dryMode then {} else failing, n)
  }

  lemma PlannedTaints(w: World, env: Input, oldest: seq<nat>, untainted: seq<Node>, wanted: int)
    requires InRange(oldest, |untainted|) && Names(untainted) <= Names(w.nodes)
    ensures TaintPicks(w, env, oldest, untainted, wanted) ==
            TaintsAlong(env.opts, w.group.cached, env.taintFails, oldest, untainted, wanted)
  {
    assert Names(untainted) - Names(w.nodes) == {};
    assert TaintSkips(w, env.opts, untainted, env.taintFails) == if env.opts.dryMode then {} else env.taintFails;
  }

  // ---------- the whole tick ----------

  /** The tracker after tainting or untainting; outside dry mode it is not used. */
  function TrackerAfter(tracker: seq<string>, env: Input, s: Split, taints: seq<nat>, untaints: seq<nat>): seq<string>
    requires InRange(taints, |s.untainted|) && InRange(untaints, |s.tainted|)
  {
    if env.opts.dryMode then Forget(tracker, At(s.tainted, untaints)) + NameList(At(s.untainted, taints)) else tracker
  }

  /** What the tick asks to remove, taints and untaints; whether that leaves it short of nodes, and
      how many it then asks of the cloud. */
  datatype Plan = Plan(forced: seq<Node>, reaped: seq<Node>, taints: seq<nat>, untaints: seq<nat>, short: bool,
    asked: int)

  ghost predicate Follows(w: World, env: Input, s: Split, w': World, r: Report, p: Plan) {
    var d := w.group.cached;
    && r.forced == Removal(p.forced, Terminated(d, p.forced, env.terminateFails), Deleted(d, p.forced, env))
    && r.reaped == Removal(p.reaped, Terminated(d, p.reaped, env.terminateFails), Deleted(d, p.reaped, env))
    && r.taintPicks == p.taints && r.up.picks == p.untaints
    && r.up.added == (if GrantedTo(w.group, env, p.asked) then p.asked else 0)
    && r.up.ok == (!p.short || GrantedTo(w.group, env, p.asked))
    && w'.cached == w.cached && w'.forceTracker == w.forceTracker
    && w'.group == AfterAsking(AfterRemovals(w.group, env, p.forced, p.reaped), env, p.asked)
    && w'.lock == (if GrantedTo(w.group, env, p.asked) then Taken(w.lock, p.asked, env.now) else w.lock)
    && InRange(p.taints, |s.untainted|) && InRange(p.untaints, |s.tainted|)
    && w'.tracker == TrackerAfter(w.tracker, env, s, p.taints, p.untaints)
  }

  lemma TrackerSame(tracker: seq<string>, env: Input, s: Split)
    ensures TrackerAfter(tracker, env, s, [], []) == tracker
  {
    assert NameList(At(s.untainted, [])) == [];
    assert At(s.tainted, []) == [];
  }

  /** The lists of a tick: on different lists different names, all of them on the API server. */
  ghost predicate Parts(w: World, s: Split) {
    && Names(s.untainted) <= Names(w.nodes) && Names(s.tainted) <= Names(w.nodes) && Names(s.forced) <= Names(w.nodes)
    && Names(s.untainted) !! Names(s.tainted) && Names(s.untainted) !! Names(s.forced)
    && Names(s.tainted) !! Names(s.forced)
  }

  lemma ActUpPlan(w: World, env: Input, ord: Orders, s: Split, delta: int)
    requires InRange(ord.oldest, |s.untainted|) && Distinct(ord.oldest)
    requires InRange(ord.newest, |s.tainted|) && Distinct(ord.newest)
    requires Parts(w, s) && delta > 0
    ensures var (w', r) := Act(w, env, ord, s, delta, true);
            var picks := UntaintPicks(w, env, ord.newest, s.tainted, delta);
            var plan := Plan(Candidates(env, s.forced, ForcePass), [], [], picks, |picks| < delta,
              AskedFor(w.group.cached, delta, |picks|));
            && Follows(w, env, s, w', r, plan) && r.outcome == ScaledUp && r.delta == delta && r.healthy && r.split == s
  {
    hide Candidates;
    hide Remove;
    hide ScaleUp;
    hide UntaintPicks;
    hide AfterUntaint;
    hide AfterAsking;
    hide AfterRemovals;
    hide AfterTerminating;
    hide Terminated;
    hide AskedFor;
    hide GrantedTo;
    hide TrackerAfter;
    hide Deleted;
    var f := Candidates(env, s.forced, ForcePass);
    CandidateNames(env, s.forced, ForcePass);
    RemovePlan(w, env, f);
    RemovalSpares(w, env, s.forced, ForcePass, s.tainted);
    var (w1, forced) := Remove(w, env, f);
    SameUntaints(w, w1, env, ord.newest, s.tainted, delta);
    hide Parts;
    hide Names;
    ScaleUpPlan(w1, env, ord.newest, s.tainted, delta);
    NoRemoval(w.group, env, f);
    NothingAsked(w.group, env);
    var picks := UntaintPicks(w, env, ord.newest, s.tainted, delta);
    UpTracker(w1, env, s, picks);
    TerminatingKeeps(w.group, f[..forced.terminated]);
    SameGrant(w.group, env, f, AskedFor(w.group.cached, delta, |picks|));
  }

  lemma TerminatingKeeps(g: Group, ns: seq<Node>)
    ensures AfterTerminating(g, ns).cached == g.cached
  {
  }

  lemma UpTracker(w: World, env: Input, s: Split, picks: seq<nat>)
    requires InRange(picks, |s.tainted|)
    ensures AfterUntaint(w, env, At(s.tainted, picks)).tracker == TrackerAfter(w.tracker, env, s, [], picks)
  {
    assert NameList(At(s.untainted, [])) == [];
  }

  lemma SameGrant(g: Group, env: Input, f: seq<Node>, asked: int)
    ensures GrantedTo(AfterTerminating(g, f[..Terminated(g.cached, f, env.terminateFails)]), env, asked) ==
            GrantedTo(g, env, asked)
  {
    hide Terminated;
  }

  /** Two removals in a row, from what they are given. */
  lemma RemovalsPlan(w: World, env: Input, s: Split, healthy: bool)
    requires Parts(w, s)
    ensures var d, f, g := w.group.cached, Candidates(env, s.forced, ForcePass),
            Candidates(env, s.tainted, ReapPass(healthy));
            var (w1, forced) := Remove(w, env, f);
            var (w2, reaped) := Remove(w1, env, g);
            && forced == Removal(f, Terminated(d, f, env.terminateFails), Deleted(d, f, env))
            && reaped == Removal(g, Terminated(d, g, env.terminateFails), Deleted(d, g, env))
            && w2.group == AfterRemovals(w.group, env, f, g) && w2.lock == w.lock && w2.tracker == w.tracker
            && w2.cached == w.cached && w2.forceTracker == w.forceTracker && w2.group.cached == w.group.cached
  {
    var f, g := Candidates(env, s.forced, ForcePass), Candidates(env, s.tainted, ReapPass(healthy));
    CandidateNames(env, s.forced, ForcePass);
    CandidateNames(env, s.tainted, ReapPass(healthy));
    RemovePlan(w, env, f);
    RemovalSpares(w, env, s.forced, ForcePass, s.tainted);
    var w1 := Remove(w, env, f).0;
    RemovePlan(w1, env, g);
    hide Remove;
    hide Candidates;
    hide Terminated;
    hide Deleted;
  }

  lemma ActDownPlan(w: World, env: Input, ord: Orders, s: Split, delta: int, wanted: nat)
    requires InRange(ord.oldest, |s.untainted|) && Distinct(ord.oldest)
    requires InRange(ord.newest, |s.tainted|) && Distinct(ord.newest)
    requires Parts(w, s) && delta < 0 && wanted == -delta
    ensures var (w', r) := Act(w, env, ord, s, delta, true);
            var f, g := Candidates(env, s.forced, ForcePass), Candidates(env, s.tainted, ReapPass(true));
            var taints := TaintsAlong(env.opts, w.group.cached, env.taintFails, ord.oldest, s.untainted, wanted);
            && Follows(w, env, s, w', r, Plan(f, g, taints, [], false, 0)) && r.outcome == ScaledDown
               && r.delta == delta && r.healthy && r.split == s
  {
    hide Candidates;
    hide Remove;
    hide TaintPicks;
    hide TaintsAlong;
    hide AfterTaint;
    hide AfterRemovals;
    hide Terminated;
    hide Deleted;
    hide TrackerAfter;
    var f, g := Candidates(env, s.forced, ForcePass), Candidates(env, s.tainted, ReapPass(true));
    RemovalsPlan(w, env, s, true);
    RemovalSpares(w, env, s.forced, ForcePass, s.untainted);
    var w1 := Remove(w, env, f).0;
    RemovalSpares(w1, env, s.tainted, ReapPass(true), s.untainted);
    var w2 := Remove(w1, env, g).0;
    hide Parts;
    PlannedTaints(w2, env, ord.oldest, s.untainted, wanted);
    hide Names;
    TaintPicksSound(w2, env, ord.oldest, s.untainted, wanted);
    DownTracker(w2, env, s, TaintPicks(w2, env, ord.oldest, s.untainted, wanted));
    ActDownParts(w, env, ord, s, delta, wanted);
    hide Act;
  }

  lemma ActDownParts(w: World, env: Input, ord: Orders, s: Split, delta: int, wanted: nat)
    requires InRange(ord.oldest, |s.untainted|) && Distinct(ord.oldest)
    requires InRange(ord.newest, |s.tainted|) && Distinct(ord.newest) && delta < 0 && wanted == -delta
    ensures var (w1, forced) := Remove(w, env, Candidates(env, s.forced, ForcePass));
            var (w2, reaped) := Remove(w1, env, Candidates(env, s.tainted, ReapPass(true)));
            var picks := TaintPicks(w2, env, ord.oldest, s.untainted, wanted);
            var (w', r) := Act(w, env, ord, s, delta, true);
            && InRange(picks, |s.untainted|) && w' == AfterTaint(w2, env, At(s.untainted, picks))
            && r == Report(ScaledDown, delta, true, s, forced, reaped, picks, NO_UP)
  {
    hide Remove;
    hide Candidates;
    var w1 := Remove(w, env, Candidates(env, s.forced, ForcePass)).0;
    var w2 := Remove(w1, env, Candidates(env, s.tainted, ReapPass(true))).0;
    TaintPicksSound(w2, env, ord.oldest, s.untainted, wanted);
    hide TaintPicks;
    hide AfterTaint;
  }

  lemma DownTracker(w: World, env: Input, s: Split, picks: seq<nat>)
    requires InRange(picks, |s.untainted|)
    ensures var w' := AfterTaint(w, env, At(s.untainted, picks));
            w'.tracker == TrackerAfter(w.tracker, env, s, picks, [])
              && w' == w.(nodes := w'.nodes, tracker := w'.tracker)
  {
    assert At(s.tainted, []) == [];
  }

  lemma ActRestPlan(w: World, env: Input, ord: Orders, s: Split, delta: int, healthy: bool)
    requires InRange(ord.oldest, |s.untainted|) && Distinct(ord.oldest)
    requires InRange(ord.newest, |s.tainted|) && Distinct(ord.newest)
    requires Parts(w, s) && (healthy ==> delta == 0)
    ensures var (w', r) := Act(w, env, ord, s, delta, healthy);
            var f, g := Candidates(env, s.forced, ForcePass), Candidates(env, s.tainted, ReapPass(healthy));
            && Follows(w, env, s, w', r, Plan(f, g, [], [], false, 0)) && r.outcome == OnlyReaped && r.delta == 0
               && r.healthy == healthy && r.split == s
  {
    var f, g := Candidates(env, s.forced, ForcePass), Candidates(env, s.tainted, ReapPass(healthy));
    RemovalsPlan(w, env, s, healthy);
    TrackerSame(w.tracker, env, s);
    hide Candidates;
    hide Remove;
    hide AfterRemovals;
    hide Terminated;
    hide Deleted;
    hide TrackerAfter;
  }

  /** The plan of a tick. */
  ghost function PlanOf(w: World, env: Input, ord: Orders): Plan
    requires Valid(w, env, ord)
  {
    Plan(ForceRequest(w, env), ReapRequest(w, env, ord), ToTaint(w, env, ord), ToUntaint(w, env, ord),
         |ToUntaint(w, env, ord)| < Growth(w, env, ord), Asked(w, env, ord))
  }

  /** How the tick ends, and the delta it reports. */
  ghost function Outlook(w: World, env: Input, ord: Orders): (Outcome, int)
    requires Valid(w, env, ord)
  {
    var u := |SplitOf(w, env).untainted|;
    if !env.listed then (ListFailed, 0)
    else if w.nodes == [] && env.pods == [] then (NothingToDo, 0)
    else if |w.nodes| < env.opts.minNodes then (TooFewNodes, 0)
    else if u < env.opts.minNodes then (BelowMinimum, env.opts.minNodes - u)
    else if UsageOf(env.pods, SplitOf(w, env).untainted).DivisionByZero? then (NoCapacity, 0)
    else if Held(w.lock, env.now) then (StillLocked, w.lock.requested)
    else if Decided(w, env).NegativeDelta? then (DeltaError, Decided(w, env).nodes)
    else
      var e := Effective(w, env, ord);
      (if e > 0 then ScaledUp else if e < 0 then ScaledDown else OnlyReaped, e)
  }

  /** The world that the action stage starts from. */
  ghost function Start(w: World, env: Input): World {
    (if env.listed then Prepared(w, env) else w).(lock := if Reaches(w, env) then Released(w.lock) else w.lock)
  }

  lemma TickParts(w: World, env: Input, ord: Orders)
    requires Valid(w, env, ord)
    ensures Parts(Prepared(w, env), SplitOf(w, env))
  {
    PreparedNames(w, env);
    SplitListed(w, env);
    SplitDisjoint(w, env);
    hide Prepared;
    hide SplitOf;
  }

  lemma NothingAsked(g: Group, env: Input)
    ensures AfterRemovals(g, env, [], []) == g
    ensures Terminated(g.cached, [], env.terminateFails) == 0 && Deleted(g.cached, [], env) == 0
  {
    NoRemoval(g, env, []);
    NoneTerminated(g, []);
  }

  lemma RestFollows(w: World, env: Input, s: Split, w': World, r: Report)
    requires w'.group == w.group && w'.lock == w.lock && w'.tracker == w.tracker
    requires w'.cached == w.cached && w'.forceTracker == w.forceTracker
    requires r == Quiet(r.outcome, r.delta, r.split)
    ensures Follows(w, env, s, w', r, Plan([], [], [], [], false, 0))
  {
    NothingAsked(w.group, env);
    TrackerSame(w.tracker, env, s);
    hide AfterRemovals;
    hide Terminated;
    hide Deleted;
    hide TrackerAfter;
  }

  lemma MinimumFollows(w: World, env: Input, newest: seq<nat>, s: Split, delta: nat)
    requires InRange(newest, |s.tainted|) && Distinct(newest)
    ensures var (w', up) := ScaleUp(w, env, newest, s.tainted, delta);
            var picks := UntaintPicks(w, env, newest, s.tainted, delta);
            Follows(w, env, s, w', Quiet(BelowMinimum, delta, s).(up := up),
                    Plan([], [], [], picks, |picks| < delta, AskedFor(w.group.cached, delta, |picks|)))
  {
    NothingAsked(w.group, env);
    ScaleUpPlan(w, env, newest, s.tainted, delta);
    UpTracker(w, env, s, UntaintPicks(w, env, newest, s.tainted, delta));
    hide ScaleUp;
    hide UntaintPicks;
    hide AfterUntaint;
    hide AfterRemovals;
    hide Terminated;
    hide Deleted;
    hide TrackerAfter;
    hide AskedFor;
    hide GrantedTo;
    hide AfterAsking;
  }

  lemma NoGrowth(w: World, env: Input, ord: Orders)
    requires Valid(w, env, ord) && Growth(w, env, ord) <= 0
    ensures ToUntaint(w, env, ord) == [] && Asked(w, env, ord) == 0
    ensures |ToUntaint(w, env, ord)| >= Growth(w, env, ord)
  {
    hide Prepared;
    hide SplitOf;
    hide Growth;
    hide UntaintSkips;
  }

  lemma ActingIsPlanned(w: World, env: Input, ord: Orders)
    requires Valid(w, env, ord) && Acts(w, env)
    ensures var (w', r) := Tick(w, env, ord);
            && Follows(Start(w, env), env, SplitOf(w, env), w', r, PlanOf(w, env, ord))
            && r.split == SplitOf(w, env) && r.healthy == JudgedHealthy(w.nodes, env, ord.health)
            && (r.outcome, r.delta) == Outlook(w, env, ord)
            && (Effective(w, env, ord) > 0 ==> r.outcome == ScaledUp)
               && (Effective(w, env, ord) < 0 ==> r.outcome == ScaledDown)
            && (Effective(w, env, ord) == 0 ==> r.outcome == OnlyReaped)
  {
    hide Tick;
    hide Act;
    hide Prepared;
    hide SplitOf;
    hide Decided;
    hide UsageOf;
    hide JudgedHealthy;
    hide Candidates;
    hide Follows;
    hide TaintsAlong;
    hide UntaintPicks;
    ActsForm(w, env, ord);
    TickParts(w, env, ord);
    ValidFacts(w, env, ord);
    SelectedAtMost(w, env);
    var p, s := Prepared(w, env), SplitOf(w, env);
    var p2 := p.(lock := Released(p.lock));
    var e := Effective(w, env, ord);
    assert p2 == Start(w, env);
    assert Parts(p2, s);
    assert !TooFewUntainted(w, env);
    if e > 0 {
      SameUntaints(p, p2, env, ord.newest, s.tainted, e);
      ActUpPlan(p2, env, ord, s, e);
    } else {
      NoGrowth(w, env, ord);
      if e < 0 {
        ActDownPlan(p2, env, ord, s, e, Shrinkage(w, env, ord));
      } else {
        ActRestPlan(p2, env, ord, s, Decided(w, env).nodes, JudgedHealthy(w.nodes, env, ord.health));
      }
    }
  }

  /** The report of a tick, and the cloud group, the lock and the tracker it leaves, are what was
      planned, whatever fails. */
  lemma TickIsPlanned(w: World, env: Input, ord: Orders)
    requires Valid(w, env, ord)
    ensures var (w', r) := Tick(w, env, ord);
            && Follows(Start(w, env), env, SplitOf(w, env), w', r, PlanOf(w, env, ord))
            && (r.outcome, r.delta) == Outlook(w, env, ord)
            && (env.listed ==> r.split == SplitOf(w, env))
            && r.healthy == (Acts(w, env) ==> JudgedHealthy(w.nodes, env, ord.health))
  {
    hide Tick;
    hide Prepared;
    hide SplitOf;
    hide Decided;
    hide UsageOf;
    hide JudgedHealthy;
    hide Follows;
    hide UntaintPicks;
    hide ScaleUp;
    ValidFacts(w, env, ord);
    SelectedAtMost(w, env);
    if Acts(w, env) {
      ActingIsPlanned(w, env, ord);
    } else if TooFewUntainted(w, env) {
      MinimumForm(w, env, ord);
      MinimumFollows(Prepared(w, env), env, ord.newest, SplitOf(w, env), Growth(w, env, ord));
    } else {
      RestForm(w, env, ord);
      NoGrowth(w, env, ord);
      RestFollows(Start(w, env), env, SplitOf(w, env), Tick(w, env, ord).0, Tick(w, env, ord).1);
    }
  }
}
