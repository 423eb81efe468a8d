/** What every tick guarantees, whatever the input, the failures and the sort orders. */
module TickTheorems {
  import opened Cluster
  import opened Taints
  import opened Order
  import opened Decision
  import opened Health
  import opened ScaleLocks
  import opened Cloud
  import opened ControlLoop
  import C = Controllers

  // ---------- the partition ----------

  /** Filtering is order-preserving: it distributes over concatenation. */
  lemma {:induction false} SelectAppend(a: seq<Node>, b: seq<Node>, m: Mode, c: Class)
    ensures Select(a + b, m, c) == Select(a, m, c) + Select(b, m, c)
  {
    if b == [] {
      assert a + b == a;
    } else {
      var init, last := b[..|b| - 1], b[|b| - 1];
      SelectAppend(a, init, m, c);
      hide Select;
      assert b == init + [last];
      SelectAppendOne(a, init, last, m, c);
    }
  }

  lemma SelectAppendOne(a: seq<Node>, b: seq<Node>, n: Node, m: Mode, c: Class)
    requires Select(a + b, m, c) == Select(a, m, c) + Select(b, m, c)
    ensures Select(a + (b + [n]), m, c) == Select(a, m, c) + Select(b + [n], m, c)
  {
    hide Select;
    hide Classify;
    SelectSnoc(a + b, n, m, c);
    SelectSnoc(b, n, m, c);
    Associate(a, b, [n]);
    if Classify(m, n) == c {
      Associate(Select(a, m, c), Select(b, m, c), [n]);
    }
  }

  lemma Associate(a: seq<Node>, b: seq<Node>, c: seq<Node>)
    ensures a + (b + c) == (a + b) + c
  {
  }

  lemma SelectSnoc(ns: seq<Node>, n: Node, m: Mode, c: Class)
    ensures Select(ns + [n], m, c) == if Classify(m, n) == c then Select(ns, m, c) + [n] else Select(ns, m, c)
  {
    hide Classify;
    assert (ns + [n])[..|ns|] == ns;
  }

  lemma {:induction false} SelectNone(ns: seq<Node>, m: Mode, c: Class)
    requires forall i :: 0 <= i < |ns| ==> Classify(m, ns[i]) != c
    ensures Select(ns, m, c) == []
  {
    hide Classify;
    if ns != [] {
      SelectNone(ns[..|ns| - 1], m, c);
    }
  }

  lemma {:induction false} SelectAll(ns: seq<Node>, m: Mode, c: Class)
    requires forall i :: 0 <= i < |ns| ==> Classify(m, ns[i]) == c
    ensures Select(ns, m, c) == ns
  {
    hide Classify;
    if ns != [] {
      SelectAll(ns[..|ns| - 1], m, c);
    }
  }

  /** The four lists hold every node of the snapshot once, and nothing else. */
  lemma {:induction false} PartitionIsExact(ns: seq<Node>, m: Mode)
    ensures var s := FilterNodes(ns, m);
            multiset(s.untainted) + multiset(s.tainted) + multiset(s.forced) + multiset(s.cordoned) == multiset(ns)
  {
    if ns != [] {
      hide Classify;
      var init, last := ns[..|ns| - 1], ns[|ns| - 1];
      PartitionIsExact(init, m);
      assert ns == init + [last];
      SelectSnoc(init, last, m, IsUntainted);
      SelectSnoc(init, last, m, IsTainted);
      SelectSnoc(init, last, m, IsForced);
      SelectSnoc(init, last, m, IsCordoned);
      hide Select;
    }
  }

  /** Nodes on different lists have different names. */
  lemma ClassesDisjoint(ns: seq<Node>, m: Mode, a: Class, b: Class)
    requires UniqueNames(ns) && a != b
    ensures Names(Select(ns, m, a)) !! Names(Select(ns, m, b))
  {
    forall x, y | x in Select(ns, m, a) && y in Select(ns, m, b) ensures x.name != y.name {
      if x.name == y.name {
        UniqueByName(ns, x, y);
      }
    }
  }

  // ---------- the cases of a tick ----------

  /** The cases of a tick, up to the partition. */
  lemma ListedForm(w: World, env: Input, ord: Orders)
    requires Valid(w, env, ord)
    ensures var t, p, s := Tick(w, env, ord), Prepared(w, env), SplitOf(w, env);
            && InRange(ord.oldest, |s.untainted|) && Distinct(ord.oldest) && InRange(ord.newest, |s.tainted|)
               && Distinct(ord.newest)
            && InRange(ord.health, |w.nodes|) && env.opts.scaleUp != 0
            && (!env.listed ==> t == (w, Quiet(ListFailed, 0, Split([], [], [], []))))
            && (env.listed && w.nodes == [] && env.pods == [] ==> t == (p, Quiet(NothingToDo, 0, s)))
            && (env.listed && !(w.nodes == [] && env.pods == []) && |w.nodes| < env.opts.minNodes ==>
               t == (p, Quiet(TooFewNodes, 0, s)))
            && (env.listed && !(w.nodes == [] && env.pods == []) && |w.nodes| >= env.opts.minNodes ==>
               t == Weigh(p, env, ord, s, w.nodes))
  {
    hide Prepared;
    hide SplitOf;
    hide Weigh;
  }

  // ---------- what a tick does to the API server ----------

  /** The names that a tick's unhealthy pass taints. */
  function UnhealthyNames(w: World, env: Input): set<string> {
    UnhealthyPicksInRange(w, env);
    Names(At(w.nodes, UnhealthyPicks(w, env)))
  }

  function DeletedNames(r: Removal): set<string>
    requires r.deleted <= |r.request|
  {
    Names(r.request[..r.deleted])
  }

  ghost predicate WellFormed(r: Report) {
    && InRange(r.taintPicks, |r.split.untainted|) && Distinct(r.taintPicks)
    && InRange(r.up.picks, |r.split.tainted|) && Distinct(r.up.picks)
    && r.forced.deleted <= r.forced.terminated <= |r.forced.request|
    && r.reaped.deleted <= r.reaped.terminated <= |r.reaped.request|
    && (r.forced.deleted > 0 ==> r.forced.terminated == |r.forced.request|)
    && (r.reaped.deleted > 0 ==> r.reaped.terminated == |r.reaped.request|)
    && (r.taintPicks == [] || r.up.picks == [])
  }

  function TaintedNames(r: Report): set<string>
    requires InRange(r.taintPicks, |r.split.untainted|)
  {
    Names(At(r.split.untainted, r.taintPicks))
  }

  function UntaintedNames(r: Report): set<string>
    requires InRange(r.up.picks, |r.split.tainted|)
  {
    Names(At(r.split.tainted, r.up.picks))
  }

  /** `after` is `ns` without the removed nodes, with the picked ones tainted or untainted. */
  ghost predicate Explained(ns: seq<Node>, env: Input, after: seq<Node>, r: Report) {
    && WellFormed(r)
    && (!env.opts.dryMode ==>
        after == UntaintAll(TaintAll(Without(ns, DeletedNames(r.forced) + DeletedNames(r.reaped)),
                                     TaintedNames(r), env.now, env.opts.taintEffect),
                            UntaintedNames(r)))
  }

  lemma NothingAfter(ns: seq<Node>, now: nat, effect: string)
    ensures Names([]) == {}
    ensures TaintAll(ns, {}, now, effect) == ns && UntaintAll(ns, {}) == ns && Without(ns, {}) == ns
  {
    WithoutNothing(ns, {});
  }

  lemma RemoveShape(w: World, env: Input, request: seq<Node>)
    ensures var (w1, r) := Remove(w, env, request);
            && r.request == request && r.deleted <= r.terminated <= |request|
            && (r.deleted > 0 ==> r.terminated == |request|)
            && w1.nodes == Without(w.nodes, DeletedNames(r))
            && w1.group == AfterTerminating(w.group, request[..r.terminated])
            && w1 == w.(nodes := w1.nodes, group := w1.group)
  {
    WithoutNothing(w.nodes, Names(request[..0]));
    var none: seq<Node> := [];
    assert request[..0] == none;
  }

  lemma ScaleUpShape(w: World, env: Input, newest: seq<nat>, tainted: seq<Node>, delta: int)
    requires InRange(newest, |tainted|) && Distinct(newest)
    ensures var (w1, up) := ScaleUp(w, env, newest, tainted, delta);
            && up.picks == UntaintPicks(w, env, newest, tainted, delta)
            && InRange(up.picks, |tainted|) && Distinct(up.picks)
            && w1.nodes == AfterUntaint(w, env, At(tainted, up.picks)).nodes
            && w1.tracker == AfterUntaint(w, env, At(tainted, up.picks)).tracker
            && w1.forceTracker == w.forceTracker && w1.cached == w.cached
  {
    PicksSound(newest, tainted, UntaintSkips(w, env, tainted), delta);
  }

  lemma ScaleUpForm(w: World, env: Input, newest: seq<nat>, tainted: seq<Node>, delta: nat)
    requires InRange(newest, |tainted|) && Distinct(newest)
    ensures var p := UntaintPicks(w, env, newest, tainted, delta);
            && InRange(p, |tainted|)
            && (|p| >= delta ==>
               ScaleUp(w, env, newest, tainted, delta) == (AfterUntaint(w, env, At(tainted, p)), Up(p, 0, true)))
            && (|p| < delta ==> ScaleUp(w, env, newest, tainted, delta) ==
                                GrowGroup(AfterUntaint(w, env, At(tainted, p)), env, p, delta - |p|))
  {
    PicksSound(newest, tainted, UntaintSkips(w, env, tainted), delta);
    hide UntaintSkips;
    hide GrowGroup;
    hide AfterUntaint;
  }

  /** What the action stage does to the nodes `ns` that the force removal left. */
  ghost predicate Explains(ns: seq<Node>, env: Input, after: seq<Node>, r: Report) {
    && WellFormed(r)
    && (!env.opts.dryMode ==>
        after == UntaintAll(TaintAll(Without(ns, DeletedNames(r.reaped)), TaintedNames(r), env.now,
          env.opts.taintEffect),
                            UntaintedNames(r)))
  }

  ghost predicate GoodRemoval(r: Removal) {
    r.deleted <= r.terminated <= |r.request| && (r.deleted > 0 ==> r.terminated == |r.request|)
  }

  lemma ExplainUp(w: World, env: Input, newest: seq<nat>, s: Split, d: int, r: Report)
    requires InRange(newest, |s.tainted|) && Distinct(newest)
    requires r.split == s && r.up == ScaleUp(w, env, newest, s.tainted, d).1 && GoodRemoval(r.forced)
    requires r.reaped == NO_REMOVAL && r.taintPicks == []
    ensures Explains(w.nodes, env, ScaleUp(w, env, newest, s.tainted, d).0.nodes, r)
  {
    ScaleUpShape(w, env, newest, s.tainted, d);
    NothingAfter(w.nodes, env.now, env.opts.taintEffect);
    assert DeletedNames(r.reaped) == {} && TaintedNames(r) == {};
  }

  lemma ExplainReap(w: World, env: Input, request: seq<Node>, r: Report)
    requires r.reaped == Remove(w, env, request).1 && GoodRemoval(r.forced)
    requires r.taintPicks == [] && r.up == NO_UP
    ensures Explains(w.nodes, env, Remove(w, env, request).0.nodes, r)
  {
    RemoveShape(w, env, request);
    NothingAfter(Remove(w, env, request).0.nodes, env.now, env.opts.taintEffect);
    assert UntaintedNames(r) == {} && TaintedNames(r) == {};
  }

  lemma ExplainDown(w: World, env: Input, oldest: seq<nat>, s: Split, wanted: int, r: Report)
    requires InRange(oldest, |s.untainted|) && Distinct(oldest)
    requires r.split == s && r.up == NO_UP && GoodRemoval(r.forced)
    requires r.reaped == ScaleDown(w, env, oldest, s, wanted).1
             && r.taintPicks == ScaleDown(w, env, oldest, s, wanted).2
    ensures Explains(w.nodes, env, ScaleDown(w, env, oldest, s, wanted).0.nodes, r)
  {
    var request := Candidates(env, s.tainted, ReapPass(true));
    RemoveShape(w, env, request);
    var w1 := Remove(w, env, request).0;
    TaintPicksSound(w1, env, oldest, s.untainted, wanted);
    NothingAfter(ScaleDown(w, env, oldest, s, wanted).0.nodes, env.now, env.opts.taintEffect);
    assert UntaintedNames(r) == {};
  }

  lemma ExplainPerform(w: World, env: Input, ord: Orders, s: Split, d: int, healthy: bool, forced: Removal)
    requires InRange(ord.oldest, |s.untainted|) && Distinct(ord.oldest)
    requires InRange(ord.newest, |s.tainted|) && Distinct(ord.newest)
    requires GoodRemoval(forced)
    ensures var (w1, r) := Perform(w, env, ord, s, d, healthy, forced);
            Explains(w.nodes, env, w1.nodes, r)
  {
    hide ScaleUp;
    hide ScaleDown;
    hide Remove;
    hide Explains;
    var r := Perform(w, env, ord, s, d, healthy, forced).1;
    if d > 0 {
      ExplainUp(w, env, ord.newest, s, d, r);
    } else if d < 0 {
      ExplainDown(w, env, ord.oldest, s, -d, r);
    } else {
      ExplainReap(w, env, Candidates(env, s.tainted, ReapPass(healthy)), r);
    }
  }

  lemma ExplainAct(w: World, env: Input, ord: Orders, s: Split, delta: int, healthy: bool)
    requires InRange(ord.oldest, |s.untainted|) && Distinct(ord.oldest)
    requires InRange(ord.newest, |s.tainted|) && Distinct(ord.newest)
    ensures var (w1, r) := Act(w, env, ord, s, delta, healthy);
            Explained(w.nodes, env, w1.nodes, r)
  {
    var request := Candidates(env, s.forced, ForcePass);
    RemoveShape(w, env, request);
    hide Remove;
    hide Candidates;
    var (w1, forced) := Remove(w, env, request);
    var d := if healthy then delta else 0;
    ExplainPerform(w1, env, ord, s, d, healthy, forced);
    PerformKeepsForced(w1, env, ord, s, d, healthy, forced);
    hide Perform;
    var r := Perform(w1, env, ord, s, d, healthy, forced).1;
    WithoutTwice(w.nodes, DeletedNames(forced), DeletedNames(r.reaped));
  }

  lemma PerformKeepsForced(w: World, env: Input, ord: Orders, s: Split, d: int, healthy: bool, forced: Removal)
    requires InRange(ord.oldest, |s.untainted|) && Distinct(ord.oldest)
    requires InRange(ord.newest, |s.tainted|) && Distinct(ord.newest)
    ensures Perform(w, env, ord, s, d, healthy, forced).1.forced == forced
    ensures Perform(w, env, ord, s, d, healthy, forced).1.split == s
  {
    hide ScaleUp;
    hide ScaleDown;
    hide Remove;
  }

  lemma ExplainQuiet(ns: seq<Node>, env: Input, outcome: Outcome, delta: int, s: Split)
    ensures Explained(ns, env, ns, Quiet(outcome, delta, s))
  {
    NothingAfter(ns, env.now, env.opts.taintEffect);
    var r := Quiet(outcome, delta, s);
    assert DeletedNames(r.forced) + DeletedNames(r.reaped) == {};
    assert TaintedNames(r) == {} && UntaintedNames(r) == {};
  }

  lemma ExplainMinimum(w: World, env: Input, newest: seq<nat>, s: Split, d: int, r: Report)
    requires InRange(newest, |s.tainted|) && Distinct(newest)
    requires r.split == s && r.up == ScaleUp(w, env, newest, s.tainted, d).1
    requires r.forced == NO_REMOVAL && r.reaped == NO_REMOVAL && r.taintPicks == []
    ensures Explained(w.nodes, env, ScaleUp(w, env, newest, s.tainted, d).0.nodes, r)
  {
    ExplainUp(w, env, newest, s, d, r);
    assert DeletedNames(r.forced) + DeletedNames(r.reaped) == DeletedNames(r.reaped);
  }

  lemma ExplainWeigh(w: World, env: Input, ord: Orders, s: Split, ns: seq<Node>)
    requires InRange(ord.oldest, |s.untainted|) && Distinct(ord.oldest)
    requires InRange(ord.newest, |s.tainted|) && Distinct(ord.newest)
    requires InRange(ord.health, |ns|) && env.opts.scaleUp != 0
    ensures var (w1, r) := Weigh(w, env, ord, s, ns);
            Explained(w.nodes, env, w1.nodes, r)
  {
    hide ScaleUp;
    hide Act;
    hide UsageOf;
    hide Decide;
    hide JudgedHealthy;
    hide Explained;
    var r := Weigh(w, env, ord, s, ns).1;
    if |s.untainted| < env.opts.minNodes {
      ExplainMinimum(w, env, ord.newest, s, env.opts.minNodes - |s.untainted|, r);
    } else if UsageOf(env.pods, s.untainted).DivisionByZero? {
      ExplainQuiet(w.nodes, env, NoCapacity, 0, s);
    } else if Held(w.lock, env.now) {
      ExplainQuiet(w.nodes, env, StillLocked, w.lock.requested, s);
    } else {
      var w2 := w.(lock := Released(w.lock));
      var d := Decide(env.opts, env.pods, s.untainted, s.tainted, w2.cached, env.now);
      ExplainQuiet(w.nodes, env, DeltaError, d.nodes, s);
      ExplainAct(w2, env, ord, s, d.nodes, JudgedHealthy(ns, env, ord.health));
    }
  }

  /** The nodes as the unhealthy pass leaves them. */
  function AfterUnhealthyPass(w: World, env: Input): seq<Node> {
    if env.listed then TaintAll(w.nodes, UnhealthyNames(w, env), env.now, env.opts.taintEffect) else w.nodes
  }

  lemma PreparedNodes(w: World, env: Input)
    ensures env.opts.dryMode ==> Prepared(w, env).nodes == w.nodes
    ensures !env.opts.dryMode ==>
            Prepared(w, env).nodes == TaintAll(w.nodes, UnhealthyNames(w, env), env.now, env.opts.taintEffect)
  {
    UnhealthyPicksInRange(w, env);
    NothingAfter(w.nodes, env.now, env.opts.taintEffect);
  }

  /** The whole effect of a tick on the API server: taint the unhealthy, drop the removed, taint
      the picked, untaint the picked, each as named in the report. */
  lemma TickNodes(w: World, env: Input, ord: Orders)
    requires Valid(w, env, ord)
    ensures var (w1, r) := Tick(w, env, ord);
            Explained(AfterUnhealthyPass(w, env), env, w1.nodes, r)
  {
    hide Tick;
    hide Weigh;
    hide Prepared;
    hide SplitOf;
    ListedForm(w, env, ord);
    hide Valid;
    PreparedNodes(w, env);
    var p, s := Prepared(w, env), SplitOf(w, env);
    ExplainWeigh(p, env, ord, s, w.nodes);
    ExplainQuiet(w.nodes, env, ListFailed, 0, Split([], [], [], []));
    ExplainQuiet(p.nodes, env, NothingToDo, 0, s);
    ExplainQuiet(p.nodes, env, TooFewNodes, 0, s);
  }

  // ---------- who is touched ----------

  ghost predicate Acted(r: Report) {
    r.outcome == ScaledDown || r.outcome == ScaledUp || r.outcome == OnlyReaped
  }

  /** Which nodes the report's fields speak of. */
  ghost predicate Accounts(env: Input, s: Split, r: Report) {
    && (r.split == s || r.outcome == ListFailed)
    && (Acted(r) ==> r.forced.request == Candidates(env, s.forced, ForcePass))
    && (!Acted(r) ==> r.forced == NO_REMOVAL && r.reaped == NO_REMOVAL && r.taintPicks == [])
    && (r.outcome == ScaledDown ==> r.reaped.request == Candidates(env, s.tainted, ReapPass(true)))
    && (r.outcome == OnlyReaped ==> r.reaped.request == Candidates(env, s.tainted, ReapPass(r.healthy)))
    && (r.outcome == ScaledUp ==> r.reaped == NO_REMOVAL)
    && (r.outcome != ScaledUp && r.outcome != BelowMinimum ==> r.up == NO_UP)
    && (r.outcome != ScaledDown ==> r.taintPicks == [])
    && (!r.healthy ==> r.outcome == OnlyReaped)
    && (r.outcome == ListFailed ==> r.split == Split([], [], [], []))
  }

  lemma AccountPerform(w: World, env: Input, ord: Orders, s: Split, d: int, healthy: bool, forced: Removal)
    requires InRange(ord.oldest, |s.untainted|) && Distinct(ord.oldest)
    requires InRange(ord.newest, |s.tainted|) && Distinct(ord.newest)
    requires forced.request == Candidates(env, s.forced, ForcePass) && (!healthy ==> d == 0)
    ensures Accounts(env, s, Perform(w, env, ord, s, d, healthy, forced).1)
    ensures Acted(Perform(w, env, ord, s, d, healthy, forced).1)
  {
    hide ScaleUp;
    hide TaintOldest;
    hide TaintPicks;
    hide Candidates;
    RemoveShape(w, env, Candidates(env, s.tainted, ReapPass(true)));
    RemoveShape(w, env, Candidates(env, s.tainted, ReapPass(healthy)));
    hide Remove;
  }

  lemma AccountUnlocked(w: World, env: Input, ord: Orders, s: Split, ns: seq<Node>)
    requires InRange(ord.oldest, |s.untainted|) && Distinct(ord.oldest)
    requires InRange(ord.newest, |s.tainted|) && Distinct(ord.newest)
    requires InRange(ord.health, |ns|) && env.opts.scaleUp != 0 && !UsageOf(env.pods, s.untainted).DivisionByZero?
    ensures Accounts(env, s, Unlocked(w, env, ord, s, ns).1)
  {
    hide Perform;
    hide UsageOf;
    hide Decide;
    hide JudgedHealthy;
    hide Candidates;
    var request := Candidates(env, s.forced, ForcePass);
    RemoveShape(w, env, request);
    hide Remove;
    var (w3, forced) := Remove(w, env, request);
    var d := Decide(env.opts, env.pods, s.untainted, s.tainted, w.cached, env.now).nodes;
    var healthy := JudgedHealthy(ns, env, ord.health);
    AccountPerform(w3, env, ord, s, if healthy then d else 0, healthy, forced);
  }

  lemma AccountWeigh(w: World, env: Input, ord: Orders, s: Split, ns: seq<Node>)
    requires InRange(ord.oldest, |s.untainted|) && Distinct(ord.oldest)
    requires InRange(ord.newest, |s.tainted|) && Distinct(ord.newest)
    requires InRange(ord.health, |ns|) && env.opts.scaleUp != 0
    ensures Accounts(env, s, Weigh(w, env, ord, s, ns).1)
  {
    hide ScaleUp;
    hide Unlocked;
    hide UsageOf;
    if |s.untainted| >= env.opts.minNodes && !UsageOf(env.pods, s.untainted).DivisionByZero? {
      AccountUnlocked(w.(lock := Released(w.lock)), env, ord, s, ns);
    }
  }

  lemma TickAccounts(w: World, env: Input, ord: Orders)
    requires Valid(w, env, ord)
    ensures Accounts(env, SplitOf(w, env), Tick(w, env, ord).1)
  {
    hide Tick;
    hide Weigh;
    hide Prepared;
    hide SplitOf;
    ListedForm(w, env, ord);
    hide Valid;
    hide Candidates;
    AccountWeigh(Prepared(w, env), env, ord, SplitOf(w, env), w.nodes);
  }

  lemma PickedNames(ns: seq<Node>, at: seq<nat>)
    requires InRange(at, |ns|)
    ensures Names(At(ns, at)) <= Names(ns)
  {
    forall n | n in At(ns, at) ensures n in ns {}
  }

  /** Tick separation: the nodes deleted by the two removal passes, the nodes tainted by the
      scale-down and the nodes untainted by the scale-up are four disjoint groups, each taken
      from its own list. */
  lemma TickSeparates(w: World, env: Input, ord: Orders)
    requires Valid(w, env, ord)
    ensures var r := Tick(w, env, ord).1;
            && WellFormed(r)
            && Names(r.forced.request) <= Names(r.split.forced) && Names(r.reaped.request) <= Names(r.split.tainted)
            && TaintedNames(r) <= Names(r.split.untainted) && UntaintedNames(r) <= Names(r.split.tainted)
            && Names(r.forced.request) !! Names(r.reaped.request) !! TaintedNames(r) !! UntaintedNames(r)
  {
    TickNodes(w, env, ord);
    TickAccounts(w, env, ord);
    var r, s := Tick(w, env, ord).1, SplitOf(w, env);
    var m := ModeOf(Prepared(w, env), env.opts);
    ClassesDisjoint(w.nodes, m, IsForced, IsTainted);
    ClassesDisjoint(w.nodes, m, IsForced, IsUntainted);
    ClassesDisjoint(w.nodes, m, IsTainted, IsUntainted);
    PickedNames(r.split.untainted, r.taintPicks);
    PickedNames(r.split.tainted, r.up.picks);
    hide Tick;
    hide Prepared;
    hide Explained;
    hide Candidates;
    hide Select;
    CandidateNames(env, s.forced, ForcePass);
    CandidateNames(env, s.tainted, ReapPass(true));
    CandidateNames(env, s.tainted, ReapPass(r.healthy));
    if r.up == NO_UP {
      assert UntaintedNames(r) == {};
    }
  }

  lemma CandidateNames(env: Input, ns: seq<Node>, pass: Pass)
    ensures Names(Candidates(env, ns, pass)) <= Names(ns)
  {
  }

  // ---------- the fate of one node ----------

  /** The node object that a tick leaves in place of `n`. */
  function Fate(n: Node, env: Input, unhealthy: set<string>, tainted: set<string>, untainted: set<string>): Node {
    var a := if n.name in unhealthy then TaintNode(n, env.now, env.opts.taintEffect) else n;
    var b := if n.name in tainted then TaintNode(a, env.now, env.opts.taintEffect) else a;
    if n.name in untainted then UntaintNode(b) else b
  }

  /** Every node object after the tick comes from the same-named one before it. */
  lemma Origin(ns: seq<Node>, env: Input, u: set<string>, gone: set<string>, t: set<string>, v: set<string>,
      after: Node)
      returns (n: Node)
    requires after in UntaintAll(TaintAll(Without(TaintAll(ns, u, env.now, env.opts.taintEffect), gone), t, env.now,
             env.opts.taintEffect), v)
    ensures n in ns && n.name !in gone && after == Fate(n, env, u, t, v)
  {
    hide TaintNode;
    hide UntaintNode;
    hide Without;
    hide TaintAll;
    hide UntaintAll;
    var a := TaintAll(ns, u, env.now, env.opts.taintEffect);
    var b := Without(a, gone);
    var c := TaintAll(b, t, env.now, env.opts.taintEffect);
    var i :| 0 <= i < |UntaintAll(c, v)| && UntaintAll(c, v)[i] == after;
    assert b[i] in b;
    assert b[i] in a;
    var j :| 0 <= j < |a| && a[j] == b[i];
    n := ns[j];
  }

  /** And every node that is not dropped is still there, in that form. */
  lemma Survives(ns: seq<Node>, env: Input, u: set<string>, gone: set<string>, t: set<string>, v: set<string>, n: Node)
    requires n in ns && n.name !in gone
    ensures Fate(n, env, u, t, v) in
            UntaintAll(TaintAll(Without(TaintAll(ns, u, env.now, env.opts.taintEffect), gone), t, env.now,
              env.opts.taintEffect), v)
  {
    hide TaintNode;
    hide UntaintNode;
    hide Without;
    hide TaintAll;
    hide UntaintAll;
    var a := TaintAll(ns, u, env.now, env.opts.taintEffect);
    var b := Without(a, gone);
    var c := TaintAll(b, t, env.now, env.opts.taintEffect);
    var j :| 0 <= j < |ns| && ns[j] == n;
    assert a[j] in a;
    assert a[j] in b;
    var i :| 0 <= i < |b| && b[i] == a[j];
    assert UntaintAll(c, v)[i] == Fate(n, env, u, t, v);
  }

  function Unhealthied(w: World, env: Input): set<string> {
    if env.listed then UnhealthyNames(w, env) else {}
  }

  /** The report's sets, as they act on nodes. */
  lemma TickFates(w: World, env: Input, ord: Orders)
    requires Valid(w, env, ord) && !env.opts.dryMode
    ensures var (w1, r) := Tick(w, env, ord);
            && WellFormed(r)
            && w1.nodes ==
               UntaintAll(TaintAll(Without(TaintAll(w.nodes, Unhealthied(w, env), env.now, env.opts.taintEffect),
                                                       DeletedNames(r.forced) + DeletedNames(r.reaped)),
                                               TaintedNames(r), env.now, env.opts.taintEffect),
                                      UntaintedNames(r))
  {
    TickNodes(w, env, ord);
    NothingAfter(w.nodes, env.now, env.opts.taintEffect);
    hide Tick;
  }

  lemma TickKeepsUnique(w: World, env: Input, ord: Orders)
    requires Valid(w, env, ord) && !env.opts.dryMode
    ensures UniqueNames(Tick(w, env, ord).0.nodes)
  {
    TickFates(w, env, ord);
    hide Tick;
    var r := Tick(w, env, ord).1;
    var a := TaintAll(w.nodes, Unhealthied(w, env), env.now, env.opts.taintEffect);
    WithoutUnique(a, DeletedNames(r.forced) + DeletedNames(r.reaped));
  }

  /** A cordoned node is left exactly as it is: never tainted, untainted or deleted. */
  lemma CordonedUntouched(w: World, env: Input, ord: Orders, n: Node)
    requires Valid(w, env, ord) && !env.opts.dryMode && n in w.nodes && n.unschedulable
    ensures n in Tick(w, env, ord).0.nodes
  {
    TickFates(w, env, ord);
    TickSeparates(w, env, ord);
    TickAccounts(w, env, ord);
    var (w1, r) := Tick(w, env, ord);
    CordonedNotUnhealthy(w, env, n);
    CordonedNotListed(w, env, n);
    hide Tick;
    hide SplitOf;
    DeletedAreRequested(r.forced);
    DeletedAreRequested(r.reaped);
    Survives(w.nodes, env, Unhealthied(w, env), DeletedNames(r.forced) + DeletedNames(r.reaped), TaintedNames(r),
      UntaintedNames(r), n);
  }

  lemma DeletedAreRequested(r: Removal)
    requires r.deleted <= |r.request|
    ensures DeletedNames(r) <= Names(r.request)
  {
    forall n | n in r.request[..r.deleted] ensures n in r.request {}
  }

  lemma CordonedNotUnhealthy(w: World, env: Input, n: Node)
    requires UniqueNames(w.nodes) && n in w.nodes && n.unschedulable
    ensures n.name !in Unhealthied(w, env)
  {
    UnhealthyPicksInRange(w, env);
    if env.opts.unhealthyGrace > 0 {
      var at := UnhealthyAt(w.nodes, env.opts.unhealthyGrace, env.now);
      PicksSound(at, w.nodes, TaintSkips(w, env.opts, w.nodes, env.unhealthyTaintFails), |at|);
      forall k | 0 <= k < |UnhealthyPicks(w, env)| ensures w.nodes[UnhealthyPicks(w, env)[k]].name != n.name {
        var x := UnhealthyPicks(w, env)[k];
        assert x in UnhealthyPicks(w, env);
        assert w.nodes[x] in w.nodes && Unhealthy(w.nodes[x], env.opts.unhealthyGrace, env.now);
        if w.nodes[x].name == n.name {
          UniqueByName(w.nodes, w.nodes[x], n);
        }
      }
      assert forall m :: m in At(w.nodes, UnhealthyPicks(w, env)) ==> m.name != n.name;
    }
  }

  lemma CordonedNotListed(w: World, env: Input, n: Node)
    requires UniqueNames(w.nodes) && !env.opts.dryMode && n in w.nodes && n.unschedulable
    ensures var s := SplitOf(w, env);
            n.name !in Names(s.untainted) && n.name !in Names(s.tainted) && n.name !in Names(s.forced)
  {
    var m := ModeOf(Prepared(w, env), env.opts);
    ClassesDisjoint(w.nodes, m, IsCordoned, IsUntainted);
    ClassesDisjoint(w.nodes, m, IsCordoned, IsTainted);
    ClassesDisjoint(w.nodes, m, IsCordoned, IsForced);
    assert n in Select(w.nodes, m, IsCordoned);
  }

  // ---------- dry mode ----------

  lemma {:induction false} DryCandidates(env: Input, ns: seq<Node>, pass: Pass)
    requires env.opts.dryMode
    ensures Candidates(env, ns, pass) == []
  {
    if ns != [] {
      DryCandidates(env, ns[..|ns| - 1], pass);
    }
  }

  lemma DryWeigh(w: World, env: Input, ord: Orders, s: Split, ns: seq<Node>)
    requires InRange(ord.oldest, |s.untainted|) && Distinct(ord.oldest)
    requires InRange(ord.newest, |s.tainted|) && Distinct(ord.newest)
    requires InRange(ord.health, |ns|) && env.opts.scaleUp != 0 && env.opts.dryMode
    ensures var w1 := Weigh(w, env, ord, s, ns).0;
            w1.nodes == w.nodes && w1.group == w.group
  {
    DryCandidates(env, s.forced, ForcePass);
    DryCandidates(env, s.tainted, ReapPass(true));
    DryCandidates(env, s.tainted, ReapPass(false));
    hide Candidates;
    hide UsageOf;
    hide Decide;
    hide JudgedHealthy;
    hide TaintPicks;
    hide UntaintPicks;
    hide NodesToAdd;
  }

  lemma PreparedGroup(w: World, env: Input)
    ensures Prepared(w, env).group == w.group && Prepared(w, env).lock == w.lock
    ensures Prepared(w, env).forceTracker == w.forceTracker
  {
    hide UnhealthyPicks;
  }

  /** Dry mode: no tick changes a node object or the cloud group. */
  lemma DryTickChangesNothing(w: World, env: Input, ord: Orders)
    requires Valid(w, env, ord) && env.opts.dryMode
    ensures Tick(w, env, ord).0.nodes == w.nodes && Tick(w, env, ord).0.group == w.group
  {
    hide Tick;
    hide Weigh;
    hide SplitOf;
    ListedForm(w, env, ord);
    hide Valid;
    PreparedNodes(w, env);
    PreparedGroup(w, env);
    hide Prepared;
    DryWeigh(Prepared(w, env), env, ord, SplitOf(w, env), w.nodes);
  }
}
