/** Scaling up and down: how many nodes, which ones, and what is asked of the cloud. */
module ScalingTheorems {
  import opened Cluster
  import opened Taints
  import opened Health
  import opened Order
  import opened ScaleLocks
  import opened Cloud
  import opened ControlLoop
  import TickTheorems

  // ---------- order ----------

  /** Of two positions of a sorted list, the strictly earlier creation time decides which comes first. */
  lemma SortedBefore(order: seq<nat>, ns: seq<Node>, newestFirst: bool, x: nat, y: nat) returns (i: nat, j: nat)
    requires SortOrder(order, ns, newestFirst) && x < |ns| && y < |ns|
    requires if newestFirst then ns[x].created > ns[y].created else ns[x].created < ns[y].created
    ensures i < j < |order| && order[i] == x && order[j] == y
  {
    PermutationFacts(order, |ns|);
    assert x in order && y in order;
    i :| 0 <= i < |order| && order[i] == x;
    j :| 0 <= j < |order| && order[j] == y;
  }

  /** Oldest first: a node strictly older than one that the scale-down tainted, and not tainted
      itself, is one whose API call failed. */
  lemma OldestFirst(w: World, env: Input, oldest: seq<nat>, untainted: seq<Node>, wanted: int, x: nat, y: nat)
    requires SortOrder(oldest, untainted, false) && Distinct(oldest) && UniqueNames(untainted)
    requires x < |untainted| && y < |untainted| && untainted[x].created < untainted[y].created
    requires var p := TaintPicks(w, env, oldest, untainted, wanted); y in p && x !in p
    ensures untainted[x].name in env.taintFails || untainted[x].name !in Names(w.nodes)
    ensures !env.opts.dryMode
  {
    var i, j := SortedBefore(oldest, untainted, false, x, y);
    var amount := TaintAmount(env.opts, |untainted|, w.group.cached, wanted);
    PicksGreedy(oldest, untainted, TaintSkips(w, env.opts, untainted, env.taintFails), amount.value, i, j);
  }

  /** Newest first: a tainted node strictly newer than one that the scale-up untainted, and left
      tainted itself, is one that may not be untainted: it is unhealthy, or its API call failed. */
  lemma NewestFirst(w: World, env: Input, newest: seq<nat>, tainted: seq<Node>, delta: int, x: nat, y: nat)
    requires SortOrder(newest, tainted, true) && Distinct(newest) && UniqueNames(tainted)
    requires x < |tainted| && y < |tainted| && tainted[x].created > tainted[y].created
    requires var p := UntaintPicks(w, env, newest, tainted, delta); y in p && x !in p
    ensures !MayUntaint(w, env, tainted[x]) && MayUntaint(w, env, tainted[y])
    ensures !env.opts.dryMode && Tainted(tainted[x]) ==>
            || (env.opts.unhealthyGrace > 0 && Unhealthy(tainted[x], env.opts.unhealthyGrace, env.now))
            || tainted[x].name in env.untaintFails || tainted[x].name !in Names(w.nodes)
  {
    var i, j := SortedBefore(newest, tainted, true, x, y);
    PicksGreedy(newest, tainted, UntaintSkips(w, env, tainted), delta, i, j);
    PicksSound(newest, tainted, UntaintSkips(w, env, tainted), delta);
    var m :| m in tainted && !MayUntaint(w, env, m) && m.name == tainted[x].name;
    UniqueByName(tainted, m, tainted[x]);
    assert tainted[y] in tainted;
  }

  /** At most as many nodes as asked for are untainted, and none that is unhealthy. */
  lemma UntaintBound(w: World, env: Input, newest: seq<nat>, tainted: seq<Node>, delta: nat)
    requires InRange(newest, |tainted|) && Distinct(newest) && UniqueNames(tainted)
    ensures var p := UntaintPicks(w, env, newest, tainted, delta);
            && |p| <= delta && Distinct(p) && InRange(p, |tainted|)
            && forall x :: x in p ==>
                 && MayUntaint(w, env, tainted[x])
                 && (env.opts.unhealthyGrace > 0 ==> !Unhealthy(tainted[x], env.opts.unhealthyGrace, env.now))
                 && (!env.opts.dryMode ==> tainted[x].name !in env.untaintFails && Tainted(tainted[x]))
  {
    PicksSound(newest, tainted, UntaintSkips(w, env, tainted), delta);
    forall x | x in UntaintPicks(w, env, newest, tainted, delta) ensures MayUntaint(w, env, tainted[x]) {
      assert tainted[x] in tainted;
    }
  }

  // ---------- scale down: how many ----------

  /** The floor of a scale-down: no more than the group has above its minimum, and no more than
      the cloud group has above its own, unless the cached target is already below that. */
  lemma TaintFloor(w: World, env: Input, oldest: seq<nat>, untainted: seq<Node>, wanted: int)
    requires InRange(oldest, |untainted|) && Distinct(oldest) && wanted >= 0
    ensures var p := TaintPicks(w, env, oldest, untainted, wanted);
            var d := w.group.cached;
            && Distinct(p) && InRange(p, |untainted|) && |p| <= wanted
            && (|untainted| >= env.opts.minNodes ==> |untainted| - |p| >= env.opts.minNodes)
            && (|untainted| < env.opts.minNodes ==> p == [])
            && (d.target >= d.minSize ==> |p| <= d.target - d.minSize)
  {
    TaintPicksSound(w, env, oldest, untainted, wanted);
    var amount := TaintAmount(env.opts, |untainted|, w.group.cached, wanted);
    if amount.Some? {
      PicksSound(oldest, untainted, TaintSkips(w, env.opts, untainted, env.taintFails), amount.value);
    }
  }

  /** How many nodes a scale-down taints when no call fails. */
  function Clamped(o: Options, untainted: nat, d: Description, wanted: int): int {
    var n := Utilisation.MinInt(wanted, untainted - o.minNodes);
    if d.target >= d.minSize then Utilisation.MinInt(n, d.target - d.minSize) else n
  }

  /** Without failures the scale-down taints exactly the clamped amount: the oldest nodes. */
  lemma TaintAmountReached(w: World, env: Input, oldest: seq<nat>, untainted: seq<Node>, wanted: int)
    requires InRange(oldest, |untainted|) && |oldest| == |untainted| && 0 <= wanted
    requires |untainted| >= env.opts.minNodes
    requires TaintSkips(w, env.opts, untainted, env.taintFails) == {}
    requires 0 <= env.opts.minNodes
    ensures var m := Clamped(env.opts, |untainted|, w.group.cached, wanted);
            0 <= m <= |oldest| && TaintPicks(w, env, oldest, untainted, wanted) == oldest[..m]
  {
    var amount := TaintAmount(env.opts, |untainted|, w.group.cached, wanted);
    assert amount.Some? && 0 <= amount.value <= |oldest|;
    PicksAll(oldest, untainted, {}, amount.value);
  }

  // ---------- scale up: conservation and ceiling ----------

  /** An error-free scale-up gives exactly what was asked for, in untainted plus added nodes, or
      fills the cached target to the cloud group's maximum. Nodes are added exactly when the
      lock is taken, with that count; and a capacity that is set is above the cached target and
      within the maximum. */
  lemma ScaleUpConserves(w: World, env: Input, newest: seq<nat>, tainted: seq<Node>, delta: nat)
    requires InRange(newest, |tainted|) && Distinct(newest) && delta > 0
    ensures var (w1, up) := ScaleUp(w, env, newest, tainted, delta);
            var d := w.group.cached;
            && up.added >= 0 && |up.picks| + up.added <= delta
            && (up.ok ==> |up.picks| + up.added == delta || (up.added > 0 && d.target + up.added == d.maxSize))
            && (!up.ok ==> up.added == 0)
            && (up.added > 0 ==> d.target + up.added <= d.maxSize && w1.lock == Taken(w.lock, up.added, env.now))
            && (up.added == 0 ==> w1.lock == w.lock)
            && w1.group.cached == d
            && (!w.group.oneShot && w1.group.desired != w.group.desired ==>
                d.target < w1.group.desired <= d.maxSize && w1.group.desired == d.target + up.added)
  {
    PicksSound(newest, tainted, UntaintSkips(w, env, tainted), delta);
    hide UntaintPicks;
    hide UntaintSkips;
    hide AfterAttach;
    hide Forget;
  }

  // ---------- the lock in a tick ----------

  /** What a tick may do to the lock, given the nodes it added. */
  ghost predicate LockStep(l: Lock, l': Lock, now: int, r: Report) {
    && r.up.added >= 0
    && (r.up.added > 0 ==> l'.isLocked && l'.requested == r.up.added && l'.lockTime == now && l'.minimum == l.minimum)
    && (r.up.added == 0 ==> l' == l || (!Held(l, now) && l' == Released(l)))
    && (r.up.added > 0 && Held(l, now) ==> r.outcome == BelowMinimum)
  }

  lemma RemoveKeepsLock(w: World, env: Input, request: seq<Node>)
    ensures Remove(w, env, request).0.lock == w.lock
  {
  }

  lemma PerformLock(w: World, env: Input, ord: Orders, s: Split, d: int, healthy: bool, forced: Removal)
    requires InRange(ord.oldest, |s.untainted|) && Distinct(ord.oldest)
    requires InRange(ord.newest, |s.tainted|) && Distinct(ord.newest)
    ensures var (w1, r) := Perform(w, env, ord, s, d, healthy, forced);
            && r.up.added >= 0
            && (r.up.added > 0 ==> w1.lock == Taken(w.lock, r.up.added, env.now))
            && (r.up.added == 0 ==> w1.lock == w.lock)
  {
    if d > 0 {
      ScaleUpConserves(w, env, ord.newest, s.tainted, d);
    }
    RemoveKeepsLock(w, env, Candidates(env, s.tainted, ReapPass(true)));
    RemoveKeepsLock(w, env, Candidates(env, s.tainted, ReapPass(healthy)));
    hide ScaleUp;
    hide Remove;
    hide Candidates;
    hide TaintPicks;
  }

  lemma WeighLock(w: World, env: Input, ord: Orders, s: Split, ns: seq<Node>)
    requires InRange(ord.oldest, |s.untainted|) && Distinct(ord.oldest)
    requires InRange(ord.newest, |s.tainted|) && Distinct(ord.newest)
    requires InRange(ord.health, |ns|) && env.opts.scaleUp != 0
    ensures var (w1, r) := Weigh(w, env, ord, s, ns);
            LockStep(w.lock, w1.lock, env.now, r)
  {
    if |s.untainted| < env.opts.minNodes {
      ScaleUpConserves(w, env, ord.newest, s.tainted, env.opts.minNodes - |s.untainted|);
    } else if !Decision.UsageOf(env.pods, s.untainted).DivisionByZero? {
      var w2 := w.(lock := Released(w.lock));
      var request := Candidates(env, s.forced, ForcePass);
      RemoveKeepsLock(w2, env, request);
      var (w3, forced) := Remove(w2, env, request);
      var d := Decision.Decide(env.opts, env.pods, s.untainted, s.tainted, w2.cached, env.now).nodes;
      var healthy := JudgedHealthy(ns, env, ord.health);
      PerformLock(w3, env, ord, s, if healthy then d else 0, healthy, forced);
    }
    hide ScaleUp;
    hide Remove;
    hide Perform;
    hide Candidates;
    hide JudgedHealthy;
    hide Decision.Decide;
    hide Decision.UsageOf;
  }

  lemma TickLock(w: World, env: Input, ord: Orders)
    requires Valid(w, env, ord)
    ensures var (w1, r) := Tick(w, env, ord);
            LockStep(w.lock, w1.lock, env.now, r)
  {
    hide Tick;
    hide Weigh;
    hide SplitOf;
    hide Prepared;
    TickTheorems.ListedForm(w, env, ord);
    hide Valid;
    TickTheorems.PreparedGroup(w, env);
    WeighLock(Prepared(w, env), env, ord, SplitOf(w, env), w.nodes);
  }
}
