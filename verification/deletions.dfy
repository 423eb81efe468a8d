/** What ticks ask of the cloud group: two-stage deletion, the desired capacity, and where the
    per-call guards do not add up to a guarantee for the tick. */
module CloudTheorems {
  import opened Cluster
  import opened Order
  import opened Decision
  import opened ScaleLocks
  import opened Cloud
  import opened ControlLoop
  import opened TickTheorems
  import opened Plans

  /** One removal, as the cloud and the API server see it: a prefix of the request is terminated,
      every node of it an instance of the group, never more than the room above the minimum; and
      API objects are deleted only if the whole request was terminated. */
  ghost predicate TwoStage(d: Description, env: Input, r: Removal) {
    && r.deleted <= r.terminated <= |r.request|
    && (r.terminated > 0 ==> r.terminated <= d.target - d.minSize)
    && (forall i :: 0 <= i < r.terminated ==> Belongs(d, r.request[i]) && r.request[i].name !in env.terminateFails)
    && (r.deleted > 0 ==> r.terminated == |r.request|)
    && (r.request != [] ==> r.terminated == Terminated(d, r.request, env.terminateFails))
  }

  /** The instances that a removal terminated. */
  function Victims(d: Description, r: Removal): set<string>
    requires r.terminated <= |r.request|
  {
    set n | n in r.request[..r.terminated] :: InstanceFor(d, n)
  }

  /** What a tick does to the group, given its report. */
  ghost predicate GroupStep(g: Group, env: Input, g': Group, r: Report) {
    && g'.cached == g.cached
    && TwoStage(g.cached, env, r.forced) && TwoStage(g.cached, env, r.reaped)
    && g.live - g'.live <= Victims(g.cached, r.forced) + Victims(g.cached, r.reaped)
    && (r.up.added == 0 && (r.up.ok || !g.oneShot) ==>
       g'.desired == g.desired - r.forced.terminated - r.reaped.terminated)
    && (r.up.added > 0 && !env.opts.dryMode && !g.oneShot ==>
       g'.desired == g.cached.target + r.up.added <= g.cached.maxSize)
  }

  lemma RemoveTwoStage(w: World, env: Input, request: seq<Node>)
    ensures var (w1, r) := Remove(w, env, request);
            && TwoStage(w.group.cached, env, r)
            && w1.group.cached == w.group.cached && w1.group.oneShot == w.group.oneShot
            && w1.group.desired == w.group.desired - r.terminated
            && w1.group.live == w.group.live - Victims(w.group.cached, r)
  {
    RemoveShape(w, env, request);
    if request != [] {
      TerminatedIsSafe(w.group.cached, request, env.terminateFails);
    }
  }

  lemma ScaleUpGroup(w: World, env: Input, newest: seq<nat>, tainted: seq<Node>, delta: nat)
    requires InRange(newest, |tainted|) && Distinct(newest) && delta > 0
    ensures var (w1, up) := ScaleUp(w, env, newest, tainted, delta);
            && w1.group.cached == w.group.cached && w.group.live <= w1.group.live
            && (up.added == 0 && (up.ok || !w.group.oneShot) ==> w1.group.desired == w.group.desired)
            && (up.added > 0 && !env.opts.dryMode && !w.group.oneShot ==>
                w1.group.desired == w.group.cached.target + up.added <= w.group.cached.maxSize)
  {
    hide UntaintPicks;
    hide UntaintSkips;
    hide Forget;
  }

  lemma PerformGroup(w: World, env: Input, ord: Orders, s: Split, d: int, healthy: bool, forced: Removal)
    requires InRange(ord.oldest, |s.untainted|) && Distinct(ord.oldest)
    requires InRange(ord.newest, |s.tainted|) && Distinct(ord.newest)
    ensures var (w1, r) := Perform(w, env, ord, s, d, healthy, forced);
            && w1.group.cached == w.group.cached && r.forced == forced
            && TwoStage(w.group.cached, env, r.reaped)
            && w.group.live - w1.group.live <= Victims(w.group.cached, r.reaped)
            && (r.up.added == 0 && (r.up.ok || !w.group.oneShot) ==>
               w1.group.desired == w.group.desired - r.reaped.terminated)
            && (r.up.added > 0 && !env.opts.dryMode && !w.group.oneShot ==>
                w1.group.desired == w.group.cached.target + r.up.added <= w.group.cached.maxSize)
  {
    if d > 0 {
      ScaleUpGroup(w, env, ord.newest, s.tainted, d);
    }
    RemoveTwoStage(w, env, Candidates(env, s.tainted, ReapPass(true)));
    RemoveTwoStage(w, env, Candidates(env, s.tainted, ReapPass(healthy)));
    hide ScaleUp;
    hide Remove;
    hide Candidates;
    hide TaintPicks;
    hide Belongs;
  }

  lemma UnlockedGroup(w: World, env: Input, ord: Orders, s: Split, ns: seq<Node>)
    requires InRange(ord.oldest, |s.untainted|) && Distinct(ord.oldest)
    requires InRange(ord.newest, |s.tainted|) && Distinct(ord.newest)
    requires InRange(ord.health, |ns|) && env.opts.scaleUp != 0 && !UsageOf(env.pods, s.untainted).DivisionByZero?
    ensures var (w1, r) := Unlocked(w, env, ord, s, ns);
            GroupStep(w.group, env, w1.group, r)
  {
    hide Perform;
    hide Candidates;
    hide JudgedHealthy;
    hide Decide;
    hide UsageOf;
    hide Belongs;
    hide Terminated;
    var request := Candidates(env, s.forced, ForcePass);
    RemoveTwoStage(w, env, request);
    hide Remove;
    var (w3, forced) := Remove(w, env, request);
    var d := Decide(env.opts, env.pods, s.untainted, s.tainted, w.cached, env.now).nodes;
    var healthy := JudgedHealthy(ns, env, ord.health);
    PerformGroup(w3, env, ord, s, if healthy then d else 0, healthy, forced);
  }

  lemma WeighGroup(w: World, env: Input, ord: Orders, s: Split, ns: seq<Node>)
    requires InRange(ord.oldest, |s.untainted|) && Distinct(ord.oldest)
    requires InRange(ord.newest, |s.tainted|) && Distinct(ord.newest)
    requires InRange(ord.health, |ns|) && env.opts.scaleUp != 0
    ensures var (w1, r) := Weigh(w, env, ord, s, ns);
            GroupStep(w.group, env, w1.group, r)
  {
    hide ScaleUp;
    hide Unlocked;
    hide UsageOf;
    hide Belongs;
    hide Terminated;
    if |s.untainted| < env.opts.minNodes {
      ScaleUpGroup(w, env, ord.newest, s.tainted, env.opts.minNodes - |s.untainted|);
    } else if !UsageOf(env.pods, s.untainted).DivisionByZero? {
      UnlockedGroup(w.(lock := Released(w.lock)), env, ord, s, ns);
    }
  }

  /** Two-stage deletion and the desired capacity, for every tick. When a tick force-removes nodes
      and then grows the group, the capacity it sets is still counted from the cached target: the
      removed nodes are made up for on top of what was added. */
  lemma TickGroup(w: World, env: Input, ord: Orders)
    requires Valid(w, env, ord)
    ensures var (w1, r) := Tick(w, env, ord);
            GroupStep(w.group, env, w1.group, r)
  {
    hide Tick;
    hide Weigh;
    hide SplitOf;
    hide Prepared;
    hide Belongs;
    ListedForm(w, env, ord);
    hide Valid;
    PreparedGroup(w, env);
    WeighGroup(Prepared(w, env), env, ord, SplitOf(w, env), w.nodes);
  }

  // ---------- the desired capacity ----------

  /** What a tick's two removals leave of the desired capacity. */
  ghost function CapacityLeft(w: World, env: Input, ord: Orders): int
    requires Valid(w, env, ord)
  {
    var d := w.group.cached;
    w.group.desired - Terminated(d, ForceRequest(w, env), env.terminateFails) - Terminated(d,
      ReapRequest(w, env, ord), env.terminateFails)
  }

  lemma RemovalsDesired(g: Group, env: Input, f: seq<Node>, r: seq<Node>)
    ensures var g' := AfterRemovals(g, env, f, r);
            && g' == g.(desired := g'.desired, live := g'.live)
            && g'.desired ==
               g.desired - Terminated(g.cached, f, env.terminateFails) - Terminated(g.cached, r, env.terminateFails)
  {
    hide Terminated;
  }

  /** A request never goes beyond the group's maximum. */
  lemma AskedFits(w: World, env: Input, ord: Orders)
    requires Valid(w, env, ord)
    ensures Asked(w, env, ord) >= 0
    ensures Asked(w, env, ord) > 0 ==> w.group.cached.target + Asked(w, env, ord) <= w.group.cached.maxSize
  {
    hide Growth;
    hide ToUntaint;
  }

  /** The capacity of a group that is asked for more, within its maximum. */
  lemma CapacityAfterAsking(g: Group, env: Input, asked: int)
    requires asked >= 0 && (asked > 0 ==> g.cached.target + asked <= g.cached.maxSize)
    ensures var after, a := AfterAsking(g, env, asked).desired, env.answer;
            && (env.opts.dryMode || asked == 0 ==> after == g.desired)
            && (!env.opts.dryMode && asked > 0 && !g.oneShot ==>
               after == if a.setDesiredOk then g.cached.target + asked else g.desired)
            && (!env.opts.dryMode && asked > 0 && g.oneShot ==>
                after == g.desired + if a.fleet.Fleet?
                  then AttachedCount(|a.fleet.ids|, a.fleet.ready, a.fleet.failure) else 0)
  {
  }

  /** The exact capacity after every tick: what the removals leave; or, with SetDesiredCapacity, the
      cached target plus what was asked; or, in one shot, the batches attached on top. */
  lemma TickCapacity(w: World, env: Input, ord: Orders)
    requires Valid(w, env, ord)
    ensures var (w', r) := Tick(w, env, ord);
            var asked, a := Asked(w, env, ord), env.answer;
            && r.up.added == (if Granted(w, env, ord) then asked else 0)
            && (env.opts.dryMode || asked == 0 ==> w'.group.desired == CapacityLeft(w, env, ord))
            && (!env.opts.dryMode && asked > 0 && !w.group.oneShot ==>
                w'.group.desired == if a.setDesiredOk then w.group.cached.target + asked else CapacityLeft(w, env, ord))
            && (!env.opts.dryMode && asked > 0 && w.group.oneShot ==>
                w'.group.desired == CapacityLeft(w, env, ord) +
                                    if a.fleet.Fleet?
                                      then AttachedCount(|a.fleet.ids|, a.fleet.ready, a.fleet.failure) else 0)
  {
    hide Tick;
    hide Prepared;
    hide SplitOf;
    hide Asked;
    hide ForceRequest;
    hide ReapRequest;
    hide ToTaint;
    hide ToUntaint;
    hide AfterRemovals;
    hide AfterAsking;
    hide Terminated;
    hide Deleted;
    hide TrackerAfter;
    hide Reaches;
    TickIsPlanned(w, env, ord);
    AskedFits(w, env, ord);
    SelectedAtMost(w, env);
    var f, r := ForceRequest(w, env), ReapRequest(w, env, ord);
    RemovalsDesired(w.group, env, f, r);
    CapacityAfterAsking(AfterRemovals(w.group, env, f, r), env, Asked(w, env, ord));
    hide Valid;
    hide IncreaseOk;
  }

  /** When a tick grows the real group and takes no lock: exactly when a one-shot increase fails at
      a later batch than the first. The batches before it stay attached. */
  lemma GrowsWithoutLock(w: World, env: Input, ord: Orders)
    requires Valid(w, env, ord) && !env.opts.dryMode
    ensures var (w', r) := Tick(w, env, ord);
            var fleet := env.answer.fleet;
            w'.group.desired > CapacityLeft(w, env, ord) && r.up.added == 0 <==>
            && w.group.oneShot && Asked(w, env, ord) > 0 && fleet.Fleet? && fleet.ready
            && fleet.failure.FailsAt? && fleet.failure.batch > 0 && BatchSent(|fleet.ids|, fleet.failure.batch)
  {
    hide Tick;
    hide Asked;
    hide CapacityLeft;
    TickCapacity(w, env, ord);
    AskedFits(w, env, ord);
    hide Valid;
  }

  /** The minimum, told before the tick. Both removal passes are guarded by the same cached target:
      from a fresh description, a tick that acts without growing ends at the minimum or above
      exactly when both passes together stay within the room. Every other tick does. */
  lemma DesiredFloor(w: World, env: Input, ord: Orders)
    requires Valid(w, env, ord) && w.group.desired == w.group.cached.target
    ensures var d, after := w.group.cached, Tick(w, env, ord).0.group.desired;
            var f := Terminated(d, ForceRequest(w, env), env.terminateFails);
            var g := Terminated(d, ReapRequest(w, env, ord), env.terminateFails);
            && (Acts(w, env) && Effective(w, env, ord) <= 0 ==> (after >= d.minSize <==> f + g <= d.target - d.minSize))
            && (!(Acts(w, env) && Effective(w, env, ord) <= 0) && d.target >= d.minSize ==> after >= d.minSize)
  {
    hide Tick;
    hide Decided;
    hide SplitOf;
    hide UsageOf;
    hide JudgedHealthy;
    TickCapacity(w, env, ord);
    AskedFits(w, env, ord);
    TerminatedFits(w.group.cached, ForceRequest(w, env), env.terminateFails);
    if Acts(w, env) && Effective(w, env, ord) <= 0 {
      NoGrowth(w, env, ord);
    } else {
      assert ReapRequest(w, env, ord) == [];
    }
    hide Asked;
    hide ForceRequest;
    hide ReapRequest;
    hide Valid;
    hide Terminated;
  }

  lemma TerminatedFits(d: Description, request: seq<Node>, failing: set<string>)
    ensures Terminated(d, [], failing) == 0
    ensures d.target >= d.minSize ==> Terminated(d, request, failing) <= d.target - d.minSize
  {
    if request != [] {
      TerminatedIsSafe(d, request, failing);
    }
    hide Outsiders;
  }

  /** How many of `count` candidates a DeleteNodes call without failures terminates. */
  function Allowed(d: Description, count: nat): nat {
    if MayDelete(d, count) then count else 0
  }

  /** When every candidate is an instance of the group and no termination fails, each pass counts in
      full if it passes the guard alone, else not at all. */
  lemma AllOrNothing(d: Description, request: seq<Node>)
    requires forall n :: n in request ==> Belongs(d, n)
    ensures Terminated(d, request, {}) == Allowed(d, |request|)
  {
    hide Belongs;
    var none: set<string> := {};
    assert none + Outsiders(d, request) == none;
  }

  // ---------- the lock and the minimum ----------

  /** When a tick grows the group while the lock is held: exactly when it finds fewer untainted
      nodes than the minimum, cannot make them up by untainting, and the cloud group has room and
      accepts. That path does not look at the lock. */
  lemma IncreaseDuringCoolDown(w: World, env: Input, ord: Orders)
    requires Valid(w, env, ord) && Held(w.lock, env.now) && env.listed
    ensures var p, s := Prepared(w, env), SplitOf(w, env);
            var missing := env.opts.minNodes - |s.untainted|;
            var left := missing - |UntaintPicks(p, env, ord.newest, s.tainted, missing)|;
            Tick(w, env, ord).1.up.added > 0 <==>
            && !(w.nodes == [] && env.pods == []) && |w.nodes| >= env.opts.minNodes
            && missing > 0 && left > 0 && w.group.cached.target < w.group.cached.maxSize
            && (env.opts.dryMode || IncreaseOk(w.group, NodesToAdd(w.group.cached, left), env.answer))
  {
    hide Tick;
    hide Weigh;
    hide Prepared;
    hide SplitOf;
    hide ScaleUp;
    hide UntaintPicks;
    hide IncreaseOk;
    ListedForm(w, env, ord);
    hide Valid;
    PreparedGroup(w, env);
    var p, s := Prepared(w, env), SplitOf(w, env);
    WeighHeld(p, env, ord, s, w.nodes);
    if |s.untainted| < env.opts.minNodes {
      GrowsWhen(p, env, ord.newest, s.tainted, env.opts.minNodes - |s.untainted|);
    }
  }

  lemma WeighHeld(w: World, env: Input, ord: Orders, s: Split, ns: seq<Node>)
    requires InRange(ord.oldest, |s.untainted|) && Distinct(ord.oldest)
    requires InRange(ord.newest, |s.tainted|) && Distinct(ord.newest)
    requires InRange(ord.health, |ns|) && env.opts.scaleUp != 0 && Held(w.lock, env.now)
    ensures var missing := env.opts.minNodes - |s.untainted|;
            Weigh(w, env, ord, s, ns).1.up == if missing > 0 then ScaleUp(w, env, ord.newest, s.tainted, missing).1
              else NO_UP
  {
    hide ScaleUp;
    hide UsageOf;
    hide Unlocked;
  }

  lemma GrowsWhen(w: World, env: Input, newest: seq<nat>, tainted: seq<Node>, delta: nat)
    requires InRange(newest, |tainted|) && Distinct(newest) && delta > 0
    ensures var left := delta - |UntaintPicks(w, env, newest, tainted, delta)|;
            ScaleUp(w, env, newest, tainted, delta).1.added > 0 <==>
            && left > 0 && w.group.cached.target < w.group.cached.maxSize
            && (env.opts.dryMode || IncreaseOk(w.group, NodesToAdd(w.group.cached, left), env.answer))
  {
    hide UntaintPicks;
    hide UntaintSkips;
    hide AfterIncrease;
    hide Forget;
  }
}
