/** The decision of a tick in numbers: which band loses how many nodes, and what the overrides force. */
module Bands {
  import opened Cluster
  import opened Pods
  import opened Utilisation
  import opened Decision
  import opened ControlLoop
  import opened ScalingTheorems
  import opened Plans
  import opened Progress

  // ---------- the bands ----------

  /** None of the overrides applies. */
  ghost predicate Plainly(o: Options, pods: seq<Pod>, untainted: seq<Node>, tainted: seq<Node>, now: int) {
    && |untainted| <= o.maxNodes
    && !(o.scaleOnStarve && |untainted| < o.maxNodes && Starved(pods, untainted))
    && !(o.maxNodeAge > 0 && |untainted| == o.minNodes && untainted != [] && tainted == []
         && exists n :: n in untainted && now - n.created > o.maxNodeAge)
  }

  /** What a group of equal nodes decides, in requests and capacity. */
  lemma DecidesByBand(w: World, env: Input, size: Amount)
    requires ValidThresholds(env.opts) && Sized(SplitOf(w, env).untainted, size) && SplitOf(w, env).untainted != []
    requires Plainly(env.opts, env.pods, SplitOf(w, env).untainted, SplitOf(w, env).tainted, env.now)
    ensures var o, n, request := env.opts, |SplitOf(w, env).untainted|, TotalRequest(env.pods);
            var cpu, memory := n * size.cpu, n * size.memory;
            var lower := 100 * request.cpu < o.taintLower * cpu && 100 * request.memory < o.taintLower * memory;
            var upper := 100 * request.cpu < o.taintUpper * cpu && 100 * request.memory < o.taintUpper * memory;
            var fits := 100 * request.cpu <= o.scaleUp * cpu && 100 * request.memory <= o.scaleUp * memory;
            && !UsageOf(env.pods, SplitOf(w, env).untainted).DivisionByZero?
            && (lower ==> Decided(w, env) == Delta(-o.fastRate))
            && (!lower && upper ==> Decided(w, env) == Delta(-o.slowRate))
            && (!upper && fits ==> Decided(w, env) == Delta(0))
  {
    hide SplitOf;
    hide Prepared;
    var o, u, t := env.opts, SplitOf(w, env).untainted, SplitOf(w, env).tainted;
    var cached, request := Prepared(w, env).cached, TotalRequest(env.pods);
    UsageOfSized(env.pods, u, size);
    BandTable(o, request, size, |u|, cached);
    hide UsageOf;
    hide UsageOn;
    hide SwitchDelta;
    OverridesMean(o, env.pods, u, t, cached, env.now);
    hide Decide;
    hide Starved;
  }

  lemma LosesRate(w: World, env: Input, ord: Orders, rate: int)
    requires Valid(w, env, ord) && ReachesDecision(w, env, ord) && !env.opts.dryMode && env.opts.minNodes >= 0
    requires env.taintFails == {} && rate > 0 && Decided(w, env) == Delta(-rate)
    ensures var r, m := Tick(w, env, ord).1, Clamped(env.opts, |SplitOf(w, env).untainted|, w.group.cached, rate);
            && r.outcome == ScaledDown && r.delta == -rate
            && 0 <= m <= |ord.oldest| && r.taintPicks == ord.oldest[..m]
  {
    hide Tick;
    hide SplitOf;
    hide Decided;
    hide UsageOf;
    hide JudgedHealthy;
    DecidedDown(w, env, ord);
    assert Acts(w, env) && Effective(w, env, ord) == -rate;
    ActingIsPlanned(w, env, ord);
    hide Acts;
    hide Effective;
    hide Valid;
    hide Follows;
    hide PlanOf;
    hide ReachesDecision;
  }

  lemma Rests(w: World, env: Input, ord: Orders)
    requires Valid(w, env, ord) && ReachesDecision(w, env, ord) && Decided(w, env) == Delta(0)
    ensures var r := Tick(w, env, ord).1;
            r.outcome == OnlyReaped && r.delta == 0 && r.taintPicks == [] && r.up.picks == [] && r.up.added == 0
  {
    hide Tick;
    hide SplitOf;
    hide Decided;
    hide UsageOf;
    hide JudgedHealthy;
    assert Acts(w, env) && Effective(w, env, ord) == 0;
    NoGrowth(w, env, ord);
    ActingIsPlanned(w, env, ord);
    hide Valid;
    hide ToUntaint;
    hide Asked;
    hide ForceRequest;
    hide ReapRequest;
  }

  /** The bands, for a real tick of a group of equal nodes that reaches the decision without
      overrides or failing calls: under the lower threshold in both resources the oldest nodes are
      tainted at the fast rate, under the upper one at the slow rate, as far as both minimums allow;
      from there up to the scale-up threshold the tick rests. */
  lemma BandsOfTick(w: World, env: Input, ord: Orders, size: Amount)
    requires Valid(w, env, ord) && ReachesDecision(w, env, ord) && !env.opts.dryMode && env.taintFails == {}
    requires ValidThresholds(env.opts) && env.opts.minNodes >= 0
    requires Sized(SplitOf(w, env).untainted, size) && SplitOf(w, env).untainted != []
    requires Plainly(env.opts, env.pods, SplitOf(w, env).untainted, SplitOf(w, env).tainted, env.now)
    ensures var o, n, request, r := env.opts, |SplitOf(w, env).untainted|, TotalRequest(env.pods), Tick(w, env, ord).1;
            var cpu, memory := n * size.cpu, n * size.memory;
            var fast, slow := Clamped(o, n, w.group.cached, o.fastRate), Clamped(o, n, w.group.cached, o.slowRate);
            var lower := 100 * request.cpu < o.taintLower * cpu && 100 * request.memory < o.taintLower * memory;
            var upper := 100 * request.cpu < o.taintUpper * cpu && 100 * request.memory < o.taintUpper * memory;
            var fits := 100 * request.cpu <= o.scaleUp * cpu && 100 * request.memory <= o.scaleUp * memory;
            && (lower && o.fastRate > 0 ==>
                r.delta == -o.fastRate && 0 <= fast <= |ord.oldest| && r.taintPicks == ord.oldest[..fast])
            && (!lower && upper && o.slowRate > 0 ==>
                r.delta == -o.slowRate && 0 <= slow <= |ord.oldest| && r.taintPicks == ord.oldest[..slow])
            && (!upper && fits ==>
                r.outcome == OnlyReaped && r.delta == 0 && r.taintPicks == [] && r.up.picks == [] && r.up.added == 0)
  {
    hide Tick;
    hide SplitOf;
    hide Decided;
    hide UsageOf;
    hide Sized;
    hide Plainly;
    hide ReachesDecision;
    hide Clamped;
    hide Starved;
    DecidesByBand(w, env, size);
    hide Valid;
    var o := env.opts;
    if Decided(w, env) == Delta(-o.fastRate) && o.fastRate > 0 {
      LosesRate(w, env, ord, o.fastRate);
    }
    if Decided(w, env) == Delta(-o.slowRate) && o.slowRate > 0 {
      LosesRate(w, env, ord, o.slowRate);
    }
    if Decided(w, env) == Delta(0) {
      Rests(w, env, ord);
    }
  }

  // ---------- the overrides ----------

  /** A starved group, and one at its minimum with a node past the maximum age and nothing tainted,
      grows: in a healthy tick that gets to act, not over its maximum, the delta is one at least. */
  lemma StarvedOrAgedGrows(w: World, env: Input, ord: Orders)
    requires Valid(w, env, ord) && Acts(w, env) && ReachesDecision(w, env, ord)
    requires |SplitOf(w, env).untainted| <= env.opts.maxNodes
    requires var o, u, t := env.opts, SplitOf(w, env).untainted, SplitOf(w, env).tainted;
             || (o.scaleOnStarve && |u| < o.maxNodes && Starved(env.pods, u))
             || (o.maxNodeAge > 0 && |u| == o.minNodes && u != [] && t == []
                 && exists n :: n in u && env.now - n.created > o.maxNodeAge)
    ensures var r := Tick(w, env, ord).1;
            r.outcome == ScaledUp && r.delta >= 1
  {
    hide Tick;
    hide SplitOf;
    hide Prepared;
    hide UsageOf;
    hide SwitchDelta;
    hide JudgedHealthy;
    var u, t := SplitOf(w, env).untainted, SplitOf(w, env).tainted;
    OverridesMean(env.opts, env.pods, u, t, Prepared(w, env).cached, env.now);
    hide Decide;
    hide Starved;
    assert Effective(w, env, ord) >= 1;
    ActingIsPlanned(w, env, ord);
    hide Valid;
    hide Follows;
    hide PlanOf;
  }
}
