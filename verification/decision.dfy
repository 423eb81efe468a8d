/** The scaling decision of one tick (pkg/controller/controller.go, from the utilisation
    percentages to the node delta) and what it guarantees for groups of equal nodes. */
module Decision {
  import opened Cluster
  import opened Pods
  import opened Utilisation

  /** The thresholds a validated configuration has. */
  predicate ValidThresholds(o: Options) {
    0 < o.taintLower < o.taintUpper < o.scaleUp
  }

  predicate Below(u: Usage, percent: int)
    requires !u.DivisionByZero?
  {
    u.Usage? && MaxReal(u.cpu, u.memory) < percent as real
  }

  predicate Above(u: Usage, percent: int)
    requires !u.DivisionByZero?
  {
    u.Unbounded? || MaxReal(u.cpu, u.memory) > percent as real
  }

  /** The capacity of one node as remembered from an earlier listing; zero if there was none. */
  type Cached = Amount

  function UsageOf(pods: seq<Pod>, untainted: seq<Node>): Usage {
    var r, c := TotalRequest(pods), Capacity(untainted);
    CalcPercentUsage(r.cpu, r.memory, c.cpu, c.memory, |untainted|)
  }

  /** The decision switch: fast removal, slow removal, scale up, or nothing. */
  function SwitchDelta(o: Options, u: Usage, request: Amount, nodeCount: int, cached: Cached): Delta
    requires !u.DivisionByZero? && o.scaleUp != 0
  {
    if Below(u, o.taintLower) then Delta(-o.fastRate)
    else if Below(u, o.taintUpper) then Delta(-o.slowRate)
    else if Above(u, o.scaleUp) then
      CalcScaleUpDelta(nodeCount, u, request.cpu, request.memory, cached.cpu, cached.memory, o.scaleUp)
    else Delta(0)
  }

  /** scaleOnMaxNodeAge: at the minimum, nothing tainted, and some node past the maximum age. */
  predicate AgedOut(o: Options, untainted: seq<Node>, tainted: seq<Node>, now: int) {
    && o.maxNodeAge > 0
    && |untainted| == o.minNodes && |untainted| != 0 && |tainted| == 0
    && exists n :: n in untainted && now - n.created > o.maxNodeAge
  }

  function Overridden(o: Options, delta: int, starved: bool, aged: bool, untainted: int): int {
    var d1 := if starved then MaxInt(delta, 1) else delta;
    var d2 := if aged then MaxInt(d1, 1) else d1;
    if untainted > o.maxNodes then MinInt(d2, o.maxNodes - untainted) else d2
  }

  ghost predicate StarvedScale(o: Options, pods: seq<Pod>, untainted: seq<Node>) {
    o.scaleOnStarve && |untainted| < o.maxNodes && Starved(pods, untainted)
  }

  /** The node delta before the health override. */
  ghost function Decide(o: Options, pods: seq<Pod>, untainted: seq<Node>, tainted: seq<Node>, cached: Cached,
      now: int): Delta
    requires !UsageOf(pods, untainted).DivisionByZero? && o.scaleUp != 0
  {
    match SwitchDelta(o, UsageOf(pods, untainted), TotalRequest(pods), |untainted|, cached)
    case NegativeDelta(d) => NegativeDelta(d)
    case Delta(d) =>
      Delta(Overridden(o, d, StarvedScale(o, pods, untainted), AgedOut(o, untainted, tainted, now), |untainted|))
  }

  // ---------- groups of equal nodes ----------

  /** Every node has the same, positive size. */
  ghost predicate Sized(ns: seq<Node>, size: Amount) {
    size.cpu > 0 && size.memory > 0 && forall n :: n in ns ==> n.cpu == size.cpu && n.memory == size.memory
  }

  predicate FitsOn(request: Amount, size: Amount, threshold: int, n: int) {
    Fits(request.cpu, request.memory, size.cpu, size.memory, threshold, n)
  }

  function UsageOn(request: Amount, size: Amount, n: nat): Usage {
    CalcPercentUsage(request.cpu, request.memory, n * size.cpu, n * size.memory, n)
  }

  /** On a non-empty group, the percentages compare as the integer inequalities do. */
  lemma UsageBounds(request: Amount, size: Amount, n: nat, t: int)
    requires n > 0 && size.cpu > 0 && size.memory > 0
    ensures UsageOn(request, size, n).Usage?
    ensures !Above(UsageOn(request, size, n), t) <==> FitsOn(request, size, t, n)
    ensures Below(UsageOn(request, size, n), t) <==>
            100 * request.cpu < t * (n * size.cpu) && 100 * request.memory < t * (n * size.memory)
  {
    PercentBound(request.cpu, n, size.cpu, t);
    PercentBound(request.memory, n, size.memory, t);
    MilliCancels(request.memory, n * size.memory);
  }

  /** What calcScaleUpDelta computes, against the reference: a total of `total` nodes fits
      exactly when it is no less than the current count plus the delta. */
  lemma DeltaExact(t: int, request: Amount, size: Amount, n: nat, total: int)
    requires t > 0 && size.cpu > 0 && size.memory > 0
    ensures n == 0 ==> (FitsOn(request, size, t, total) <==>
              total >= MaxInt(FromZero(request.cpu, size.cpu, t),
                FromZero(Milli(request.memory), Milli(size.memory), t)))
    ensures n > 0 ==> UsageOn(request, size, n).Usage? && (FitsOn(request, size, t, total) <==>
              total >= n + MaxInt(ToAdd(n, UsageOn(request, size, n).cpu, t),
                ToAdd(n, UsageOn(request, size, n).memory, t)))
  {
    if n == 0 {
      FromZeroExact(request.cpu, size.cpu, t, total);
      FromZeroExact(request.memory, size.memory, t, total);
    } else {
      ToAddExact(request.cpu, size.cpu, n, t, total - n);
      ToAddExact(request.memory, size.memory, n, t, total - n);
      MilliCancels(request.memory, n * size.memory);
    }
  }

  /** Sufficient and least: with the delta that the switch returns, the group fits; with any
      smaller total it does not. The delta is at least one and never the negative-delta error. */
  lemma DeltaIsLeast(o: Options, request: Amount, size: Amount, n: nat, cached: Cached)
    requires ValidThresholds(o) && size.cpu > 0 && size.memory > 0
    requires request.cpu >= 0 && request.memory >= 0
    requires n == 0 ==> cached == size
    requires !UsageOn(request, size, n).DivisionByZero? && Above(UsageOn(request, size, n), o.scaleUp)
    ensures var r := SwitchDelta(o, UsageOn(request, size, n), request, n, cached);
            && r.Delta? && r.nodes >= 1
            && forall total: int :: FitsOn(request, size, o.scaleUp, total) <==> total >= n + r.nodes
  {
    var t := o.scaleUp;
    var u := UsageOn(request, size, n);
    DeltaExact(t, request, size, n, n);
    var d := if n == 0 then
               MaxInt(FromZero(request.cpu, size.cpu, t), FromZero(Milli(request.memory), Milli(size.memory), t))
             else MaxInt(ToAdd(n, u.cpu, t), ToAdd(n, u.memory, t));
    forall total: int ensures FitsOn(request, size, t, total) <==> total >= n + d {
      DeltaExact(t, request, size, n, total);
    }
    assert !FitsOn(request, size, t, n) by {
      if n > 0 {
        UsageBounds(request, size, n, t);
      }
    }
    SwitchScalesUp(o, u, request, n, cached, d);
  }

  lemma SwitchScalesUp(o: Options, u: Usage, request: Amount, n: nat, cached: Cached, d: int)
    requires ValidThresholds(o) && !u.DivisionByZero? && Above(u, o.scaleUp) && d >= 1
    requires u.Unbounded? ==> cached.cpu > 0 && cached.memory > 0
    requires d == if u.Unbounded? then
                    MaxInt(FromZero(request.cpu, cached.cpu, o.scaleUp),
                           FromZero(Milli(request.memory), Milli(cached.memory), o.scaleUp))
                  else MaxInt(ToAdd(n, u.cpu, o.scaleUp), ToAdd(n, u.memory, o.scaleUp))
    ensures SwitchDelta(o, u, request, n, cached) == Delta(d)
  {
  }

  /** Without a remembered capacity a group without untainted nodes grows by exactly one. */
  lemma FromNothingGrowsByOne(o: Options, request: Amount, cached: Cached)
    requires ValidThresholds(o) && (cached.cpu == 0 || cached.memory == 0)
    requires request.cpu > 0 || request.memory > 0
    ensures SwitchDelta(o, CalcPercentUsage(request.cpu, request.memory, 0, 0, 0), request, 0, cached) == Delta(1)
  {
  }

  /** Where the group lands after the scale-up: at or under the scale-up threshold, and not
      under the removal threshold if it has scaleUp / (scaleUp - taintUpper) nodes or more. */
  lemma LandsInBand(o: Options, request: Amount, size: Amount, m: nat)
    requires ValidThresholds(o) && m > 0
    requires size.cpu > 0 && size.memory > 0
    requires FitsOn(request, size, o.scaleUp, m) && !FitsOn(request, size, o.scaleUp, m - 1)
    ensures UsageOn(request, size, m).Usage? && !Above(UsageOn(request, size, m), o.scaleUp)
    ensures m * (o.scaleUp - o.taintUpper) >= o.scaleUp ==> !Below(UsageOn(request, size, m), o.taintUpper)
  {
    UsageBounds(request, size, m, o.scaleUp);
    UsageBounds(request, size, m, o.taintUpper);
    if m * (o.scaleUp - o.taintUpper) >= o.scaleUp {
      StillBusy(request.cpu, size.cpu, o.scaleUp, o.taintUpper, m);
      StillBusy(request.memory, size.memory, o.scaleUp, o.taintUpper, m);
    }
  }

  /** Too much for `m - 1` nodes at the upper threshold is enough for `m` nodes at the lower one. */
  lemma StillBusy(request: int, perNode: int, up: int, low: int, m: int)
    requires perNode > 0 && m * (up - low) >= up
    ensures !FitsOne(request, perNode, up, m - 1) ==> 100 * request > low * (m * perNode)
  {
    assert up * (m - 1) >= low * m;
    assert up * ((m - 1) * perNode) == up * (m - 1) * perNode;
    assert low * (m * perNode) == low * m * perNode;
    Monotone(up * (m - 1), low * m, perNode);
  }

  lemma Monotone(a: int, b: int, k: int)
    requires a >= b && k > 0
    ensures a * k >= b * k
  {
  }

  /** No flapping: once the nodes asked for are there and requests are unchanged, the next
      switch does not scale up; and it does not scale down either when the group has at least
      scaleUp / (scaleUp - taintUpper) nodes. */
  lemma NoFlap(o: Options, request: Amount, size: Amount, n: nat, cached: Cached, m: nat)
    requires ValidThresholds(o) && o.fastRate >= 0 && o.slowRate >= 0
    requires size.cpu > 0 && size.memory > 0 && request.cpu >= 0 && request.memory >= 0
    requires n == 0 ==> cached == size
    requires !UsageOn(request, size, n).DivisionByZero? && Above(UsageOn(request, size, n), o.scaleUp)
    requires m == n + SwitchDelta(o, UsageOn(request, size, n), request, n, cached).nodes
    ensures m > 0 && UsageOn(request, size, m).Usage?
    ensures var next := SwitchDelta(o, UsageOn(request, size, m), request, m, cached);
            && next.Delta? && next.nodes <= 0
            && (m * (o.scaleUp - o.taintUpper) >= o.scaleUp ==> next == Delta(0))
  {
    DeltaIsLeast(o, request, size, n, cached);
    assert FitsOn(request, size, o.scaleUp, m) && !FitsOn(request, size, o.scaleUp, m - 1);
    LandsInBand(o, request, size, m);
    Thresholds(o, UsageOn(request, size, m), request, m, cached);
  }

  lemma Thresholds(o: Options, u: Usage, request: Amount, n: nat, cached: Cached)
    requires ValidThresholds(o) && o.fastRate >= 0 && o.slowRate >= 0
    requires u.Usage? && !Above(u, o.scaleUp)
    ensures var next := SwitchDelta(o, u, request, n, cached);
            next.Delta? && next.nodes <= 0 && (!Below(u, o.taintUpper) ==> next == Delta(0))
  {
  }

  /** The bound is exact: for every smaller group some request makes the switch scale up by one
      node and then, with that node in place, remove nodes. */
  lemma FlapsBelowBound(o: Options, m: nat) returns (request: Amount, size: Amount)
    requires ValidThresholds(o) && o.fastRate > 0 && o.slowRate > 0
    requires m >= 1 && m * (o.scaleUp - o.taintUpper) < o.scaleUp
    ensures size.cpu > 0 && size.memory > 0 && request.cpu >= 0 && request.memory >= 0
    ensures !UsageOn(request, size, m - 1).DivisionByZero? && UsageOn(request, size, m).Usage?
    ensures SwitchDelta(o, UsageOn(request, size, m - 1), request, m - 1, size) == Delta(1)
    ensures SwitchDelta(o, UsageOn(request, size, m), request, m, size).nodes < 0
  {
    if m == 1 {
      request, size := FlapsFromZero(o);
    } else {
      var load := 2 * (o.scaleUp * (m - 1)) + 1;
      request, size := Amount(load, load), Amount(200, 200);
      FlapLoad(o.scaleUp, o.taintUpper, m, load);
      UsageBounds(request, size, m - 1, o.scaleUp);
      UsageBounds(request, size, m, o.taintUpper);
      DeltaIsLeast(o, request, size, m - 1, size);
      assert FitsOn(request, size, o.scaleUp, m);
      Removes(o, UsageOn(request, size, m), request, m, size);
    }
  }

  /** A group of one never meets the bound: a small request brings the node up, and it is removed. */
  lemma FlapsFromZero(o: Options) returns (request: Amount, size: Amount)
    requires ValidThresholds(o) && o.fastRate > 0 && o.slowRate > 0
    ensures size.cpu > 0 && size.memory > 0 && request.cpu >= 0 && request.memory >= 0
    ensures UsageOn(request, size, 0).Unbounded? && UsageOn(request, size, 1).Usage?
    ensures SwitchDelta(o, UsageOn(request, size, 0), request, 0, size) == Delta(1)
    ensures SwitchDelta(o, UsageOn(request, size, 1), request, 1, size).nodes < 0
  {
    request, size := Amount(1, 1), Amount(1000, 1000);
    DeltaIsLeast(o, request, size, 0, size);
    assert FitsOn(request, size, o.scaleUp, 1);
    UsageBounds(request, size, 1, o.taintUpper);
    Removes(o, UsageOn(request, size, 1), request, 1, size);
  }

  lemma FlapLoad(up: int, low: int, m: int, load: int)
    requires 0 < low < up && m >= 2 && m * (up - low) < up && load == 2 * (up * (m - 1)) + 1
    ensures load > 0
    ensures 100 * load < low * (m * 200)
    ensures 100 * load > up * ((m - 1) * 200)
    ensures 100 * load <= up * (m * 200)
  {
    assert m * (up - low) == up * m - low * m;
    assert up * (m - 1) == up * m - up;
    assert low * (m * 200) == 200 * (low * m);
    assert up * ((m - 1) * 200) == 200 * (up * (m - 1));
    assert up * (m * 200) == 200 * (up * m);
    Monotone(m - 1, 1, up);
  }

  lemma Removes(o: Options, u: Usage, request: Amount, n: nat, cached: Cached)
    requires ValidThresholds(o) && o.fastRate > 0 && o.slowRate > 0
    requires u.Usage? && Below(u, o.taintUpper)
    ensures SwitchDelta(o, u, request, n, cached).nodes < 0
  {
  }

  // ---------- the bands and the overrides, in numbers ----------

  /** The band table of a group of n equal nodes, in requests and capacity. Under the lower threshold
      in both resources it loses the fast rate; else under the upper one in both, the slow rate; else
      up to and including the scale-up threshold in both it rests. Beyond that it grows, by
      `DeltaIsLeast`. */
  lemma BandTable(o: Options, request: Amount, size: Amount, n: nat, cached: Cached)
    requires ValidThresholds(o) && size.cpu > 0 && size.memory > 0 && n > 0
    ensures var cpu, memory := n * size.cpu, n * size.memory;
            var lower := 100 * request.cpu < o.taintLower * cpu && 100 * request.memory < o.taintLower * memory;
            var upper := 100 * request.cpu < o.taintUpper * cpu && 100 * request.memory < o.taintUpper * memory;
            var fits := 100 * request.cpu <= o.scaleUp * cpu && 100 * request.memory <= o.scaleUp * memory;
            && UsageOn(request, size, n).Usage?
            && (lower ==> SwitchDelta(o, UsageOn(request, size, n), request, n, cached) == Delta(-o.fastRate))
            && (!lower && upper ==> SwitchDelta(o, UsageOn(request, size, n), request, n, cached) == Delta(-o.slowRate))
            && (!upper && fits ==> SwitchDelta(o, UsageOn(request, size, n), request, n, cached) == Delta(0))
  {
    var u := UsageOn(request, size, n);
    UsageBounds(request, size, n, o.taintLower);
    UsageBounds(request, size, n, o.taintUpper);
    UsageBounds(request, size, n, o.scaleUp);
    LowerIsUpper(request.cpu, o.taintLower, o.taintUpper, n * size.cpu);
    LowerIsUpper(request.memory, o.taintLower, o.taintUpper, n * size.memory);
    assert n * size.cpu > 0 && n * size.memory > 0;
    assert FitsOn(request, size, o.scaleUp, n) <==>
           100 * request.cpu <= o.scaleUp * (n * size.cpu) && 100 * request.memory <= o.scaleUp * (n * size.memory);
    hide UsageOn;
    hide FitsOn;
    hide CalcScaleUpDelta;
  }

  lemma LowerIsUpper(request: int, lower: int, upper: int, capacity: int)
    requires lower <= upper && capacity >= 0
    ensures 100 * request < lower * capacity ==> 100 * request < upper * capacity
  {
    assert (upper - lower) * capacity >= 0;
  }

  /** When the tick cannot use the capacity, and when there is none to use. A capacity of zero is
      unusable with untainted nodes; without any it is unbounded use, unless nothing is requested. */
  lemma UsageMeans(pods: seq<Pod>, ns: seq<Node>)
    ensures var u, r, c := UsageOf(pods, ns), TotalRequest(pods), Capacity(ns);
            && (u.DivisionByZero? <==> ns != [] && (c.cpu == 0 || c.memory == 0))
            && (u.Unbounded? <==> ns == [] && (r.cpu != 0 || r.memory != 0))
            && (ns == [] && r == Amount(0, 0) ==> u == Usage(0.0, 0.0))
  {
    if ns == [] {
      assert Capacity(ns) == NOTHING;
    }
    hide Capacity;
    hide TotalRequest;
  }

  /** The overrides, in numbers. A starved or aged group asks for one node at least; a group over its
      maximum loses the excess at least; nothing else changes what the bands say. */
  lemma OverridesMean(o: Options, pods: seq<Pod>, untainted: seq<Node>, tainted: seq<Node>, cached: Cached, now: int)
    requires !UsageOf(pods, untainted).DivisionByZero? && o.scaleUp != 0
    ensures var base := SwitchDelta(o, UsageOf(pods, untainted), TotalRequest(pods), |untainted|, cached);
            var d := Decide(o, pods, untainted, tainted, cached, now);
            var starved := o.scaleOnStarve && |untainted| < o.maxNodes && Starved(pods, untainted);
            var aged := o.maxNodeAge > 0 && |untainted| == o.minNodes && untainted != [] && tainted == []
                        && exists n :: n in untainted && now - n.created > o.maxNodeAge;
            && (base.NegativeDelta? ==> d == base)
            && (base.Delta? ==> d.Delta?)
            && (base.Delta? && !starved && !aged && |untainted| <= o.maxNodes ==> d.nodes == base.nodes)
            && (base.Delta? && (starved || aged) && |untainted| <= o.maxNodes ==>
                d.nodes == if base.nodes >= 1 then base.nodes else 1)
            && (base.Delta? && |untainted| > o.maxNodes ==>
                d.nodes <= o.maxNodes - |untainted|
                && (base.nodes <= o.maxNodes - |untainted| && !aged ==> d.nodes == base.nodes)
                && (base.nodes >= o.maxNodes - |untainted| ==> d.nodes == o.maxNodes - |untainted|))
  {
    hide SwitchDelta;
    hide UsageOf;
    hide Starved;
  }

  // ---------- the same, for listed nodes ----------

  lemma UsageOfSized(pods: seq<Pod>, ns: seq<Node>, size: Amount)
    requires Sized(ns, size)
    ensures UsageOf(pods, ns) == UsageOn(TotalRequest(pods), size, |ns|)
  {
    EqualCapacity(ns, size.cpu, size.memory);
  }

  /** Two consecutive decisions of a group of equal nodes, absent the overrides: if the first
      one scales up and the nodes it asked for have joined, the second one does not scale up,
      and does nothing at all in a group that is large enough for its thresholds. */
  lemma NextDecisionIsQuiet(o: Options, pods: seq<Pod>, before: seq<Node>, after: seq<Node>,
                            tainted: seq<Node>, size: Amount, cached: Cached, now: int)
    requires ValidThresholds(o) && o.fastRate >= 0 && o.slowRate >= 0
    requires Sized(before, size) && Sized(after, size)
    requires before == [] ==> cached == size
    requires !UsageOf(pods, before).DivisionByZero? && Above(UsageOf(pods, before), o.scaleUp)
    requires |after| == |before| + SwitchDelta(o, UsageOf(pods, before), TotalRequest(pods), |before|, cached).nodes
    requires |after| <= o.maxNodes && !StarvedScale(o, pods, after) && !AgedOut(o, after, tainted, now)
    ensures UsageOf(pods, after).Usage?
    ensures var next := Decide(o, pods, after, tainted, cached, now);
            && next.Delta? && next.nodes <= 0
            && (|after| * (o.scaleUp - o.taintUpper) >= o.scaleUp ==> next == Delta(0))
  {
    UsageOfSized(pods, before, size);
    UsageOfSized(pods, after, size);
    NoFlap(o, TotalRequest(pods), size, |before|, cached, |after|);
  }
}
