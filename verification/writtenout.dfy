/** Ticks written out: which nodes are listed, requested, tainted and untainted, and how ticks end,
    in terms of taints, conditions, annotations, pods and numbers alone. */
module WrittenOut {
  import opened Cluster
  import opened Taints
  import opened Order
  import opened Pods
  import opened Decision
  import opened Health
  import opened Cloud
  import opened ControlLoop
  import opened TickTheorems
  import opened ScalingTheorems
  import opened Plans
  import opened DryRuns
  import opened Utilisation

  // ---------- the four lists ----------

  /** The node carries a taint under this key. */
  ghost predicate Carries(n: Node, key: string) {
    exists t :: t in n.taints && t.key == key
  }

  lemma CarriesMeans(n: Node, key: string)
    ensures HasTaint(n, key) <==> Carries(n, key)
  {
    NoKey(n.taints, key);
  }

  /** Outside dry mode: cordoned nodes apart, the force taint decides, then the escalator taint. */
  lemma ListsMean(w: World, env: Input, n: Node)
    requires !env.opts.dryMode && n in w.nodes
    ensures var s := SplitOf(w, env);
            var force, taint := Carries(n, "atlassian.com/escalator-force"), Carries(n, "atlassian.com/escalator");
            && (n in s.cordoned <==> n.unschedulable)
            && (n in s.forced <==> !n.unschedulable && force)
            && (n in s.tainted <==> !n.unschedulable && !force && taint)
            && (n in s.untainted <==> !n.unschedulable && !force && !taint)
  {
    CarriesMeans(n, TO_BE_FORCE_REMOVED);
    CarriesMeans(n, TO_BE_REMOVED);
    hide HasTaint;
    hide Carries;
    hide Prepared;
  }

  /** In dry mode: nothing is cordoned, and the trackers decide. */
  lemma DryListsMean(w: World, env: Input, n: Node)
    requires env.opts.dryMode && env.opts.unhealthyGrace <= 0 && n in w.nodes
    ensures var s := SplitOf(w, env);
            && n !in s.cordoned
            && (n in s.forced <==> n.name in w.forceTracker)
            && (n in s.tainted <==> n.name !in w.forceTracker && n.name in w.tracker)
            && (n in s.untainted <==> n.name !in w.forceTracker && n.name !in w.tracker)
  {
  }

  // ---------- the two requests ----------

  /** Every listed pod on the node is owned by a daemonset. */
  ghost predicate OnlyDaemons(pods: seq<Pod>, name: string) {
    forall p :: p in pods && p.nodeName == name ==> "DaemonSet" in p.ownerKinds
  }

  /** The first escalator taint of a node reads as this Unix time in seconds. */
  ghost predicate ReadsAs(n: Node, seconds: int) {
    exists i :: 0 <= i < |n.taints| && n.taints[i].key == "atlassian.com/escalator"
                && (forall j :: 0 <= j < i ==> n.taints[j].key != "atlassian.com/escalator")
                && Decimal.Parse(n.taints[i].value) == Some(seconds)
  }

  lemma ReadsMeans(n: Node, seconds: int)
    ensures ReadsAs(n, seconds) <==> ToBeRemovedTime(n) == MarkedAt(seconds * SECOND)
  {
    var i := IndexOf(n.taints, TO_BE_REMOVED);
    if ReadsAs(n, seconds) {
      var k :| 0 <= k < |n.taints| && n.taints[k].key == "atlassian.com/escalator"
               && (forall j :: 0 <= j < k ==> n.taints[j].key != "atlassian.com/escalator")
               && Decimal.Parse(n.taints[k].value) == Some(seconds);
      assert k == i;
    }
    if ToBeRemovedTime(n) == MarkedAt(seconds * SECOND) {
      assert Decimal.Parse(n.taints[i].value) == Some(seconds);
    }
  }

  /** When a node may be requested for its escalator taint. */
  ghost predicate DueWritten(n: Node, env: Input, healthyToo: bool) {
    && (env.opts.unhealthyGrace > 0 && !healthyToo ==> Unhealthy(n, env.opts.unhealthyGrace, env.now))
    && ("atlassian.com/no-delete" in n.annotations ==> n.annotations["atlassian.com/no-delete"] == "")
    && exists seconds ::
         && ReadsAs(n, seconds)
         && env.now - seconds * SECOND > env.opts.softGrace
         && (OnlyDaemons(env.pods, n.name) || env.now - seconds * SECOND > env.opts.hardGrace)
  }

  lemma OnlyDaemonsMeans(pods: seq<Pod>, name: string)
    ensures EmptyNode(pods, name) <==> OnlyDaemons(pods, name)
  {
    EmptyMeans(pods, name);
    hide EmptyNode;
  }

  lemma DueMeans(n: Node, env: Input, healthyToo: bool)
    ensures Reapable(env, n, healthyToo) <==> DueWritten(n, env, healthyToo)
  {
    OnlyDaemonsMeans(env.pods, n.name);
    hide EmptyNode;
    hide OnlyDaemons;
    hide Unhealthy;
    hide ReadsAs;
    if Reapable(env, n, healthyToo) {
      var i := IndexOf(n.taints, TO_BE_REMOVED);
      var seconds := Decimal.Parse(n.taints[i].value).value;
      ReadsMeans(n, seconds);
    }
    if DueWritten(n, env, healthyToo) {
      var seconds :| ReadsAs(n, seconds) && env.now - seconds * SECOND > env.opts.softGrace
                     && (OnlyDaemons(env.pods, n.name) || env.now - seconds * SECOND > env.opts.hardGrace);
      ReadsMeans(n, seconds);
    }
  }

  /** Who is requested, in every real tick that ends in an action. The force pass: the force-tainted
      nodes on which only daemonset pods are listed. The reap pass, unless the tick scaled up: the
      other tainted nodes that are due, and in a group found unhealthy only the sick ones. No other
      tick requests anything. */
  lemma RequestsMean(w: World, env: Input, ord: Orders, n: Node)
    requires Valid(w, env, ord) && !env.opts.dryMode
    ensures var r := Tick(w, env, ord).1;
            var acted := r.outcome == ScaledUp || r.outcome == ScaledDown || r.outcome == OnlyReaped;
            var force := Carries(n, "atlassian.com/escalator-force");
            && (n in r.forced.request <==>
                acted && n in w.nodes && !n.unschedulable && force && OnlyDaemons(env.pods, n.name))
            && (n in r.reaped.request <==>
                && acted && r.outcome != ScaledUp && n in w.nodes && !n.unschedulable && !force
                && Carries(n, "atlassian.com/escalator") && DueWritten(n, env, r.healthy))
  {
    hide Tick;
    hide SplitOf;
    hide Carries;
    hide DueWritten;
    hide OnlyDaemons;
    TickAccounts(w, env, ord);
    SplitListed(w, env);
    hide Valid;
    var r := Tick(w, env, ord).1;
    DueMeans(n, env, r.healthy);
    DueMeans(n, env, true);
    OnlyDaemonsMeans(env.pods, n.name);
    hide Reapable;
    hide EmptyNode;
    if n in w.nodes {
      ListsMean(w, env, n);
    }
  }

  // ---------- who is tainted and untainted ----------

  /** Picks that stop short of what was asked for left out only what was to be skipped. */
  lemma ShortPicks(order: seq<nat>, ns: seq<Node>, skip: set<string>, max: int, x: nat)
    requires Permutation(order, |ns|) && InRange(order, |ns|) && x < |ns|
    requires |Picks(order, ns, skip, max)| < max && x !in Picks(order, ns, skip, max)
    ensures ns[x].name in skip
  {
    PermutationFacts(order, |ns|);
    var k := PicksArePrefix(order, ns, skip, max);
    assert order[..k] == order;
  }

  lemma NamePicked(ns: seq<Node>, picks: seq<nat>, i: nat)
    requires InRange(picks, |ns|) && i in picks && i < |ns|
    ensures ns[i].name in Names(At(ns, picks))
  {
    var j :| 0 <= j < |picks| && picks[j] == i;
    assert At(ns, picks)[j] == ns[i];
  }

  lemma PickedName(ns: seq<Node>, picks: seq<nat>, name: string) returns (i: nat)
    requires InRange(picks, |ns|) && name in Names(At(ns, picks))
    ensures i in picks && i < |ns| && ns[i].name == name
  {
    var m :| m in At(ns, picks) && m.name == name;
    var j :| 0 <= j < |picks| && At(ns, picks)[j] == m;
    i := picks[j];
  }

  /** The unhealthy pass of a listed real tick taints exactly the sick nodes whose call succeeds. */
  lemma SickAreTainted(w: World, env: Input, name: string)
    requires !env.opts.dryMode && UniqueNames(w.nodes)
    ensures name in Unhealthied(w, env) <==>
            && env.listed && env.opts.unhealthyGrace > 0 && name !in env.unhealthyTaintFails
            && exists n :: n in w.nodes && n.name == name && Unhealthy(n, env.opts.unhealthyGrace, env.now)
  {
    hide Unhealthy;
    UnhealthyPicksInRange(w, env);
    if env.listed && env.opts.unhealthyGrace > 0 {
      var at := UnhealthyAt(w.nodes, env.opts.unhealthyGrace, env.now);
      var picks := UnhealthyPicks(w, env);
      var skip := TaintSkips(w, env.opts, w.nodes, env.unhealthyTaintFails);
      assert skip == env.unhealthyTaintFails by {
        assert Names(w.nodes) - Names(w.nodes) == {};
      }
      AllEligible(at, w.nodes, skip);
      assert picks == Picks(at, w.nodes, skip, |at|);
      hide Picks;
      hide TaintSkips;
      hide UnhealthyPicks;
      if n :| n in w.nodes && n.name == name && Unhealthy(n, env.opts.unhealthyGrace, env.now) {
        var i :| 0 <= i < |w.nodes| && w.nodes[i] == n;
        assert i in at;
        if name !in skip {
          NamePicked(w.nodes, picks, i);
        }
      }
      if name in Names(At(w.nodes, picks)) {
        var i := PickedName(w.nodes, picks, name);
        assert i in at && w.nodes[i] in w.nodes;
      }
    }
  }

  /** With room for all, the picks are the positions that are not skipped. */
  lemma AllEligible(order: seq<nat>, ns: seq<Node>, skip: set<string>)
    requires InRange(order, |ns|)
    ensures forall x :: x in Picks(order, ns, skip, |order|) <==> x in order && x < |ns| && ns[x].name !in skip
  {
    var k := PicksArePrefix(order, ns, skip, |order|);
    assert |Eligible(order[..k], ns, skip)| <= k;
    assert order[..k] == order;
  }

  lemma GrowthIsDelta(w: World, env: Input, ord: Orders)
    requires Valid(w, env, ord)
    ensures var o := Outlook(w, env, ord);
            Growth(w, env, ord) == if o.0 == ScaledUp || o.0 == BelowMinimum then o.1 else 0
  {
    hide SplitOf;
    hide Effective;
    hide Decided;
    hide UsageOf;
    hide Prepared;
    SelectedAtMost(w, env);
    ValidFacts(w, env, ord);
    hide Valid;
    if TooFewUntainted(w, env) {
      assert Outlook(w, env, ord).0 == BelowMinimum;
    } else if Acts(w, env) {
      assert Outlook(w, env, ord).1 == Effective(w, env, ord);
    } else {
      assert Outlook(w, env, ord).0 != ScaledUp && Outlook(w, env, ord).0 != BelowMinimum;
    }
  }

  lemma AskedForMeans(d: Description, gain: int, picks: nat)
    ensures AskedFor(d, gain, picks) ==
            if gain - picks <= 0 || d.maxSize <= d.target then 0
            else if gain - picks <= d.maxSize - d.target then gain - picks
            else d.maxSize - d.target
  {
  }

  /** How many nodes a tick tries to gain is the delta it reports, if it ends scaled up or below the
      minimum; no other tick tries. And what it asks of the cloud is what untainting leaves of that,
      as far as the maximum allows. */
  lemma GainsMean(w: World, env: Input, ord: Orders)
    requires Valid(w, env, ord)
    ensures var r, d := Tick(w, env, ord).1, w.group.cached;
            var gain := if r.outcome == ScaledUp || r.outcome == BelowMinimum then r.delta else 0;
            var left := gain - |r.up.picks|;
            && Growth(w, env, ord) == gain
            && (gain == 0 ==> r.up.picks == [])
            && Asked(w, env, ord) ==
               if left <= 0 || d.maxSize <= d.target then 0
               else if left <= d.maxSize - d.target then left else d.maxSize - d.target
  {
    hide Tick;
    hide Outlook;
    hide Growth;
    hide AskedFor;
    hide ToTaint;
    hide ToUntaint;
    hide ForceRequest;
    hide ReapRequest;
    hide TrackerAfter;
    TickIsPlanned(w, env, ord);
    GrowthIsDelta(w, env, ord);
    AskedForMeans(w.group.cached, Growth(w, env, ord), |ToUntaint(w, env, ord)|);
    if Growth(w, env, ord) <= 0 {
      NoGrowth(w, env, ord);
    }
    hide Valid;
    hide AfterAsking;
    hide AfterRemovals;
    hide GrantedTo;
  }

  /** What a tick untaints: no more than the nodes it is short of, none that is sick under health
      checks or whose call fails; and every other tainted node, if that is not enough. */
  lemma UntaintsMean(w: World, env: Input, ord: Orders, x: nat)
    requires Valid(w, env, ord) && !env.opts.dryMode && x < |SplitOf(w, env).tainted|
    ensures var v, n := Tick(w, env, ord).1.up.picks, SplitOf(w, env).tainted[x];
            var eligible := n.name !in env.untaintFails
                            && (env.opts.unhealthyGrace > 0 ==> !Unhealthy(n, env.opts.unhealthyGrace, env.now));
            var r := Tick(w, env, ord).1;
            var gain := if r.outcome == ScaledUp || r.outcome == BelowMinimum then r.delta else 0;
            && |v| <= MaxInt(0, gain)
            && (x in v ==> eligible)
            && (eligible && |v| < gain ==> x in v)
  {
    hide Tick;
    hide SplitOf;
    hide Unhealthy;
    hide Growth;
    GainsMean(w, env, ord);
    TickIsPlanned(w, env, ord);
    ValidFacts(w, env, ord);
    assert Permutation(ord.newest, |SplitOf(w, env).tainted|);
    hide Valid;
    var p, tainted, g := Prepared(w, env), SplitOf(w, env).tainted, Growth(w, env, ord);
    TaintedThere(w, env, x);
    TaintedUnique(w, env);
    hide Prepared;
    var skip := UntaintSkips(p, env, tainted);
    SkipMeans(p, env, tainted, x);
    hide UntaintSkips;
    PicksSound(ord.newest, tainted, skip, g);
    if |ToUntaint(w, env, ord)| < g && x !in ToUntaint(w, env, ord) {
      ShortPicks(ord.newest, tainted, skip, g, x);
    }
    hide Picks;
    hide Asked;
    hide Outlook;
    hide ForceRequest;
    hide ReapRequest;
    hide ToTaint;
  }

  lemma TaintedThere(w: World, env: Input, x: nat)
    requires !env.opts.dryMode && x < |SplitOf(w, env).tainted|
    ensures var n := SplitOf(w, env).tainted[x]; Tainted(n) && n.name in Names(Prepared(w, env).nodes)
  {
    PreparedNames(w, env);
    hide Prepared;
    var n := SplitOf(w, env).tainted[x];
    assert n in SplitOf(w, env).tainted;
    assert n in w.nodes && n.name in Names(w.nodes);
  }

  lemma SkipMeans(p: World, env: Input, tainted: seq<Node>, x: nat)
    requires UniqueNames(tainted) && x < |tainted| && !env.opts.dryMode
    requires Tainted(tainted[x]) && tainted[x].name in Names(p.nodes)
    ensures tainted[x].name !in UntaintSkips(p, env, tainted) <==>
            && tainted[x].name !in env.untaintFails
            && (env.opts.unhealthyGrace > 0 ==> !Unhealthy(tainted[x], env.opts.unhealthyGrace, env.now))
  {
    hide Unhealthy;
    hide Tainted;
    assert tainted[x] in tainted;
    if tainted[x].name in UntaintSkips(p, env, tainted) {
      var m :| m in tainted && !MayUntaint(p, env, m) && m.name == tainted[x].name;
      UniqueByName(tainted, m, tainted[x]);
    }
  }

  lemma AlongMeans(o: Options, d: Description, failing: set<string>, oldest: seq<nat>, u: seq<Node>, wanted: nat,
      x: nat)
    requires Permutation(oldest, |u|) && InRange(oldest, |u|) && Distinct(oldest) && x < |u| && !o.dryMode
    requires |u| >= o.minNodes >= 0
    ensures var t, m := TaintsAlong(o, d, failing, oldest, u, wanted), Clamped(o, |u|, d, wanted);
            && |t| <= m && (x in t ==> u[x].name !in failing)
            && (u[x].name !in failing && |t| < m ==> x in t)
  {
    var m := Clamped(o, |u|, d, wanted);
    assert TaintAmount(o, |u|, d, wanted) == Some(m);
    PicksSound(oldest, u, failing, m);
    hide Permutation;
    if |Picks(oldest, u, failing, m)| < m && x !in Picks(oldest, u, failing, m) {
      ShortPicks(oldest, u, failing, m, x);
    }
    hide Picks;
  }

  /** What a tick that decides to lose `wanted` nodes taints, whatever calls fail: no more than both
      minimums allow, no node whose call fails, and every other untainted one if that is not enough. */
  lemma TaintsMean(w: World, env: Input, ord: Orders, wanted: int, x: nat)
    requires Valid(w, env, ord) && !env.opts.dryMode && x < |SplitOf(w, env).untainted| && env.opts.minNodes >= 0
    requires Acts(w, env) && Effective(w, env, ord) == -wanted && wanted > 0
    ensures var t, u := Tick(w, env, ord).1.taintPicks, SplitOf(w, env).untainted;
            var m := Clamped(env.opts, |u|, w.group.cached, wanted);
            && |t| <= m && (x in t ==> u[x].name !in env.taintFails)
            && (u[x].name !in env.taintFails && |t| < m ==> x in t)
  {
    hide Tick;
    hide SplitOf;
    hide Decided;
    hide JudgedHealthy;
    hide UsageOf;
    hide Clamped;
    hide TaintsAlong;
    hide Reaches;
    TickIsPlanned(w, env, ord);
    ValidFacts(w, env, ord);
    EnoughUntainted(w, env);
    assert Permutation(ord.oldest, |SplitOf(w, env).untainted|);
    assert Shrinkage(w, env, ord) == wanted;
    hide Valid;
    hide Shrinkage;
    AlongMeans(env.opts, w.group.cached, env.taintFails, ord.oldest, SplitOf(w, env).untainted, wanted, x);
    hide Effective;
    hide Outlook;
    hide Asked;
    hide ForceRequest;
    hide ReapRequest;
    hide ToUntaint;
  }

  lemma EnoughUntainted(w: World, env: Input)
    requires env.opts.scaleUp != 0 && Acts(w, env)
    ensures |SplitOf(w, env).untainted| >= env.opts.minNodes
  {
    hide SplitOf;
    hide Decided;
    hide UsageOf;
  }

  // ---------- how ticks end ----------

  lemma OutlookMeans(w: World, env: Input, ord: Orders)
    requires Valid(w, env, ord)
    ensures var r, u := Outlook(w, env, ord), SplitOf(w, env).untainted;
            var some := env.listed && (w.nodes != [] || env.pods != []);
            var enough := some && |w.nodes| >= env.opts.minNodes && |u| >= env.opts.minNodes;
            var usable := u == [] || (Capacity(u).cpu != 0 && Capacity(u).memory != 0);
            && (r.0 == ListFailed <==> !env.listed)
            && (r.0 == NothingToDo <==> env.listed && w.nodes == [] && env.pods == [])
            && (r.0 == TooFewNodes <==> some && |w.nodes| < env.opts.minNodes)
            && (r.0 == BelowMinimum <==> some && |w.nodes| >= env.opts.minNodes > |u|)
            && (r.0 == BelowMinimum ==> r.1 == env.opts.minNodes - |u|)
            && (r.0 == NoCapacity <==> enough && !usable)
            && (r.0 == StillLocked <==> enough && usable && env.now - w.lock.lockTime < w.lock.minimum)
            && (r.0 == StillLocked ==> r.1 == w.lock.requested)
  {
    hide SplitOf;
    hide Capacity;
    UsageMeans(env.pods, SplitOf(w, env).untainted);
    hide UsageOf;
    hide Valid;
    hide Decided;
    hide Effective;
  }

  /** The outcomes before the decision, in numbers, and what the tick then reports. */
  lemma OutcomesMean(w: World, env: Input, ord: Orders)
    requires Valid(w, env, ord)
    ensures var r, u := Tick(w, env, ord).1, SplitOf(w, env).untainted;
            var some := env.listed && (w.nodes != [] || env.pods != []);
            var enough := some && |w.nodes| >= env.opts.minNodes && |u| >= env.opts.minNodes;
            var usable := u == [] || (Capacity(u).cpu != 0 && Capacity(u).memory != 0);
            && (r.outcome == ListFailed <==> !env.listed)
            && (r.outcome == NothingToDo <==> env.listed && w.nodes == [] && env.pods == [])
            && (r.outcome == TooFewNodes <==> some && |w.nodes| < env.opts.minNodes)
            && (r.outcome == BelowMinimum <==> some && |w.nodes| >= env.opts.minNodes > |u|)
            && (r.outcome == BelowMinimum ==> r.delta == env.opts.minNodes - |u|)
            && (r.outcome == NoCapacity <==> enough && !usable)
            && (r.outcome == StillLocked <==> enough && usable && env.now - w.lock.lockTime < w.lock.minimum)
            && (r.outcome == StillLocked ==> r.delta == w.lock.requested)
  {
    hide Tick;
    hide SplitOf;
    hide Outlook;
    hide Capacity;
    hide Follows;
    hide PlanOf;
    OutlookMeans(w, env, ord);
    TickIsPlanned(w, env, ord);
    hide Valid;
  }

  /** The capacity that is remembered: that of the first listed node, or the one from before. */
  lemma RemembersFirst(w: World, env: Input, ord: Orders)
    requires Valid(w, env, ord)
    ensures Tick(w, env, ord).0.cached ==
            if env.listed && w.nodes != [] then Amount(w.nodes[0].cpu, w.nodes[0].memory) else w.cached
  {
    hide Tick;
    TickIsPlanned(w, env, ord);
    PreparedCache(w, env);
    hide Prepared;
    hide Valid;
    hide PlanOf;
    hide Reaches;
  }

  lemma PreparedCache(w: World, env: Input)
    ensures Prepared(w, env).cached == if w.nodes != [] then Amount(w.nodes[0].cpu, w.nodes[0].memory) else w.cached
  {
    hide UnhealthyPicks;
  }
}
