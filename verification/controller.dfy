/** The controller of one node group (pkg/controller): every method is proved against the
    functions of module `ControlLoop`. */
module Controllers {
  import opened Cluster
  import opened Taints
  import opened Order
  import opened Pods
  import opened Utilisation
  import opened Decision
  import opened Health
  import opened ScaleLocks
  import opened Cloud
  import T = ControlLoop

  /** The orders that the controller's own sort produces. */
  function SortedFor(ns: seq<Node>, s: T.Split): T.Orders {
    T.Orders(SortNodes(s.untainted, false), SortNodes(s.tainted, true), SortNodes(ns, true))
  }

  // ---------- one more element of a loop ----------

  lemma TaintOneMore(api: seq<Node>, picked: seq<Node>, n: Node, now: nat, effect: string)
    ensures TaintAll(TaintAll(api, Names(picked), now, effect), {n.name}, now, effect) ==
            TaintAll(api, Names(picked + [n]), now, effect)
    ensures Names(TaintAll(api, Names(picked), now, effect)) == Names(api)
  {
    var one := TaintAll(api, Names(picked), now, effect);
    assert Names(picked + [n]) == Names(picked) + {n.name};
    forall m | m in api && m.name in Names(picked) ensures Tainted(TaintNode(m, now, effect)) {
      if !Tainted(m) {
        UntaintUndoesTaint(m, now, effect);
      }
    }
    SameNames(api, one);
  }

  lemma SameNames(a: seq<Node>, b: seq<Node>)
    requires |a| == |b| && forall i :: 0 <= i < |a| ==> a[i].name == b[i].name
    ensures Names(a) == Names(b)
  {
    forall n | n in a ensures n.name in Names(b) {
      var i :| 0 <= i < |a| && a[i] == n;
      assert b[i] in b;
    }
    forall n | n in b ensures n.name in Names(a) {
      var i :| 0 <= i < |b| && b[i] == n;
      assert a[i] in a;
    }
  }

  lemma UntaintOneMore(api: seq<Node>, picked: seq<Node>, n: Node)
    requires n.name !in Names(picked)
    ensures UntaintAll(UntaintAll(api, Names(picked)), {n.name}) == UntaintAll(api, Names(picked + [n]))
    ensures Names(UntaintAll(api, Names(picked))) == Names(api)
  {
    assert Names(picked + [n]) == Names(picked) + {n.name};
    SameNames(api, UntaintAll(api, Names(picked)));
  }

  /** One round of a walk along an order, whether the node there is picked or skipped. */
  lemma PickRound(order: seq<nat>, i: nat, ns: seq<Node>, skip: set<string>, max: int, picks: seq<nat>, more: seq<nat>)
    requires InRange(order, |ns|) && InRange(picks, |ns|) && i < |order| && |picks| < max
    requires more == if ns[order[i]].name in skip then picks else picks + [order[i]]
    ensures picks + Picks(order[i..], ns, skip, max - |picks|) == more + Picks(order[i + 1..], ns, skip, max - |more|)
    ensures InRange(more, |ns|)
    ensures ns[order[i]].name !in skip ==> At(ns, more) == At(ns, picks) + [ns[order[i]]]
  {
    PickOneMore(order, i, ns, skip, max - |picks|);
    hide Picks;
    if ns[order[i]].name !in skip {
      var rest := Picks(order[i + 1..], ns, skip, max - |more|);
      assert picks + ([order[i]] + rest) == more + rest;
      assert At(ns, more) == At(ns, picks) + [ns[order[i]]];
    }
  }

  /** Tainting and untainting change the nodes and the tracker only. */
  lemma PickingKeeps(w: T.World, env: T.Input, picked: seq<Node>)
    ensures var a := T.AfterTaint(w, env, picked); a == w.(nodes := a.nodes, tracker := a.tracker)
    ensures var b := T.AfterUntaint(w, env, picked); b == w.(nodes := b.nodes, tracker := b.tracker)
  {
  }

  /** A walk that is at the end of the order, or has enough, picks no more. */
  lemma PicksDone(order: seq<nat>, i: nat, ns: seq<Node>, skip: set<string>, max: int, picks: seq<nat>)
    requires InRange(order, |ns|) && i <= |order| && (i == |order| || |picks| >= max)
    ensures picks + Picks(order[i..], ns, skip, max - |picks|) == picks
  {
    assert Picks(order[i..], ns, skip, max - |picks|) == [];
  }

  lemma PickOneMore(order: seq<nat>, i: nat, ns: seq<Node>, skip: set<string>, max: int)
    requires InRange(order, |ns|) && i < |order| && max > 0
    ensures Picks(order[i..], ns, skip, max) ==
            if ns[order[i]].name in skip then Picks(order[i + 1..], ns, skip, max)
            else [order[i]] + Picks(order[i + 1..], ns, skip, max - 1)
  {
    assert order[i..][1..] == order[i + 1..];
  }

  class Controller {
    const kube: KubeClient
    const cloud: NodeGroup
    const scaleUpLock: ScaleLock
    var taintTracker: seq<string>
    var forceTaintTracker: seq<string>
    var cpuCapacity: int
    var memCapacity: int
    var lastScaleOut: int

    constructor (kube: KubeClient, cloud: NodeGroup, coolDown: int)
      ensures this.kube == kube && this.cloud == cloud
      ensures View() == T.World(kube.nodes, cloud.View(), FreshLock(coolDown), [], [], NOTHING)
    {
      this.kube, this.cloud := kube, cloud;
      scaleUpLock := new ScaleLock(coolDown);
      taintTracker, forceTaintTracker, cpuCapacity, memCapacity, lastScaleOut := [], [], 0, 0, ZERO_TIME;
    }

    /** The persistent state that ticks read and change. */
    function View(): T.World
      reads this, kube, cloud, scaleUpLock
    {
      T.World(kube.nodes, cloud.View(), scaleUpLock.View(), taintTracker, forceTaintTracker,
        Amount(cpuCapacity, memCapacity))
    }

    method FilterNodes(dryMode: bool, ns: seq<Node>) returns (s: T.Split)
      ensures s == T.FilterNodes(ns, T.Mode(dryMode, taintTracker, forceTaintTracker))
    {
      s := T.Split([], [], [], []);
      ghost var m := T.Mode(dryMode, taintTracker, forceTaintTracker);
      for i := 0 to |ns|
        invariant s == T.FilterNodes(ns[..i], m)
      {
        var n := ns[i];
        assert ns[..i + 1][..i] == ns[..i];
        if !dryMode && n.unschedulable {
          s := s.(cordoned := s.cordoned + [n]);
        } else {
          var forced, tainted;
          if dryMode {
            tainted := n.name in taintTracker;
            forced := n.name in forceTaintTracker;
          } else {
            forced := HasTaint(n, TO_BE_FORCE_REMOVED);
            tainted := HasTaint(n, TO_BE_REMOVED);
          }
          if forced {
            s := s.(forced := s.forced + [n]);
          } else if tainted {
            s := s.(tainted := s.tainted + [n]);
          } else {
            s := s.(untainted := s.untainted + [n]);
          }
        }
      }
      assert ns[..|ns|] == ns;
    }

    /** What tainting and untainting change. */
    ghost predicate Reached(w: T.World)
      reads this, kube
    {
      kube.nodes == w.nodes && taintTracker == w.tracker && UniqueNames(w.nodes)
    }

    /** One round of taintInstances: the tracker in dry mode, an API call otherwise. */
    method TaintOne(n: Node, env: T.Input, failing: set<string>, ghost w: T.World, ghost picked: seq<Node>)
        returns (ok: bool)
      requires Reached(T.AfterTaint(w, env, picked))
      modifies this`taintTracker, kube
      ensures ok <==> env.opts.dryMode || (n.name !in failing && n.name in Names(w.nodes))
      ensures ok ==> Reached(T.AfterTaint(w, env, picked + [n]))
      ensures !ok ==> Reached(T.AfterTaint(w, env, picked))
    {
      if env.opts.dryMode {
        taintTracker := taintTracker + [n.name];
        return true;
      }
      TaintOneMore(w.nodes, picked, n, env.now, env.opts.taintEffect);
      ok := kube.AddToBeRemovedTaint(n.name, env.now, env.opts.taintEffect, failing);
    }

    /** taintInstances after `i` rounds: what is picked so far and what it did. */
    ghost predicate Tainting(order: seq<nat>, i: nat, ns: seq<Node>, skip: set<string>, max: int, picks: seq<nat>,
                             w: T.World, env: T.Input)
      reads this, kube
    {
      && i <= |order| && InRange(order, |ns|) && InRange(picks, |ns|)
      && picks + Picks(order[i..], ns, skip, max - |picks|) == Picks(order, ns, skip, max)
      && Reached(T.AfterTaint(w, env, At(ns, picks)))
    }

    /** One round: the node at position `x` is picked unless its call fails. */
    method TaintRound(x: nat, ns: seq<Node>, env: T.Input, failing: set<string>, picks: seq<nat>,
                      ghost w: T.World, ghost skip: set<string>) returns (more: seq<nat>)
      requires x < |ns| && InRange(picks, |ns|) && skip == T.TaintSkips(w, env.opts, ns, failing)
      requires Reached(T.AfterTaint(w, env, At(ns, picks)))
      modifies this`taintTracker, kube
      ensures more == if ns[x].name in skip then picks else picks + [x]
      ensures InRange(more, |ns|) && Reached(T.AfterTaint(w, env, At(ns, more)))
    {
      more := picks;
      TaintSkippedIff(w, env.opts, ns, failing, x);
      hide T.AfterTaint;
      hide T.TaintSkips;
      var ok := TaintOne(ns[x], env, failing, w, At(ns, picks));
      if ok {
        more := picks + [x];
        assert At(ns, more) == At(ns, picks) + [ns[x]];
      }
    }

    /** The loop of taintInstances: walks the order and taints until `max` nodes are tainted. */
    method TaintWalk(order: seq<nat>, ns: seq<Node>, max: int, env: T.Input, failing: set<string>,
                     ghost w: T.World, ghost skip: set<string>) returns (picks: seq<nat>, i: nat)
      requires InRange(order, |ns|) && skip == T.TaintSkips(w, env.opts, ns, failing)
      requires Tainting(order, 0, ns, skip, max, [], w, env)
      modifies this`taintTracker, kube
      ensures Tainting(order, i, ns, skip, max, picks, w, env) && (i == |order| || |picks| >= max)
    {
      hide Picks;
      hide At;
      hide Reached;
      hide T.AfterTaint;
      hide T.TaintSkips;
      picks, i := [], 0;
      while i < |order| && |picks| < max
        invariant Tainting(order, i, ns, skip, max, picks, w, env)
      {
        ghost var before := picks;
        picks := TaintRound(order[i], ns, env, failing, picks, w, skip);
        PickRound(order, i, ns, skip, max, before, picks);
        i := i + 1;
      }
    }

    method TaintInstances(order: seq<nat>, ns: seq<Node>, max: int, env: T.Input, failing: set<string>)
        returns (picks: seq<nat>)
      requires InRange(order, |ns|) && UniqueNames(kube.nodes)
      modifies this`taintTracker, kube
      ensures InRange(picks, |ns|)
      ensures picks == Picks(order, ns, T.TaintSkips(old(View()), env.opts, ns, failing), max)
      ensures View() == T.AfterTaint(old(View()), env, At(ns, picks))
      ensures UniqueNames(kube.nodes)
    {
      ghost var w := View();
      ghost var skip := T.TaintSkips(w, env.opts, ns, failing);
      assert order[0..] == order;
      NothingPicked(w, env);
      hide UniqueNames;
      hide Names;
      hide Picks;
      hide T.AfterTaint;
      hide T.TaintSkips;
      assert At(ns, []) == [];
      var i;
      picks, i := TaintWalk(order, ns, max, env, failing, w, skip);
      PicksDone(order, i, ns, skip, max, picks);
      PickingKeeps(w, env, At(ns, picks));
    }

    method CollectUnhealthy(ns: seq<Node>, env: T.Input) returns (bundles: seq<nat>)
      ensures bundles == T.UnhealthyAt(ns, env.opts.unhealthyGrace, env.now)
    {
      bundles := [];
      for i := 0 to |ns|
        invariant bundles == T.UnhealthyAt(ns[..i], env.opts.unhealthyGrace, env.now)
      {
        assert ns[..i + 1][..i] == ns[..i];
        if Unhealthy(ns[i], env.opts.unhealthyGrace, env.now) {
          bundles := bundles + [i];
        }
      }
      assert ns[..|ns|] == ns;
    }

    method TaintUnhealthyInstances(ns: seq<Node>, env: T.Input)
      requires ns == kube.nodes && UniqueNames(ns) && env.opts.unhealthyGrace > 0
      modifies this`taintTracker, kube
      ensures UniqueNames(kube.nodes)
      ensures InRange(T.UnhealthyPicks(old(View()), env), |ns|)
      ensures View() == T.AfterTaint(old(View()), env, At(ns, T.UnhealthyPicks(old(View()), env)))
    {
      hide T.UnhealthyAt;
      hide T.AfterTaint;
      hide T.TaintSkips;
      hide UniqueNames;
      hide Picks;
      var bundles := CollectUnhealthy(ns, env);
      var picks := TaintInstances(bundles, ns, |bundles|, env, env.unhealthyTaintFails);
    }

    method TaintOldestN(ns: seq<Node>, n: int, env: T.Input) returns (picks: seq<nat>)
      requires UniqueNames(kube.nodes)
      modifies this`taintTracker, kube
      ensures InRange(picks, |ns|) && UniqueNames(kube.nodes)
      ensures picks == Picks(SortNodes(ns, false), ns, T.TaintSkips(old(View()), env.opts, ns, env.taintFails), n)
      ensures View() == T.AfterTaint(old(View()), env, At(ns, picks))
    {
      picks := TaintInstances(SortNodes(ns, false), ns, n, env, env.taintFails);
    }

    /** One round of untaintNewestN. */
    method UntaintOne(n: Node, env: T.Input, ghost w: T.World, ghost picked: seq<Node>) returns (ok: bool)
      requires Reached(T.AfterUntaint(w, env, picked))
      requires n.name !in Names(picked)
      modifies this`taintTracker, kube
      ensures ok <==> T.MayUntaint(w, env, n)
      ensures ok ==> Reached(T.AfterUntaint(w, env, picked + [n]))
      ensures !ok ==> Reached(T.AfterUntaint(w, env, picked))
    {
      if env.opts.unhealthyGrace > 0 && Unhealthy(n, env.opts.unhealthyGrace, env.now) {
        return false;
      }
      if env.opts.dryMode {
        ForgetOthers(w.tracker, picked, n.name);
        var at := 0;
        while at < |taintTracker| && taintTracker[at] != n.name
          invariant 0 <= at <= |taintTracker|
          invariant forall k :: 0 <= k < at ==> taintTracker[k] != n.name
        {
          at := at + 1;
        }
        if at == |taintTracker| {
          return false;
        }
        RemoveFirstAt(taintTracker, n.name, at);
        taintTracker := taintTracker[..at] + taintTracker[at + 1..];
        assert (picked + [n])[..|picked|] == picked;
        return true;
      }
      if !Tainted(n) {
        return false;
      }
      UntaintOneMore(w.nodes, picked, n);
      ok := kube.DeleteToBeRemovedTaint(n.name, env.untaintFails);
    }

    /** untaintNewestN after `i` rounds. */
    ghost predicate Untainting(order: seq<nat>, i: nat, ns: seq<Node>, skip: set<string>, max: int, picks: seq<nat>,
                               w: T.World, env: T.Input)
      reads this, kube
    {
      && i <= |order| && InRange(order, |ns|) && InRange(picks, |ns|)
      && NotYet(ns, order, i, At(ns, picks))
      && picks + Picks(order[i..], ns, skip, max - |picks|) == Picks(order, ns, skip, max)
      && Reached(T.AfterUntaint(w, env, At(ns, picks)))
    }

    method UntaintRound(order: seq<nat>, i: nat, ns: seq<Node>, max: int, env: T.Input,
                        picks: seq<nat>, ghost w: T.World, ghost skip: set<string>) returns (more: seq<nat>)
      requires UniqueNames(ns) && Distinct(order) && skip == T.UntaintSkips(w, env, ns)
      requires Untainting(order, i, ns, skip, max, picks, w, env) && i < |order| && |picks| < max
      modifies this`taintTracker, kube
      ensures Untainting(order, i + 1, ns, skip, max, more, w, env)
    {
      var n := ns[order[i]];
      PickRound(order, i, ns, skip, max, picks, if n.name in skip then picks else picks + [order[i]]);
      NotYetStep(ns, order, i, At(ns, picks));
      SkippedIff(w, env, ns, order[i]);
      hide Picks;
      hide At;
      hide NotYet;
      hide T.AfterUntaint;
      hide T.UntaintSkips;
      hide T.MayUntaint;
      more := picks;
      var ok := UntaintOne(n, env, w, At(ns, picks));
      if ok {
        more := picks + [order[i]];
      }
    }

    /** The loop of untaintNewestN. */
    method UntaintWalk(order: seq<nat>, ns: seq<Node>, max: int, env: T.Input, ghost w: T.World,
        ghost skip: set<string>)
        returns (picks: seq<nat>, i: nat)
      requires UniqueNames(ns) && Distinct(order) && skip == T.UntaintSkips(w, env, ns)
      requires Untainting(order, 0, ns, skip, max, [], w, env)
      modifies this`taintTracker, kube
      ensures Untainting(order, i, ns, skip, max, picks, w, env) && (i == |order| || |picks| >= max)
    {
      hide Picks;
      hide At;
      hide NotYet;
      hide Reached;
      hide UniqueNames;
      hide Distinct;
      hide T.AfterUntaint;
      hide T.UntaintSkips;
      picks, i := [], 0;
      while i < |order| && |picks| < max
        invariant Untainting(order, i, ns, skip, max, picks, w, env)
      {
        picks := UntaintRound(order, i, ns, max, env, picks, w, skip);
        i := i + 1;
      }
    }

    method UntaintInOrder(order: seq<nat>, ns: seq<Node>, n: int, env: T.Input) returns (picks: seq<nat>)
      requires UniqueNames(ns) && UniqueNames(kube.nodes) && InRange(order, |ns|) && Distinct(order)
      modifies this`taintTracker, kube
      ensures InRange(picks, |ns|) && UniqueNames(kube.nodes)
      ensures picks == Picks(order, ns, T.UntaintSkips(old(View()), env, ns), n)
      ensures View() == T.AfterUntaint(old(View()), env, At(ns, picks))
    {
      ghost var w := View();
      ghost var skip := T.UntaintSkips(w, env, ns);
      assert order[0..] == order;
      NothingPicked(w, env);
      assert At(ns, []) == [] && NotYet(ns, order, 0, []);
      hide UniqueNames;
      hide Names;
      hide Distinct;
      hide Picks;
      hide NotYet;
      hide T.AfterUntaint;
      hide T.UntaintSkips;
      var i;
      picks, i := UntaintWalk(order, ns, n, env, w, skip);
      PicksDone(order, i, ns, skip, n, picks);
      PickingKeeps(w, env, At(ns, picks));
    }

    /** untaintNewestN: walks the nodes newest first and untaints until `n` are untainted. */
    method UntaintNewestN(ns: seq<Node>, n: int, env: T.Input) returns (picks: seq<nat>)
      requires UniqueNames(ns) && UniqueNames(kube.nodes)
      modifies this`taintTracker, kube
      ensures InRange(picks, |ns|) && UniqueNames(kube.nodes)
      ensures picks == Picks(SortNodes(ns, true), ns, T.UntaintSkips(old(View()), env, ns), n)
      ensures View() == T.AfterUntaint(old(View()), env, At(ns, picks))
    {
      picks := UntaintInOrder(SortNodes(ns, true), ns, n, env);
    }

    // ---------- removing nodes ----------

    /** TryDeleteNodes: cloud first; the API objects only if every instance was terminated. */
    method TryDeleteNodes(request: seq<Node>, env: T.Input) returns (removal: T.Removal)
      requires UniqueNames(request) && UniqueNames(kube.nodes)
      modifies kube, cloud`desired, cloud`live
      ensures UniqueNames(kube.nodes)
      ensures (View(), removal) == T.Remove(old(View()), env, request)
    {
      if |request| == 0 {
        return T.NO_REMOVAL;
      }
      var ok, terminated := cloud.DeleteNodes(request, env.terminateFails);
      if !ok {
        return T.Removal(request, terminated, 0);
      }
      var deleted := kube.DeleteNodes(request, env.deleteFails);
      removal := T.Removal(request, terminated, deleted);
    }

    method ForceCandidates(forced: seq<Node>, index: Index, env: T.Input, ghost snapshot: seq<Node>)
        returns (toBeDeleted: seq<Node>)
      requires Indexes(index, env.pods, snapshot) && forall n :: n in forced ==> n in snapshot
      ensures toBeDeleted == T.Candidates(env, forced, T.ForcePass)
    {
      toBeDeleted := [];
      for i := 0 to |forced|
        invariant toBeDeleted == T.Candidates(env, forced[..i], T.ForcePass)
      {
        assert forced[..i + 1][..i] == forced[..i];
        var empty := NodeEmpty(forced[i], index, env.pods, snapshot);
        if empty && !env.opts.dryMode {
          toBeDeleted := toBeDeleted + [forced[i]];
        }
      }
      assert forced[..|forced|] == forced;
    }

    method TryRemoveForceTaintedNodes(forced: seq<Node>, index: Index, env: T.Input, ghost snapshot: seq<Node>)
        returns (removal: T.Removal)
      requires UniqueNames(forced) && UniqueNames(kube.nodes)
      requires Indexes(index, env.pods, snapshot) && forall n :: n in forced ==> n in snapshot
      modifies kube, cloud`desired, cloud`live
      ensures UniqueNames(kube.nodes)
      ensures (View(), removal) == T.Remove(old(View()), env, T.Candidates(env, forced, T.ForcePass))
    {
      var toBeDeleted := ForceCandidates(forced, index, env, snapshot);
      CandidatesUnique(env, forced, T.ForcePass);
      removal := TryDeleteNodes(toBeDeleted, env);
    }

    /** Whether TryRemoveTaintedNodes picks this node. */
    method ReadyToReap(n: Node, index: Index, healthyToo: bool, env: T.Input, ghost snapshot: seq<Node>)
        returns (ready: bool)
      requires Indexes(index, env.pods, snapshot) && n in snapshot
      ensures ready <==> T.Reapable(env, n, healthyToo)
      ensures "atlassian.com/no-delete" in n.annotations && n.annotations["atlassian.com/no-delete"] != "" ==> !ready
    {
      if env.opts.unhealthyGrace > 0 {
        if !healthyToo && !Unhealthy(n, env.opts.unhealthyGrace, env.now) {
          return false;
        }
      }
      if T.NO_DELETE in n.annotations && n.annotations[T.NO_DELETE] != "" {
        return false;
      }
      var marked := ToBeRemovedTime(n);
      if !marked.MarkedAt? {
        return false;
      }
      if env.now - marked.time > env.opts.softGrace {
        var empty := NodeEmpty(n, index, env.pods, snapshot);
        return empty || env.now - marked.time > env.opts.hardGrace;
      }
      return false;
    }

    method ReapCandidates(tainted: seq<Node>, index: Index, healthyToo: bool, env: T.Input, ghost snapshot: seq<Node>)
        returns (toBeDeleted: seq<Node>)
      requires Indexes(index, env.pods, snapshot) && forall n :: n in tainted ==> n in snapshot
      ensures toBeDeleted == T.Candidates(env, tainted, T.ReapPass(healthyToo))
    {
      toBeDeleted := [];
      for i := 0 to |tainted|
        invariant toBeDeleted == T.Candidates(env, tainted[..i], T.ReapPass(healthyToo))
      {
        assert tainted[..i + 1][..i] == tainted[..i];
        var ready := ReadyToReap(tainted[i], index, healthyToo, env, snapshot);
        if ready && !env.opts.dryMode {
          toBeDeleted := toBeDeleted + [tainted[i]];
        }
      }
      assert tainted[..|tainted|] == tainted;
    }

    method TryRemoveTaintedNodes(tainted: seq<Node>, index: Index, healthyToo: bool, env: T.Input,
        ghost snapshot: seq<Node>)
        returns (removal: T.Removal)
      requires UniqueNames(tainted) && UniqueNames(kube.nodes)
      requires Indexes(index, env.pods, snapshot) && forall n :: n in tainted ==> n in snapshot
      modifies kube, cloud`desired, cloud`live
      ensures UniqueNames(kube.nodes)
      ensures (View(), removal) == T.Remove(old(View()), env, T.Candidates(env, tainted, T.ReapPass(healthyToo)))
    {
      var toBeDeleted := ReapCandidates(tainted, index, healthyToo, env, snapshot);
      CandidatesUnique(env, tainted, T.ReapPass(healthyToo));
      removal := TryDeleteNodes(toBeDeleted, env);
    }

    // ---------- scaling ----------

    /** scaleUpCloudProviderNodeGroup, followed by the lock that ScaleUp takes. */
    method GrowGroup(picks: seq<nat>, left: int, env: T.Input) returns (up: T.Up)
      modifies cloud, scaleUpLock
      ensures (View(), up) == T.GrowGroup(old(View()), env, picks, left)
    {
      var add := left;
      if cloud.asg.target + left > cloud.asg.maxSize {
        add := cloud.asg.maxSize - cloud.asg.target;
      }
      if add <= 0 {
        return T.Up(picks, 0, false);
      }
      if !env.opts.dryMode {
        var ok := cloud.IncreaseSize(add, env.answer);
        if !ok {
          return T.Up(picks, 0, false);
        }
      }
      scaleUpLock.Acquire(add, env.now);
      return T.Up(picks, add, true);
    }

    method ScaleUp(tainted: seq<Node>, delta: int, env: T.Input) returns (up: T.Up)
      requires UniqueNames(tainted) && UniqueNames(kube.nodes)
      modifies this`taintTracker, kube, cloud, scaleUpLock
      ensures UniqueNames(kube.nodes)
      ensures (View(), up) == T.ScaleUp(old(View()), env, SortNodes(tainted, true), tainted, delta)
    {
      hide UniqueNames;
      hide SortNodes;
      hide Picks;
      hide Names;
      hide T.UntaintSkips;
      hide T.AfterUntaint;
      hide T.GrowGroup;
      var picks := UntaintNewestN(tainted, delta, env);
      if delta - |picks| <= 0 {
        return T.Up(picks, 0, true);
      }
      up := GrowGroup(picks, delta - |picks|, env);
    }

    method ScaleDownTaint(untainted: seq<Node>, wanted: int, env: T.Input) returns (picks: seq<nat>)
      requires UniqueNames(kube.nodes)
      modifies this`taintTracker, kube
      ensures UniqueNames(kube.nodes)
      ensures picks == T.TaintPicks(old(View()), env, SortNodes(untainted, false), untainted, wanted)
      ensures View() == T.TaintOldest(old(View()), env, SortNodes(untainted, false), untainted, wanted)
    {
      var nodesToRemove := wanted;
      if |untainted| - nodesToRemove < env.opts.minNodes {
        nodesToRemove := |untainted| - env.opts.minNodes;
        if nodesToRemove < 0 {
          NothingPicked(View(), env);
          return [];
        }
      }
      if cloud.asg.target - nodesToRemove < cloud.asg.minSize {
        var maxDeletable := cloud.asg.target - cloud.asg.minSize;
        if maxDeletable >= 0 {
          nodesToRemove := maxDeletable;
        }
      }
      picks := TaintOldestN(untainted, nodesToRemove, env);
    }

    method ScaleDown(s: T.Split, wanted: int, index: Index, env: T.Input, ghost snapshot: seq<Node>)
        returns (reaped: T.Removal, picks: seq<nat>)
      requires UniqueNames(s.tainted) && UniqueNames(kube.nodes)
      requires Indexes(index, env.pods, snapshot) && forall n :: n in s.tainted ==> n in snapshot
      modifies this`taintTracker, kube, cloud`desired, cloud`live
      ensures UniqueNames(kube.nodes)
      ensures (View(), reaped, picks) == T.ScaleDown(old(View()), env, SortNodes(s.untainted, false), s, wanted)
    {
      reaped := TryRemoveTaintedNodes(s.tainted, index, true, env, snapshot);
      picks := ScaleDownTaint(s.untainted, wanted, env);
    }

    // ---------- one tick ----------

    method ScaleOnMaxNodeAge(untainted: seq<Node>, tainted: seq<Node>, env: T.Input) returns (aged: bool)
      ensures aged <==> AgedOut(env.opts, untainted, tainted, env.now)
      ensures aged <==>
              && env.opts.maxNodeAge > 0 && |untainted| == env.opts.minNodes && |untainted| != 0 && |tainted| == 0
              && exists n :: n in untainted && env.now - n.created > env.opts.maxNodeAge
    {
      if env.opts.maxNodeAge <= 0 {
        return false;
      }
      if |untainted| != env.opts.minNodes || |untainted| == 0 || |tainted| > 0 {
        return false;
      }
      for i := 0 to |untainted|
        invariant forall k :: 0 <= k < i ==> env.now - untainted[k].created <= env.opts.maxNodeAge
      {
        if env.now - untainted[i].created > env.opts.maxNodeAge {
          assert untainted[i] in untainted;
          return true;
        }
      }
      return false;
    }

    /** The decision: the switch on the utilisation, then the three overrides. */
    method DecideDelta(s: T.Split, u: PodUsage, c: NodeCapacity, usage: Usage, env: T.Input) returns (d: Delta)
      requires env.opts.scaleUp != 0
      requires u.total == TotalRequest(env.pods) && c.total == Capacity(s.untainted)
      requires PeakCpu(u.largestPendingCPU, env.pods) && PeakMemory(u.largestPendingMemory, env.pods)
      requires RoomCpu(c.largestAvailableCPU.cpu, s.untainted, env.pods)
      requires RoomMemory(c.largestAvailableMemory.memory, s.untainted, env.pods)
      requires usage == UsageOf(env.pods, s.untainted) && !usage.DivisionByZero?
      ensures d == Decide(env.opts, env.pods, s.untainted, s.tainted, Amount(cpuCapacity, memCapacity), env.now)
    {
      var nodesDelta := 0;
      if Below(usage, env.opts.taintLower) {
        nodesDelta := -env.opts.fastRate;
      } else if Below(usage, env.opts.taintUpper) {
        nodesDelta := -env.opts.slowRate;
      } else if Above(usage, env.opts.scaleUp) {
        d := CalcScaleUpDelta(|s.untainted|, usage, u.total.cpu, u.total.memory, cpuCapacity, memCapacity,
          env.opts.scaleUp);
        if d.NegativeDelta? {
          return;
        }
        nodesDelta := d.nodes;
      }
      var starved := IsScaleOnStarve(env.opts, env.pods, u, c, s.untainted);
      if starved {
        nodesDelta := MaxInt(nodesDelta, 1);
      }
      var aged := ScaleOnMaxNodeAge(s.untainted, s.tainted, env);
      if aged {
        nodesDelta := MaxInt(nodesDelta, 1);
      }
      if |s.untainted| > env.opts.maxNodes {
        var excess := |s.untainted| - env.opts.maxNodes;
        nodesDelta := MinInt(nodesDelta, -excess);
      }
      d := Delta(nodesDelta);
    }

    /** Scale down, up, or only reap. */
    method Perform(s: T.Split, d: int, healthy: bool, forced: T.Removal, index: Index, env: T.Input,
        ghost snapshot: seq<Node>)
        returns (report: T.Report)
      requires UniqueNames(s.tainted) && UniqueNames(kube.nodes)
      requires Indexes(index, env.pods, snapshot) && forall n :: n in s.tainted ==> n in snapshot
      modifies this, kube, cloud, scaleUpLock
      ensures UniqueNames(kube.nodes)
      ensures (View(), report) == T.Perform(old(View()), env, SortedFor(snapshot, s), s, d, healthy, forced)
    {
      hide T.ScaleUp;
      hide T.ScaleDown;
      hide T.Remove;
      hide T.Candidates;
      hide Indexes;
      if d < 0 {
        var reaped, picks := ScaleDown(s, -d, index, env, snapshot);
        report := T.Report(T.ScaledDown, d, healthy, s, forced, reaped, picks, T.NO_UP);
      } else if d > 0 {
        var up := ScaleUp(s.tainted, d, env);
        lastScaleOut := env.now;
        report := T.Report(T.ScaledUp, d, healthy, s, forced, T.NO_REMOVAL, [], up);
      } else {
        var reaped := TryRemoveTaintedNodes(s.tainted, index, healthy, env, snapshot);
        report := T.Report(T.OnlyReaped, d, healthy, s, forced, reaped, [], T.NO_UP);
      }
    }

    method Act(s: T.Split, delta: int, index: Index, env: T.Input, snapshot: seq<Node>) returns (report: T.Report)
      requires UniqueNames(s.tainted) && UniqueNames(s.forced) && UniqueNames(kube.nodes)
      requires Indexes(index, env.pods, snapshot)
      requires forall n :: n in s.tainted || n in s.forced ==> n in snapshot
      modifies this, kube, cloud, scaleUpLock
      ensures UniqueNames(kube.nodes)
      ensures var ord := SortedFor(snapshot, s);
              (View(), report) == T.Act(old(View()), env, ord, s, delta, T.JudgedHealthy(snapshot, env, ord.health))
    {
      var forced := TryRemoveForceTaintedNodes(s.forced, index, env, snapshot);
      var healthy := true;
      if env.opts.unhealthyGrace > 0 {
        healthy := IsNodegroupHealthy(snapshot, env.opts, env.now);
      }
      report := Perform(s, if healthy then delta else 0, healthy, forced, index, env, snapshot);
    }

    /** The listing, the remembered capacity, the unhealthy pass and the partition. */
    method Prepare(env: T.Input) returns (s: T.Split)
      requires UniqueNames(kube.nodes)
      modifies this, kube
      ensures UniqueNames(kube.nodes)
      ensures View() == T.Prepared(old(View()), env)
      ensures s == T.SplitOf(old(View()), env)
    {
      var allNodes := kube.nodes;
      ghost var w := View();
      if |allNodes| > 0 {
        cpuCapacity := allNodes[0].cpu;
        memCapacity := allNodes[0].memory;
      }
      if env.opts.unhealthyGrace > 0 {
        ghost var w1 := View();
        TaintUnhealthyInstances(allNodes, env);
        assert T.UnhealthyPicks(w1, env) == T.UnhealthyPicks(w, env);
      }
      s := FilterNodes(env.opts.dryMode, allNodes);
    }

    /** Decide and act, once the lock is known to be open. */
    method Unlocked(s: T.Split, u: PodUsage, c: NodeCapacity, usage: Usage, index: Index, env: T.Input,
        snapshot: seq<Node>)
        returns (report: T.Report)
      requires env.opts.scaleUp != 0
      requires u.total == TotalRequest(env.pods) && c.total == Capacity(s.untainted)
      requires PeakCpu(u.largestPendingCPU, env.pods) && PeakMemory(u.largestPendingMemory, env.pods)
      requires RoomCpu(c.largestAvailableCPU.cpu, s.untainted, env.pods)
      requires RoomMemory(c.largestAvailableMemory.memory, s.untainted, env.pods)
      requires usage == UsageOf(env.pods, s.untainted) && !usage.DivisionByZero?
      requires UniqueNames(s.tainted) && UniqueNames(s.forced) && UniqueNames(kube.nodes)
      requires Indexes(index, env.pods, snapshot)
      requires forall n :: n in s.tainted || n in s.forced ==> n in snapshot
      modifies this, kube, cloud, scaleUpLock
      ensures UniqueNames(kube.nodes)
      ensures (View(), report) == T.Unlocked(old(View()), env, SortedFor(snapshot, s), s, snapshot)
    {
      var d := DecideDelta(s, u, c, usage, env);
      if d.NegativeDelta? {
        return T.Quiet(T.DeltaError, d.nodes, s);
      }
      report := Act(s, d.nodes, index, env, snapshot);
    }

    /** The minimum, the utilisation and the lock. */
    method Weigh(s: T.Split, env: T.Input, snapshot: seq<Node>) returns (report: T.Report)
      requires env.opts.scaleUp != 0 && UniqueNames(snapshot) && UniqueNames(kube.nodes)
      requires UniqueNames(s.tainted) && UniqueNames(s.forced)
      requires forall n :: n in s.tainted || n in s.forced ==> n in snapshot
      modifies this, kube, cloud, scaleUpLock
      ensures UniqueNames(kube.nodes)
      ensures (View(), report) == T.Weigh(old(View()), env, SortedFor(snapshot, s), s, snapshot)
    {
      hide T.ScaleUp;
      hide T.Unlocked;
      hide Indexes;
      hide PeakCpu;
      hide PeakMemory;
      hide RoomCpu;
      hide RoomMemory;
      hide UniqueNames;
      hide TotalRequest;
      hide Capacity;
      var index := CreateNodeNameToInfoMap(env.pods, snapshot);
      var u := CalculatePodsRequestedUsage(env.pods);
      var c := CalculateNodesCapacity(s.untainted, env.pods);
      if |s.untainted| < env.opts.minNodes {
        var missing := env.opts.minNodes - |s.untainted|;
        var up := ScaleUp(s.tainted, missing, env);
        return T.Quiet(T.BelowMinimum, missing, s).(up := up);
      }
      var usage := CalcPercentUsage(u.total.cpu, u.total.memory, c.total.cpu, c.total.memory, |s.untainted|);
      if usage.DivisionByZero? {
        return T.Quiet(T.NoCapacity, 0, s);
      }
      var locked := scaleUpLock.Locked(env.now);
      if locked {
        return T.Quiet(T.StillLocked, scaleUpLock.requestedNodes, s);
      }
      report := Unlocked(s, u, c, usage, index, env, snapshot);
    }

    /** scaleNodeGroup: one tick, whole. */
    method ScaleNodeGroup(env: T.Input) returns (report: T.Report)
      requires UniqueNames(kube.nodes) && env.opts.scaleUp != 0
      modifies this, kube, cloud, scaleUpLock
      ensures UniqueNames(kube.nodes)
      ensures var w := old(View());
              var ord := SortedFor(w.nodes, T.SplitOf(w, env));
              T.Valid(w, env, ord) && (View(), report) == T.Tick(w, env, ord)
    {
      SortedForIsValid(View(), env);
      if !env.listed {
        return T.Quiet(T.ListFailed, 0, T.Split([], [], [], []));
      }
      var allNodes := kube.nodes;
      var s := Prepare(env);
      if |allNodes| == 0 && |env.pods| == 0 {
        return T.Quiet(T.NothingToDo, 0, s);
      }
      if |allNodes| < env.opts.minNodes {
        return T.Quiet(T.TooFewNodes, 0, s);
      }
      report := Weigh(s, env, allNodes);
    }
  }

  lemma {:induction false} SelectUnique(ns: seq<Node>, m: T.Mode, c: T.Class)
    requires UniqueNames(ns)
    ensures UniqueNames(T.Select(ns, m, c))
  {
    if ns != [] {
      var init := ns[..|ns| - 1];
      SelectUnique(init, m, c);
      forall n | n in T.Select(init, m, c) ensures n.name != ns[|ns| - 1].name {
        var i :| 0 <= i < |init| && init[i] == n;
      }
    }
  }

  lemma SortedForIsValid(w: T.World, env: T.Input)
    requires UniqueNames(w.nodes) && env.opts.scaleUp != 0
    ensures var s := T.SplitOf(w, env);
            && T.Valid(w, env, SortedFor(w.nodes, s))
            && UniqueNames(s.untainted) && UniqueNames(s.tainted) && UniqueNames(s.forced)
            && forall n :: n in s.tainted || n in s.forced ==> n in w.nodes
  {
    var s, m := T.SplitOf(w, env), T.ModeOf(T.Prepared(w, env), env.opts);
    SelectUnique(w.nodes, m, T.IsUntainted);
    SelectUnique(w.nodes, m, T.IsTainted);
    SelectUnique(w.nodes, m, T.IsForced);
    SortNodesSorts(s.untainted, false);
    SortNodesSorts(s.tainted, true);
    SortNodesSorts(w.nodes, true);
  }

  lemma {:induction false} CandidatesUnique(env: T.Input, ns: seq<Node>, pass: T.Pass)
    requires UniqueNames(ns)
    ensures UniqueNames(T.Candidates(env, ns, pass))
  {
    if ns != [] {
      var init := ns[..|ns| - 1];
      CandidatesUnique(env, init, pass);
      forall n | n in T.Candidates(env, init, pass) ensures n.name != ns[|ns| - 1].name {
        var i :| 0 <= i < |init| && init[i] == n;
      }
    }
  }

  lemma NothingPicked(w: T.World, env: T.Input)
    ensures T.AfterTaint(w, env, []) == w && T.AfterUntaint(w, env, []) == w
  {
    assert Names([]) == {};
    assert TaintAll(w.nodes, {}, env.now, env.opts.taintEffect) == w.nodes;
    assert UntaintAll(w.nodes, {}) == w.nodes;
  }

  /** No node from position `i` of the order on has been picked. */
  ghost predicate NotYet(ns: seq<Node>, order: seq<nat>, i: nat, picked: seq<Node>)
    requires InRange(order, |ns|)
  {
    forall j :: i <= j < |order| ==> ns[order[j]].name !in Names(picked)
  }

  lemma NotYetStep(ns: seq<Node>, order: seq<nat>, i: nat, picked: seq<Node>)
    requires UniqueNames(ns) && InRange(order, |ns|) && Distinct(order) && i < |order|
    requires NotYet(ns, order, i, picked)
    ensures NotYet(ns, order, i + 1, picked) && NotYet(ns, order, i + 1, picked + [ns[order[i]]])
  {
    assert Names(picked + [ns[order[i]]]) == Names(picked) + {ns[order[i]].name};
    forall j | i + 1 <= j < |order| ensures ns[order[j]].name != ns[order[i]].name {
      assert order[i] != order[j];
    }
  }

  lemma TaintSkippedIff(w: T.World, o: Options, ns: seq<Node>, failing: set<string>, x: nat)
    requires x < |ns|
    ensures ns[x].name in T.TaintSkips(w, o, ns, failing) <==>
            !o.dryMode && (ns[x].name in failing || ns[x].name !in Names(w.nodes))
  {
    assert ns[x] in ns;
  }

  lemma SkippedIff(w: T.World, env: T.Input, ns: seq<Node>, x: nat)
    requires UniqueNames(ns) && x < |ns|
    ensures ns[x].name in T.UntaintSkips(w, env, ns) <==> !T.MayUntaint(w, env, ns[x])
  {
    assert ns[x] in ns;
    if ns[x].name in T.UntaintSkips(w, env, ns) {
      var n :| n in ns && !T.MayUntaint(w, env, n) && n.name == ns[x].name;
      UniqueByName(ns, n, ns[x]);
    }
  }

  lemma {:induction false} RemoveFirstAt(tracker: seq<string>, name: string, at: nat)
    requires at < |tracker| && tracker[at] == name && forall k :: 0 <= k < at ==> tracker[k] != name
    ensures T.RemoveFirst(tracker, name) == tracker[..at] + tracker[at + 1..]
  {
    if at > 0 {
      RemoveFirstAt(tracker[1..], name, at - 1);
    }
  }

  lemma {:induction false} RemoveFirstOther(tracker: seq<string>, name: string, other: string)
    requires name != other
    ensures other in T.RemoveFirst(tracker, name) <==> other in tracker
  {
    if tracker != [] {
      RemoveFirstOther(tracker[1..], name, other);
      assert tracker == [tracker[0]] + tracker[1..];
    }
  }

  /** Forgetting some names leaves the others tracked. */
  lemma {:induction false} ForgetOthers(tracker: seq<string>, ns: seq<Node>, name: string)
    requires name !in Names(ns)
    ensures name in T.Forget(tracker, ns) <==> name in tracker
  {
    if ns != [] {
      var init, last := ns[..|ns| - 1], ns[|ns| - 1];
      assert last in ns;
      assert name !in Names(init);
      ForgetOthers(tracker, init, name);
      RemoveFirstOther(T.Forget(tracker, init), last.name, name);
    }
  }
}
