/** An idle group really gets smaller: what it taints it removes, down to its minimum. */
module Shrinking {
  import opened Cluster
  import opened Taints
  import opened Order
  import opened Pods
  import opened Decision
  import opened ScaleLocks
  import opened Cloud
  import opened ControlLoop
  import opened TickTheorems
  import opened Plans
  import opened Counts
  import opened Progress
  import opened Runs
  import opened Reaping

  // ---------- due nodes go ----------

  lemma IdleIsQuiet(w: World, env: Input, ord: Orders, o: Options)
    requires IdleOptions(o) && IdleInput(env, o) && IdleWorld(w, o)
    requires Valid(w, env, ord) && !Held(w.lock, env.now) && w.nodes != []
    ensures Quietly(w, env, ord) && Decided(w, env).Delta? && Decided(w, env).nodes < 0
    ensures ReachesDecision(w, env, ord)
  {
    hide Decide;
    hide SplitOf;
    hide Prepared;
    hide Belongs;
    hide UntaintedNodes;
    IdleReaches(w, env, ord, o);
    hide Valid;
    hide UsageOf;
  }

  /** The due nodes always fit: they are among the nodes beyond the untainted ones. */
  lemma DueFit(w: World, env: Input, o: Options)
    requires IdleWorld(w, o) && !env.opts.dryMode
    ensures |Due(w, env)| <= Room(w.group.cached)
  {
    SplitIsReal(w, env);
    PartitionIsExact(w.nodes, ModeOf(Prepared(w, env), env.opts));
    hide Prepared;
    var s := SplitOf(w, env);
    assert |multiset(s.untainted) + multiset(s.tainted) + multiset(s.forced) + multiset(s.cordoned)| == |w.nodes|;
    hide Select;
    hide Candidates;
    hide Belongs;
  }

  /** In an idle run every node that is due at a tick is gone after it. */
  lemma IdleDueGo(ws: seq<World>, envs: seq<Input>, ords: seq<Orders>, o: Options, k: nat, n: Node)
    requires IdleRun(ws, envs, ords, o) && k < |envs| && n in Due(ws[k], envs[k])
    ensures n.name !in Names(ws[k + 1].nodes)
  {
    hide Tick;
    hide Due;
    hide Belongs;
    hide UntaintedNodes;
    IdleAt(ws, envs, ords, o, k);
    DueFit(ws[k], envs[k], o);
    DueListed(ws[k], envs[k], n);
    IdleIsQuiet(ws[k], envs[k], ords[k], o);
    hide Quietly;
    hide Valid;
    DueGoes(ws[k], envs[k], ords[k], n);
  }

  lemma DueListed(w: World, env: Input, n: Node)
    requires n in Due(w, env)
    ensures n in w.nodes
  {
    SplitListed(w, env);
    hide SplitOf;
  }

  /** What holds at every tick of an idle run. */
  lemma IdleAt(ws: seq<World>, envs: seq<Input>, ords: seq<Orders>, o: Options, k: nat)
    requires IdleRun(ws, envs, ords, o) && k < |envs|
    ensures IdleOptions(o) && IdleWorld(ws[k], o) && IdleInput(envs[k], o) && Valid(ws[k], envs[k], ords[k])
    ensures !Held(ws[k].lock, envs[k].now)
    ensures ws[k + 1].nodes == Tick(ws[k], envs[k], ords[k]).0.nodes
  {
    hide Tick;
    hide Valid;
    hide Belongs;
    hide UntaintedNodes;
    IdleInvariant(ws, envs, ords, o, k);
    assert IdleStep(ws[k], envs[k], ords[k], ws[k + 1], o);
    hide IdleWorld;
  }

  // ---------- what a tick leaves ----------

  /** Not cordoned, not force-tainted, and free to be deleted. */
  predicate Ordinary(n: Node) {
    !n.unschedulable && !HasTaint(n, TO_BE_FORCE_REMOVED) && !SafeFromDeletion(n)
  }

  ghost predicate StampedBy(n: Node, t: nat) {
    exists s: nat :: s <= t && StampedAt(n, s)
  }

  /** Every node is ordinary, and untainted or stamped at `t` or before. */
  ghost predicate Settled(ns: seq<Node>, t: nat) {
    forall n :: n in ns ==> Ordinary(n) && (Marks(n.taints) == [] || StampedBy(n, t))
  }

  /** What an idle tick does to its nodes: it untaints none, and taints none at the minimum. */
  lemma IdlePicks(w: World, env: Input, ord: Orders, o: Options)
    requires IdleOptions(o) && IdleInput(env, o) && IdleWorld(w, o)
    requires Valid(w, env, ord) && !Held(w.lock, env.now) && w.nodes != []
    ensures var r := Tick(w, env, ord).1;
            && WellFormed(r) && UntaintedNames(r) == {}
            && (|UntaintedNodes(w.nodes)| == o.minNodes ==> TaintedNames(r) == {})
  {
    hide Tick;
    hide SplitOf;
    hide Belongs;
    hide UntaintedNodes;
    hide Decided;
    TickSeparates(w, env, ord);
    SplitIsReal(w, env);
    IdleIsQuiet(w, env, ord, o);
    DecidedDown(w, env, ord);
    hide Valid;
    hide ReachesDecision;
    hide Quietly;
    var r := Tick(w, env, ord).1;
    assert At(r.split.tainted, []) == [] && At(r.split.untainted, []) == [];
    if |UntaintedNodes(w.nodes)| == o.minNodes {
      assert r.taintPicks == [];
    }
  }

  /** A node that an idle tick taints or leaves alone is settled by then. */
  lemma FateSettles(n: Node, env: Input, t: nat, names: set<string>)
    requires Ordinary(n) && (Marks(n.taints) == [] || StampedBy(n, t)) && t <= env.now
    ensures var n' := Fate(n, env, {}, names, {});
            && Ordinary(n') && (Marks(n'.taints) == [] || StampedBy(n', env.now))
            && (n.name !in names ==> n' == n)
  {
    var n' := Fate(n, env, {}, names, {});
    MarksOfTainted(n, env.now, env.opts.taintEffect);
    TaintedForce(n, env.now, env.opts.taintEffect);
    hide HasTaint;
    if n.name in names && Marks(n.taints) == [] {
      assert StampedAt(n', env.now);
    } else if Marks(n.taints) != [] {
      var s: nat :| s <= t && StampedAt(n, s);
      assert StampedAt(n', s);
    }
  }

  /** After an idle tick every node is settled by its clock; and by what it was before if the group
      is at its minimum. */
  lemma TickSettles(w: World, env: Input, ord: Orders, o: Options, t: nat)
    requires IdleOptions(o) && IdleInput(env, o) && IdleWorld(w, o)
    requires Valid(w, env, ord) && !Held(w.lock, env.now) && Settled(w.nodes, t) && t <= env.now
    ensures Settled(Tick(w, env, ord).0.nodes, env.now)
    ensures |UntaintedNodes(w.nodes)| == o.minNodes ==> forall n :: n in Tick(w, env, ord).0.nodes ==> n in w.nodes
  {
    hide Tick;
    hide UntaintedNodes;
    hide Ordinary;
    hide StampedBy;
    TickFates(w, env, ord);
    if w.nodes != [] {
      IdlePicks(w, env, ord, o);
    }
    hide Valid;
    hide IdleWorld;
    var (w', r) := Tick(w, env, ord);
    assert Unhealthied(w, env) == {};
    hide Unhealthied;
    var gone := DeletedNames(r.forced) + DeletedNames(r.reaped);
    forall n' | n' in w'.nodes
      ensures Ordinary(n') && (Marks(n'.taints) == [] || StampedBy(n', env.now))
      ensures |UntaintedNodes(w.nodes)| == o.minNodes ==> n' in w.nodes
    {
      var n := Origin(w.nodes, env, {}, gone, TaintedNames(r), UntaintedNames(r), n');
      FateSettles(n, env, t, TaintedNames(r));
    }
  }

  // ---------- the end of an idle run ----------

  /** The clock of the last tick before `k`. */
  function LastClock(envs: seq<Input>, k: nat): nat
    requires k <= |envs|
  {
    if k == 0 then 0 else envs[k - 1].now
  }

  /** A group of ordinary nodes that carry no escalator taint. */
  ghost predicate FreshNodes(ns: seq<Node>) {
    forall n :: n in ns ==> Ordinary(n) && Marks(n.taints) == []
  }

  lemma ClockOrder(ws: seq<World>, envs: seq<Input>, ords: seq<Orders>, o: Options, i: nat, j: nat)
    requires IdleRun(ws, envs, ords, o) && i <= j < |envs|
    ensures LastClock(envs, i) <= envs[j].now
  {
  }

  lemma {:induction false} SettledAt(ws: seq<World>, envs: seq<Input>, ords: seq<Orders>, o: Options, k: nat)
    requires IdleRun(ws, envs, ords, o) && FreshNodes(ws[0].nodes) && k <= |envs|
    ensures Settled(ws[k].nodes, LastClock(envs, k))
  {
    hide Tick;
    hide UntaintedNodes;
    hide Settled;
    hide FreshNodes;
    hide IdleWorld;
    hide IdleStep;
    hide Valid;
    if k == 0 {
      FreshIsSettled(ws[0].nodes);
    } else {
      SettledAt(ws, envs, ords, o, k - 1);
      SettledNext(ws, envs, ords, o, k - 1);
    }
  }

  lemma FreshIsSettled(ns: seq<Node>)
    requires FreshNodes(ns)
    ensures Settled(ns, 0)
  {
  }

  lemma SettledNext(ws: seq<World>, envs: seq<Input>, ords: seq<Orders>, o: Options, k: nat)
    requires IdleRun(ws, envs, ords, o) && k < |envs| && Settled(ws[k].nodes, LastClock(envs, k))
    ensures Settled(ws[k + 1].nodes, envs[k].now)
    ensures |UntaintedNodes(ws[k].nodes)| == o.minNodes ==> forall n :: n in ws[k + 1].nodes ==> n in ws[k].nodes
  {
    hide Tick;
    hide UntaintedNodes;
    hide Settled;
    hide IdleWorld;
    hide Valid;
    IdleAt(ws, envs, ords, o, k);
    ClockOrder(ws, envs, ords, o, k, k);
    TickSettles(ws[k], envs[k], ords[k], o, LastClock(envs, k));
    hide IdleStep;
  }

  /** Once the group is at its minimum of untainted nodes, nothing more is tainted. */
  lemma {:induction false} SettledSince(ws: seq<World>, envs: seq<Input>, ords: seq<Orders>, o: Options, k: nat, j: nat)
    requires IdleRun(ws, envs, ords, o) && FreshNodes(ws[0].nodes) && k <= j <= |envs|
    requires |UntaintedNodes(ws[0].nodes)| - k * o.fastRate <= o.minNodes
    ensures Settled(ws[j].nodes, LastClock(envs, k)) && |UntaintedNodes(ws[j].nodes)| == o.minNodes
  {
    hide Tick;
    hide UntaintedNodes;
    hide IdleWorld;
    hide IdleStep;
    hide Valid;
    IdleConverges(ws, envs, ords, o, j);
    MoreTicks(o, k, j);
    if j == k {
      SettledAt(ws, envs, ords, o, k);
    } else {
      SettledSince(ws, envs, ords, o, k, j - 1);
      SettledAt(ws, envs, ords, o, j - 1);
      SettledNext(ws, envs, ords, o, j - 1);
    }
  }

  lemma MoreTicks(o: Options, k: nat, j: nat)
    requires o.fastRate >= 1 && k <= j
    ensures j * o.fastRate >= k * o.fastRate
  {
    assert (j - k) * o.fastRate >= 0;
  }

  /** A settled node is due once both periods have passed since then. */
  lemma SettledIsDue(w: World, env: Input, n: Node, t: nat)
    requires !env.opts.dryMode && env.opts.unhealthyGrace <= 0
    requires n in w.nodes && Ordinary(n) && Marks(n.taints) != [] && StampedBy(n, t)
    requires env.now - t > env.opts.softGrace && env.now - t > env.opts.hardGrace
    ensures n in Due(w, env)
  {
    var s: nat :| s <= t && StampedAt(n, s);
    ReadStamp(n, s);
    assert s / SECOND * SECOND <= s;
    DueExactlyWhen(w, env, n);
    hide Due;
    hide EmptyNode;
  }

  /** The end of an idle run. A group of fresh ordinary nodes, once there were ticks enough to taint
      the excess and both periods are over since then, consists of exactly its minimum of nodes, all
      untainted; and the real desired capacity is that, and what it was beyond the nodes at first. */
  lemma IdleEndsAtMinimum(ws: seq<World>, envs: seq<Input>, ords: seq<Orders>, o: Options, k: nat, j: nat)
    requires IdleRun(ws, envs, ords, o) && FreshNodes(ws[0].nodes) && k <= j < |envs|
    requires |UntaintedNodes(ws[0].nodes)| - k * o.fastRate <= o.minNodes
    requires envs[j].now - LastClock(envs, k) > o.softGrace && envs[j].now - LastClock(envs, k) > o.hardGrace
    ensures UntaintedNodes(ws[j + 1].nodes) == ws[j + 1].nodes && |ws[j + 1].nodes| == o.minNodes
    ensures ws[j + 1].group.desired == o.minNodes + ws[0].group.desired - |ws[0].nodes|
  {
    hide Tick;
    hide UntaintedNodes;
    hide StampedBy;
    hide Due;
    SettledSince(ws, envs, ords, o, k, j);
    SettledSince(ws, envs, ords, o, k, j + 1);
    SettledAt(ws, envs, ords, o, j);
    IdleAt(ws, envs, ords, o, j);
    SettledNext(ws, envs, ords, o, j);
    IdleInvariant(ws, envs, ords, o, j + 1);
    hide IdleWorld;
    hide Valid;
    forall n | n in ws[j + 1].nodes ensures Ordinary(n) && Marks(n.taints) == [] {
      if Marks(n.taints) != [] {
        SettledIsDue(ws[j], envs[j], n, LastClock(envs, k));
        IdleDueGo(ws, envs, ords, o, j, n);
      }
    }
    hide IdleRun;
    AllUntainted(ws[j + 1].nodes);
  }

  lemma AllUntainted(ns: seq<Node>)
    requires FreshNodes(ns)
    ensures UntaintedNodes(ns) == ns
  {
    forall i | 0 <= i < |ns| ensures Classify(REAL_MODE, ns[i]) == IsUntainted {
      assert ns[i] in ns;
    }
    SelectAll(ns, REAL_MODE, IsUntainted);
  }
}
