/** How many untainted nodes a tick leaves on the API server. */
module Counts {
  import opened Cluster
  import opened Taints
  import opened Order
  import opened ControlLoop
  import opened TickTheorems
  import opened ScalingTheorems
  import opened Plans

  const REAL_MODE := Mode(false, [], [])

  /** The schedulable nodes without either escalator taint. */
  function UntaintedNodes(ns: seq<Node>): seq<Node> {
    Select(ns, REAL_MODE, IsUntainted)
  }

  lemma {:induction false} SelectReal(ns: seq<Node>, m: Mode, c: Class)
    requires !m.dry
    ensures Select(ns, m, c) == Select(ns, REAL_MODE, c)
  {
    if ns != [] {
      SelectReal(ns[..|ns| - 1], m, c);
    }
  }

  lemma TaintedNeverUntainted(n: Node, now: nat, effect: string)
    ensures Classify(REAL_MODE, TaintNode(n, now, effect)) != IsUntainted
  {
    if !Tainted(n) {
      UntaintUndoesTaint(n, now, effect);
    }
  }

  /** One more node: it leaves the untainted list if it is named, and stays on it or off it if not. */
  lemma TaintShrinksOne(init: seq<Node>, last: Node, after: seq<Node>, last': Node, names: set<string>)
    requires UntaintedNodes(after) == Without(UntaintedNodes(init), names)
    requires last.name in names ==> Classify(REAL_MODE, last') != IsUntainted
    requires last.name !in names ==> last' == last
    ensures UntaintedNodes(after + [last']) == Without(UntaintedNodes(init + [last]), names)
  {
    hide Select;
    hide Classify;
    hide Without;
    SelectSnoc(init, last, REAL_MODE, IsUntainted);
    SelectSnoc(after, last', REAL_MODE, IsUntainted);
    WithoutSnoc(UntaintedNodes(init), last, names);
  }

  /** Tainting takes nodes off the untainted list, and changes nothing else about it. */
  lemma {:induction false} TaintShrinks(ns: seq<Node>, names: set<string>, now: nat, effect: string)
    ensures UntaintedNodes(TaintAll(ns, names, now, effect)) == Without(UntaintedNodes(ns), names)
  {
    hide UntaintedNodes;
    hide Classify;
    hide TaintNode;
    hide Without;
    if ns == [] {
      NothingSelected(names, REAL_MODE, IsUntainted);
      NoneUntainted();
    } else {
      var init, last := ns[..|ns| - 1], ns[|ns| - 1];
      TaintShrinks(init, names, now, effect);
      TaintedNeverUntainted(last, now, effect);
      var before, all := TaintAll(init, names, now, effect), TaintAll(ns, names, now, effect);
      assert ns == init + [last] && all == before + [all[|init|]];
      TaintShrinksOne(init, last, before, all[|init|], names);
    }
  }

  lemma NoneUntainted()
    ensures UntaintedNodes([]) == []
  {
  }

  /** One more node, kept or dropped, and of the class or not. */
  lemma RemovalCommutesOne(init: seq<Node>, last: Node, gone: set<string>, m: Mode, c: Class)
    requires Select(Without(init, gone), m, c) == Without(Select(init, m, c), gone)
    ensures Select(Without(init + [last], gone), m, c) == Without(Select(init + [last], m, c), gone)
  {
    hide Select;
    hide Classify;
    hide Without;
    WithoutSnoc(init, last, gone);
    SelectSnoc(init, last, m, c);
    SelectSnoc(Without(init, gone), last, m, c);
    WithoutSnoc(Select(init, m, c), last, gone);
  }

  lemma {:induction false} NothingSelected(gone: set<string>, m: Mode, c: Class)
    ensures Select([], m, c) == [] && Without([], gone) == []
  {
  }

  lemma {:induction false} RemovalCommutes(ns: seq<Node>, gone: set<string>, m: Mode, c: Class)
    ensures Select(Without(ns, gone), m, c) == Without(Select(ns, m, c), gone)
  {
    hide Select;
    hide Without;
    if ns == [] {
      NothingSelected(gone, m, c);
    } else {
      var init, last := ns[..|ns| - 1], ns[|ns| - 1];
      RemovalCommutes(init, gone, m, c);
      RemovalCommutesOne(init, last, gone, m, c);
      assert ns == init + [last];
    }
  }

  /** The names that the unhealthy pass and the scale-down take off the untainted list. */
  ghost function NewlyTainted(w: World, env: Input, s: Split, taints: seq<nat>): set<string>
    requires InRange(taints, |s.untainted|)
  {
    (Unhealthied(w, env) + Names(At(s.untainted, taints))) * Names(s.untainted)
  }

  /** The names that the scale-up puts on it: a node that carries the taint twice stays tainted. */
  ghost function Freed(s: Split, untaints: seq<nat>): set<string>
    requires InRange(untaints, |s.tainted|)
  {
    Singles(At(s.tainted, untaints))
  }

  /** The names of the nodes that carry the taint no more than once. */
  ghost function Singles(ns: seq<Node>): set<string> {
    set n | n in ns && !Tainted(UntaintNode(n)) :: n.name
  }

  lemma SplitIsReal(w: World, env: Input)
    requires !env.opts.dryMode
    ensures SplitOf(w, env).untainted == UntaintedNodes(w.nodes)
    ensures UniqueNames(w.nodes) ==> UniqueNames(SplitOf(w, env).untainted)
  {
    SelectReal(w.nodes, ModeOf(Prepared(w, env), env.opts), IsUntainted);
    if UniqueNames(w.nodes) {
      C.SelectUnique(w.nodes, REAL_MODE, IsUntainted);
    }
  }

  /** Tainting and removing, for any sets of names. */
  lemma CountAfter(ns: seq<Node>, u: set<string>, gone: set<string>, t: set<string>, now: nat, effect: string)
    requires UniqueNames(UntaintedNodes(ns)) && gone !! Names(UntaintedNodes(ns))
    ensures |UntaintedNodes(TaintAll(Without(TaintAll(ns, u, now, effect), gone), t, now, effect))| ==
            |UntaintedNodes(ns)| - |(u + t) * Names(UntaintedNodes(ns))|
  {
    var a := TaintAll(ns, u, now, effect);
    var b := Without(a, gone);
    var un := UntaintedNodes(ns);
    TaintShrinks(ns, u, now, effect);
    RemovalCommutes(a, gone, REAL_MODE, IsUntainted);
    TaintShrinks(b, t, now, effect);
    WithoutTwice(un, u, gone);
    WithoutTwice(un, u + gone, t);
    WithoutCount(un, u + gone + t);
    assert (u + gone + t) * Names(un) == (u + t) * Names(un);
  }

  // ---------- untainting ----------

  /** A node off the other lists becomes untainted when its last escalator taint goes. */
  lemma UntaintedClass(n: Node)
    requires Classify(REAL_MODE, n) == IsTainted
    ensures Classify(REAL_MODE, UntaintNode(n)) == IsUntainted <==> !Tainted(UntaintNode(n))
  {
    NoKey(n.taints, TO_BE_FORCE_REMOVED);
    NoKey(UntaintNode(n).taints, TO_BE_FORCE_REMOVED);
    UntaintAddsNothing(n);
  }

  /** The named nodes that carry the taint only once. */
  ghost function Loosed(ns: seq<Node>, names: set<string>): set<string> {
    set n | n in ns && n.name in names && !Tainted(UntaintNode(n)) :: n.name
  }

  lemma LoosedLast(ns: seq<Node>, names: set<string>)
    requires UniqueNames(ns) && ns != []
    ensures var init, last := ns[..|ns| - 1], ns[|ns| - 1];
            |Loosed(ns, names)| == |Loosed(init, names)| + if last.name in names
              && !Tainted(UntaintNode(last)) then 1 else 0
  {
    hide UntaintNode;
    hide Tainted;
    var init, last := ns[..|ns| - 1], ns[|ns| - 1];
    LastName(ns);
    hide UniqueNames;
    assert ns == init + [last];
    assert last.name !in Loosed(init, names);
    if last.name in names && !Tainted(UntaintNode(last)) {
      assert Loosed(ns, names) == Loosed(init, names) + {last.name};
    } else {
      assert Loosed(ns, names) == Loosed(init, names);
    }
  }

  /** Untainting tainted nodes adds to the untainted list those that carried the taint once. */
  lemma {:induction false} UntaintGrows(ns: seq<Node>, names: set<string>)
    requires UniqueNames(ns)
    requires forall n :: n in ns && n.name in names ==> Classify(REAL_MODE, n) == IsTainted
    ensures |UntaintedNodes(UntaintAll(ns, names))| == |UntaintedNodes(ns)| + |Loosed(ns, names)|
  {
    if ns == [] {
      assert Loosed(ns, names) == {};
    } else {
      var init, last := ns[..|ns| - 1], ns[|ns| - 1];
      UntaintGrows(init, names);
      LoosedLast(ns, names);
      hide Loosed;
      var all := UntaintAll(ns, names);
      assert all[..|ns| - 1] == UntaintAll(init, names);
      CountLast(ns);
      CountLast(all);
      hide UntaintedNodes;
      assert last in ns;
      if last.name in names {
        UntaintedClass(last);
      }
      hide UntaintNode;
      hide Classify;
    }
  }

  lemma {:induction false} CountLast(ns: seq<Node>)
    requires ns != []
    ensures |UntaintedNodes(ns)| == |UntaintedNodes(ns[..|ns| - 1])| + if Classify(REAL_MODE, ns[|ns| - 1]) ==
            IsUntainted then 1 else 0
  {
    hide Classify;
  }

  /** What the unhealthy pass, the removals and the scale-down make of the nodes. */
  ghost function Before(ns: seq<Node>, env: Input, u: set<string>, gone: set<string>, t: set<string>): seq<Node> {
    TaintAll(Without(TaintAll(ns, u, env.now, env.opts.taintEffect), gone), t, env.now, env.opts.taintEffect)
  }

  /** A tainted node that is neither removed nor among those tainted is still there, as it was. */
  lemma TaintedStays(ns: seq<Node>, env: Input, u: set<string>, gone: set<string>, t: set<string>, n: Node)
    requires UniqueNames(ns) && n in ns && Tainted(n) && n.name !in gone && n.name !in t
    ensures n in Before(ns, env, u, gone, t)
    ensures forall m :: m in Before(ns, env, u, gone, t) && m.name == n.name ==> m == n
  {
    var x := Before(ns, env, u, gone, t);
    assert UntaintAll(x, {}) == x;
    Survives(ns, env, u, gone, t, {}, n);
    forall m | m in x && m.name == n.name ensures m == n {
      var o := Origin(ns, env, u, gone, t, {}, m);
      UniqueByName(ns, o, n);
    }
    hide Before;
  }

  lemma BeforeUnique(ns: seq<Node>, env: Input, u: set<string>, gone: set<string>, t: set<string>)
    requires UniqueNames(ns)
    ensures UniqueNames(Before(ns, env, u, gone, t))
  {
    WithoutUnique(TaintAll(ns, u, env.now, env.opts.taintEffect), gone);
  }

  lemma PickedStay(ns: seq<Node>, env: Input, u: set<string>, gone: set<string>, t: set<string>, picked: seq<Node>)
    requires UniqueNames(ns) && Names(picked) !! gone && Names(picked) !! t
    requires forall n :: n in picked ==> n in ns && Tainted(n)
    ensures var x := Before(ns, env, u, gone, t);
            && (forall n :: n in picked ==> n in x)
            && forall m :: m in x && m.name in Names(picked) ==> m in picked
  {
    hide Before;
    hide Tainted;
    var x := Before(ns, env, u, gone, t);
    forall n | n in picked ensures n in x && forall m :: m in x && m.name == n.name ==> m == n {
      assert n.name in Names(picked);
      TaintedStays(ns, env, u, gone, t, n);
    }
    forall m | m in x && m.name in Names(picked) ensures m in picked {
      var n :| n in picked && n.name == m.name;
    }
  }

  lemma FreedCount(x: seq<Node>, picked: seq<Node>)
    requires UniqueNames(x) && (forall n :: n in picked ==> n in x && Classify(REAL_MODE, n) == IsTainted)
    requires forall m :: m in x && m.name in Names(picked) ==> m in picked
    ensures |UntaintedNodes(UntaintAll(x, Names(picked)))| == |UntaintedNodes(x)| + |Singles(picked)|
  {
    hide UntaintedNodes;
    hide Classify;
    LoosedAre(x, picked);
    UntaintGrows(x, Names(picked));
    hide Loosed;
    hide Singles;
  }

  lemma CountWith(ns: seq<Node>, env: Input, u: set<string>, gone: set<string>, t: set<string>, picked: seq<Node>)
    requires UniqueNames(ns) && UniqueNames(UntaintedNodes(ns)) && gone !! Names(UntaintedNodes(ns))
    requires Names(picked) !! gone && Names(picked) !! t
    requires forall n :: n in picked ==> n in ns && Classify(REAL_MODE, n) == IsTainted
    ensures |UntaintedNodes(UntaintAll(Before(ns, env, u, gone, t), Names(picked)))| ==
            |UntaintedNodes(ns)| - |(u + t) * Names(UntaintedNodes(ns))| + |Singles(picked)|
  {
    hide UntaintedNodes;
    hide UntaintAll;
    hide Singles;
    CountAfter(ns, u, gone, t, env.now, env.opts.taintEffect);
    var x := Before(ns, env, u, gone, t);
    hide Before;
    BeforeUnique(ns, env, u, gone, t);
    PickedStay(ns, env, u, gone, t, picked);
    hide Classify;
    FreedCount(x, picked);
  }

  lemma LoosedAre(x: seq<Node>, picked: seq<Node>)
    requires forall n :: n in picked ==> n in x
    requires forall m :: m in x && m.name in Names(picked) ==> m in picked
    ensures Loosed(x, Names(picked)) == Singles(picked)
  {
    hide Tainted;
    hide UntaintNode;
    assert forall n :: n in picked ==> n.name in Names(picked);
  }

  // ---------- the exact count ----------

  /** The exact count after every real tick, told before it: the untainted nodes it found, less those
      that the unhealthy pass or the scale-down taints, plus those that the scale-up frees. The
      scale-down counts against the snapshot; the unhealthy pass comes on top of it. */
  lemma UntaintedCount(w: World, env: Input, ord: Orders)
    requires Valid(w, env, ord) && !env.opts.dryMode && env.listed
    ensures var s, t, v := SplitOf(w, env), ToTaint(w, env, ord), ToUntaint(w, env, ord);
            && InRange(t, |s.untainted|) && InRange(v, |s.tainted|) && s.untainted == UntaintedNodes(w.nodes)
            && |UntaintedNodes(Tick(w, env, ord).0.nodes)| ==
               |s.untainted| - |NewlyTainted(w, env, s, t)| + |Freed(s, v)|
  {
    hide Tick;
    TickFates(w, env, ord);
    TickSeparates(w, env, ord);
    TickIsPlanned(w, env, ord);
    SplitIsReal(w, env);
    TaintedAreReal(w, env);
    SplitDisjoint(w, env);
    assert UniqueNames(w.nodes);
    hide Valid;
    hide SplitOf;
    hide ToTaint;
    hide ToUntaint;
    hide ForceRequest;
    hide ReapRequest;
    hide Asked;
    var (w', r) := Tick(w, env, ord);
    var s := SplitOf(w, env);
    DeletedAreRequested(r.forced);
    DeletedAreRequested(r.reaped);
    var gone := DeletedNames(r.forced) + DeletedNames(r.reaped);
    CountWith(w.nodes, env, Unhealthied(w, env), gone, TaintedNames(r), At(s.tainted, r.up.picks));
  }

  /** Picked nodes count once each; what the unhealthy pass taints as well comes on top. */
  lemma NewlyTaintedCount(w: World, env: Input, s: Split, taints: seq<nat>)
    requires UniqueNames(s.untainted) && InRange(taints, |s.untainted|) && Distinct(taints)
    ensures |NewlyTainted(w, env, s, taints)| >= |taints|
    ensures Unhealthied(w, env) == {} ==> |NewlyTainted(w, env, s, taints)| == |taints|
  {
    AtUnique(s.untainted, taints);
    hide Unhealthied;
    hide Names;
    hide At;
    SplitUnion(Unhealthied(w, env), Names(At(s.untainted, taints)), Names(s.untainted));
  }

  lemma SplitUnion(a: set<string>, t: set<string>, u: set<string>)
    requires t <= u
    ensures |(a + t) * u| == |t| + |a * u - t|
    ensures a == {} ==> |(a + t) * u| == |t|
  {
    assert (a + t) * u == t + (a * u - t);
  }


  lemma TaintedAreReal(w: World, env: Input)
    requires !env.opts.dryMode
    ensures forall n :: n in SplitOf(w, env).tainted ==> n in w.nodes && Classify(REAL_MODE, n) == IsTainted
  {
    hide Prepared;
  }

  // ---------- the floor ----------

  /** The scale-down leaves the minimum. */
  lemma PlannedFloor(w: World, env: Input, ord: Orders)
    requires Valid(w, env, ord)
    ensures var u, t := |SplitOf(w, env).untainted|, ToTaint(w, env, ord);
            && Distinct(t) && (u >= env.opts.minNodes ==> u - |t| >= env.opts.minNodes)
  {
    hide Prepared;
    hide SplitOf;
    hide Shrinkage;
    hide TaintsAlong;
    ValidFacts(w, env, ord);
    hide Valid;
    PreparedNames(w, env);
    SplitListed(w, env);
    SelectedAtMost(w, env);
    FloorAlong(Prepared(w, env), env, ord.oldest, SplitOf(w, env).untainted, Shrinkage(w, env, ord));
  }

  lemma FloorAlong(p: World, env: Input, oldest: seq<nat>, untainted: seq<Node>, wanted: nat)
    requires InRange(oldest, |untainted|) && Distinct(oldest) && Names(untainted) <= Names(p.nodes)
    ensures var t := TaintsAlong(env.opts, p.group.cached, env.taintFails, oldest, untainted, wanted);
            && Distinct(t) && (|untainted| >= env.opts.minNodes ==> |untainted| - |t| >= env.opts.minNodes)
  {
    TaintFloor(p, env, oldest, untainted, wanted);
    PlannedTaints(p, env, oldest, untainted, wanted);
    hide TaintPicks;
    hide TaintsAlong;
  }

  /** When a real tick ends with the minimum of untainted nodes, told before it: exactly when what
      both passes taint, whatever calls fail, fits in what there is above the minimum and what the
      scale-up frees. */
  lemma FloorBeforehand(w: World, env: Input, ord: Orders)
    requires Valid(w, env, ord) && !env.opts.dryMode && env.listed
    ensures var s, t, v := SplitOf(w, env), ToTaint(w, env, ord), ToUntaint(w, env, ord);
            && InRange(t, |s.untainted|) && InRange(v, |s.tainted|)
            && (|UntaintedNodes(Tick(w, env, ord).0.nodes)| >= env.opts.minNodes <==>
                |NewlyTainted(w, env, s, t)| <= |s.untainted| + |Freed(s, v)| - env.opts.minNodes)
  {
    hide Tick;
    hide SplitOf;
    hide ToTaint;
    hide ToUntaint;
    UntaintedCount(w, env, ord);
    hide Valid;
  }

  /** Without health checks no real tick that finds the minimum of untainted nodes leaves fewer,
      whatever it does and whatever calls fail. */
  lemma UntaintedFloor(w: World, env: Input, ord: Orders)
    requires Valid(w, env, ord) && !env.opts.dryMode && env.opts.unhealthyGrace <= 0
    requires |UntaintedNodes(w.nodes)| >= env.opts.minNodes
    ensures |UntaintedNodes(Tick(w, env, ord).0.nodes)| >= env.opts.minNodes
  {
    if env.listed {
      hide Tick;
      hide SplitOf;
      hide ToTaint;
      hide ToUntaint;
      UntaintedCount(w, env, ord);
      PlannedFloor(w, env, ord);
      SplitIsReal(w, env);
      assert UniqueNames(w.nodes);
      hide Valid;
      assert Unhealthied(w, env) == {};
      NewlyTaintedCount(w, env, SplitOf(w, env), ToTaint(w, env, ord));
      hide NewlyTainted;
      hide Freed;
    }
  }
}
