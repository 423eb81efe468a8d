/** Reaping is all or nothing per call: over a quiet run a due node goes at once or never. */
module Reaping {
  import opened Cluster
  import opened Taints
  import opened Cloud
  import opened ControlLoop
  import opened TickTheorems
  import opened Plans
  import opened CloudTheorems
  import opened Runs

  /** A tick that acts without growing, with no failing call, on a freshly described group to which
      all nodes belong. */
  ghost predicate Quietly(w: World, env: Input, ord: Orders) {
    && Valid(w, env, ord) && Acts(w, env) && Effective(w, env, ord) <= 0
    && !env.opts.dryMode && env.opts.unhealthyGrace <= 0
    && env.terminateFails == {} && env.deleteFails == {}
    && (forall n :: n in w.nodes ==> Belongs(w.group.cached, n))
    && w.group.desired == w.group.cached.target
  }

  /** The nodes that are due. */
  ghost function Due(w: World, env: Input): seq<Node> {
    Candidates(env, SplitOf(w, env).tainted, ReapPass(true))
  }

  function Room(d: Description): int {
    d.target - d.minSize
  }

  lemma DueIsRequested(w: World, env: Input, ord: Orders)
    requires Quietly(w, env, ord)
    ensures ReapRequest(w, env, ord) == Due(w, env)
    ensures UniqueNames(Due(w, env)) && forall n :: n in Due(w, env) ==> n in w.nodes
  {
    SplitListed(w, env);
    C.SelectUnique(w.nodes, ModeOf(Prepared(w, env), env.opts), IsTainted);
    C.CandidatesUnique(env, SplitOf(w, env).tainted, ReapPass(true));
    hide Decided;
    hide Prepared;
    hide Candidates;
  }

  /** Whether a node is due depends on the node object, the pods, the options and the clock only. */
  lemma DueExactlyWhen(w: World, env: Input, n: Node)
    requires !env.opts.dryMode
    ensures n in Due(w, env) <==>
            n in w.nodes && Classify(Mode(false, [], []), n) == IsTainted && Reapable(env, n, true)
  {
    hide Prepared;
    hide Reapable;
  }

  /** All or nothing: what a quiet tick deletes for its taint. */
  lemma QuietRemoval(w: World, env: Input, ord: Orders)
    requires Quietly(w, env, ord)
    ensures var r, due := Tick(w, env, ord).1.reaped, Due(w, env);
            && r.request == due && r.deleted == (if |due| <= Room(w.group.cached) then |due| else 0)
  {
    hide Tick;
    hide Due;
    DueIsRequested(w, env, ord);
    TickIsPlanned(w, env, ord);
    SelectedAtMost(w, env);
    AllOrNothing(w.group.cached, Due(w, env));
    var none: set<string> := {};
    DeletesAll(Due(w, env));
    hide Valid;
    hide Belongs;
    hide ReapRequest;
    hide ForceRequest;
    hide ToTaint;
    hide ToUntaint;
    hide Asked;
    hide Acts;
    hide Prepared;
    hide Terminated;
  }

  lemma DeletesAll(request: seq<Node>)
    ensures DeletedPrefix(request, {}) == |request|
  {
  }

  /** When there is room, every due node goes. */
  lemma DueGoes(w: World, env: Input, ord: Orders, n: Node)
    requires Quietly(w, env, ord) && n in Due(w, env) && |Due(w, env)| <= Room(w.group.cached)
    ensures n.name !in Names(Tick(w, env, ord).0.nodes)
  {
    hide Tick;
    hide Due;
    hide Unhealthied;
    QuietRemoval(w, env, ord);
    TickFates(w, env, ord);
    hide Quietly;
    var (w', r) := Tick(w, env, ord);
    assert r.reaped.request[..r.reaped.deleted] == Due(w, env);
    assert n.name in DeletedNames(r.reaped);
    hide DeletedNames;
    hide Fate;
    forall m | m in w.nodes ensures Fate(m, env, Unhealthied(w, env), TaintedNames(r), UntaintedNames(r)).name ==
      m.name {
      FateName(m, env, Unhealthied(w, env), TaintedNames(r), UntaintedNames(r));
    }
    forall m | m in w'.nodes ensures m.name != n.name {
      var o := Origin(w.nodes, env, Unhealthied(w, env), DeletedNames(r.forced) + DeletedNames(r.reaped),
        TaintedNames(r), UntaintedNames(r), m);
    }
  }

  /** When there is not, every due node stays, as it is. */
  lemma DueStays(w: World, env: Input, ord: Orders, n: Node)
    requires Quietly(w, env, ord) && n in Due(w, env) && |Due(w, env)| > Room(w.group.cached)
    ensures n in Tick(w, env, ord).0.nodes
  {
    hide Tick;
    QuietRemoval(w, env, ord);
    DueIsRequested(w, env, ord);
    NoGrowth(w, env, ord);
    TickIsPlanned(w, env, ord);
    TickFates(w, env, ord);
    TickSeparates(w, env, ord);
    var (w', r) := Tick(w, env, ord);
    assert n.name in Names(Due(w, env));
    assert Unhealthied(w, env) == {};
    assert UntaintedNames(r) == {};
    DeletedAreRequested(r.forced);
    assert r.reaped.request[..0] == [];
    assert DeletedNames(r.reaped) == {};
    hide Quietly;
    hide Due;
    hide DeletedNames;
    Survives(w.nodes, env, Unhealthied(w, env), DeletedNames(r.forced) + DeletedNames(r.reaped), TaintedNames(r),
      UntaintedNames(r), n);
  }

  // ---------- quiet runs ----------

  /** Between two quiet ticks the group is described afresh; pods and options stay as they are. */
  ghost predicate QuietStep(w: World, env: Input, ord: Orders, w': World) {
    && Quietly(w, env, ord)
    && w'.nodes == Tick(w, env, ord).0.nodes && w'.group.cached.target == Tick(w, env, ord).0.group.desired
    && w'.group.cached.minSize == w.group.cached.minSize
  }

  ghost predicate QuietRun(ws: seq<World>, envs: seq<Input>, ords: seq<Orders>) {
    && |ws| == |envs| + 1 == |ords| + 1
    && (forall k :: 0 <= k < |envs| ==> QuietStep(ws[k], envs[k], ords[k], ws[k + 1]))
    && forall i, j :: 0 <= i < j < |envs| ==> SameView(envs[i], envs[j])
  }

  ghost predicate SameView(env: Input, env': Input) {
    env'.opts == env.opts && env'.pods == env.pods && env.now <= env'.now
  }

  /** Time only makes nodes more due. */
  lemma ReapableLater(env: Input, env': Input, n: Node)
    requires SameView(env, env') && env.opts.unhealthyGrace <= 0 && Reapable(env, n, true)
    ensures Reapable(env', n, true)
  {
  }

  lemma RoomShrinks(w: World, env: Input, ord: Orders, w': World)
    requires QuietStep(w, env, ord, w')
    ensures Room(w'.group.cached) <= Room(w.group.cached)
  {
    hide Tick;
    TickCapacity(w, env, ord);
    NoGrowth(w, env, ord);
    hide Valid;
    hide Acts;
    hide Effective;
    hide Asked;
    hide ForceRequest;
    hide ReapRequest;
    hide Terminated;
    hide Belongs;
  }

  /** Without room: the due nodes are all due again, and there is no more room than before. */
  lemma StuckStep(w: World, env: Input, ord: Orders, w': World, env': Input)
    requires QuietStep(w, env, ord, w') && SameView(env, env') && !env'.opts.dryMode
    requires |Due(w, env)| > Room(w.group.cached)
    ensures forall n :: n in Due(w, env) ==> n in w'.nodes && n in Due(w', env')
  {
    hide Tick;
    hide Reapable;
    forall n | n in Due(w, env) ensures n in w'.nodes && n in Due(w', env') {
      DueExactlyWhen(w, env, n);
      DueStays(w, env, ord, n);
      ReapableLater(env, env', n);
      DueExactlyWhen(w', env', n);
    }
    hide Due;
    hide Quietly;
  }

  lemma MoreDue(a: seq<Node>, b: seq<Node>)
    requires UniqueNames(a) && UniqueNames(b) && forall n :: n in a ==> n in b
    ensures |a| <= |b|
  {
    CountNames(a);
    CountNames(b);
    assert Names(a) <= Names(b);
    assert Names(b) == Names(a) + (Names(b) - Names(a));
  }

  /** Once the due nodes exceed the room, no tick removes any of them. */
  lemma {:induction false} StuckForever(ws: seq<World>, envs: seq<Input>, ords: seq<Orders>, k: nat, j: nat)
    requires QuietRun(ws, envs, ords) && k <= j < |envs|
    requires |Due(ws[k], envs[k])| > Room(ws[k].group.cached)
    ensures forall n :: n in Due(ws[k], envs[k]) ==> n in Due(ws[j], envs[j])
    ensures |Due(ws[j], envs[j])| > Room(ws[j].group.cached)
    ensures Room(ws[j].group.cached) <= Room(ws[k].group.cached)
  {
    hide Due;
    if j > k {
      var i := j - 1;
      StuckForever(ws, envs, ords, k, i);
      assert QuietStep(ws[i], envs[i], ords[i], ws[j]) && SameView(envs[i], envs[j]);
      assert QuietStep(ws[j], envs[j], ords[j], ws[j + 1]);
      StuckStep(ws[i], envs[i], ords[i], ws[j], envs[j]);
      RoomShrinks(ws[i], envs[i], ords[i], ws[j]);
      DueIsRequested(ws[i], envs[i], ords[i]);
      DueIsRequested(ws[j], envs[j], ords[j]);
      MoreDue(Due(ws[i], envs[i]), Due(ws[j], envs[j]));
      hide QuietStep;
      hide Room;
    }
  }

  /** Now or never: in a quiet run a node that is due is removed at some tick exactly when the nodes
      due with it do not exceed the room above the cloud group's minimum; and then at once. */
  lemma DueNowOrNever(ws: seq<World>, envs: seq<Input>, ords: seq<Orders>, k: nat, n: Node)
    requires QuietRun(ws, envs, ords) && k < |envs| && n in Due(ws[k], envs[k])
    ensures (exists j :: k < j < |ws| && n.name !in Names(ws[j].nodes)) <==>
            |Due(ws[k], envs[k])| <= ws[k].group.cached.target - ws[k].group.cached.minSize
    ensures |Due(ws[k], envs[k])| <= ws[k].group.cached.target - ws[k].group.cached.minSize ==>
            n.name !in Names(ws[k + 1].nodes)
  {
    hide Due;
    hide Tick;
    hide Quietly;
    assert QuietStep(ws[k], envs[k], ords[k], ws[k + 1]);
    if |Due(ws[k], envs[k])| <= Room(ws[k].group.cached) {
      DueGoes(ws[k], envs[k], ords[k], n);
    } else {
      forall j | k < j < |ws| ensures n.name in Names(ws[j].nodes) {
        StuckForever(ws, envs, ords, k, j - 1);
        assert QuietStep(ws[j - 1], envs[j - 1], ords[j - 1], ws[j]);
        DueStays(ws[j - 1], envs[j - 1], ords[j - 1], n);
      }
    }
    hide QuietStep;
  }
}
