/** Dry mode over whole runs: it changes nothing outside the controller, and its tracker stands
    for the taints that a real controller would have written. */
module DryRuns {
  import opened Cluster
  import opened Order
  import opened Health
  import opened ControlLoop
  import opened TickTheorems
  import opened ScalingTheorems
  import opened Plans
  import opened Runs

  // ---------- the tracker ----------

  ghost predicate NoRepeats(s: seq<string>) {
    forall i, j :: 0 <= i < j < |s| ==> s[i] != s[j]
  }

  lemma {:induction false} RemoveFirstExact(tracker: seq<string>, name: string)
    requires NoRepeats(tracker)
    ensures var r := RemoveFirst(tracker, name);
            NoRepeats(r) && forall x :: x in r <==> x in tracker && x != name
  {
    if tracker != [] {
      RemoveFirstExact(tracker[1..], name);
      assert tracker == [tracker[0]] + tracker[1..];
      assert tracker[0] !in tracker[1..];
    }
  }

  /** Forgetting names takes exactly those off a tracker without repeats. */
  lemma {:induction false} ForgetExact(tracker: seq<string>, ns: seq<Node>)
    requires NoRepeats(tracker)
    ensures var r := Forget(tracker, ns);
            NoRepeats(r) && forall x :: x in r <==> x in tracker && x !in Names(ns)
  {
    if ns != [] {
      var init, last := ns[..|ns| - 1], ns[|ns| - 1];
      ForgetExact(tracker, init);
      RemoveFirstExact(Forget(tracker, init), last.name);
      assert ns == init + [last];
      assert Names(ns) == Names(init) + {last.name};
    }
  }

  lemma AppendRepeats(tracker: seq<string>, picked: seq<Node>)
    requires NoRepeats(tracker) && UniqueNames(picked)
    ensures NoRepeats(tracker + NameList(picked)) <==> forall n :: n in picked ==> n.name !in tracker
  {
    var after := tracker + NameList(picked);
    forall n | n in picked && n.name in tracker ensures !NoRepeats(after) {
      var j :| 0 <= j < |picked| && picked[j] == n;
      var t :| 0 <= t < |tracker| && tracker[t] == n.name;
      assert after[t] == after[|tracker| + j];
    }
    if forall n :: n in picked ==> n.name !in tracker {
      forall i, j | 0 <= i < j < |after| ensures after[i] != after[j] {
        if i < |tracker| <= j {
          assert picked[j - |tracker|] in picked;
        }
      }
    }
  }

  /** Dry tainting appends names that are not tracked, and dry untainting drops names: neither
      brings a repeat into the tracker it starts from. */
  lemma TrackerKeepsNoRepeats(tracker: seq<string>, env: Input, s: Split, taints: seq<nat>, untaints: seq<nat>)
    requires NoRepeats(tracker) && InRange(taints, |s.untainted|) && InRange(untaints, |s.tainted|)
    requires UniqueNames(s.untainted) && Distinct(taints)
    requires forall n :: n in s.untainted ==> n.name !in tracker
    ensures NoRepeats(TrackerAfter(tracker, env, s, taints, untaints))
  {
    ForgetExact(tracker, At(s.tainted, untaints));
    AtUnique(s.untainted, taints);
    hide Forget;
    forall n | n in At(s.untainted, taints) ensures n in s.untainted {}
    AppendRepeats(Forget(tracker, At(s.tainted, untaints)), At(s.untainted, taints));
    hide NoRepeats;
  }

  lemma UntrackedUntainted(v: World, env: Input)
    requires env.opts.dryMode && UniqueNames(v.nodes)
    ensures UniqueNames(SplitOf(v, env).untainted)
    ensures forall n :: n in SplitOf(v, env).untainted ==> n.name !in Prepared(v, env).tracker
  {
    hide Prepared;
    C.SelectUnique(v.nodes, ModeOf(Prepared(v, env), env.opts), IsUntainted);
    hide UniqueNames;
  }

  lemma NothingPlannedUnlisted(v: World, env: Input, ord: Orders)
    requires Valid(v, env, ord) && !env.listed
    ensures ToTaint(v, env, ord) == [] && ToUntaint(v, env, ord) == []
  {
    NoGrowth(v, env, ord);
  }

  /** A dry tick adds no repeat to what the unhealthy pass leaves. */
  lemma DryTickTracker(v: World, env: Input, ord: Orders)
    requires Valid(v, env, ord) && env.opts.dryMode && NoRepeats(Start(v, env).tracker)
    ensures NoRepeats(Tick(v, env, ord).0.tracker)
  {
    hide Tick;
    hide NoRepeats;
    TickIsPlanned(v, env, ord);
    TaintsDistinct(v, env, ord);
    UntrackedUntainted(v, env);
    if env.listed {
      hide SplitOf;
      hide Prepared;
      hide Valid;
      hide ToTaint;
      hide ToUntaint;
      hide Asked;
      hide ForceRequest;
      hide ReapRequest;
      TrackerKeepsNoRepeats(Start(v, env).tracker, env, SplitOf(v, env), ToTaint(v, env, ord), ToUntaint(v, env, ord));
    } else {
      NothingPlannedUnlisted(v, env, ord);
      TrackerSame(v.tracker, env, SplitOf(v, env));
    }
  }

  lemma TaintsDistinct(v: World, env: Input, ord: Orders)
    requires Valid(v, env, ord)
    ensures Distinct(ToTaint(v, env, ord))
  {
    TickSeparates(v, env, ord);
    TickIsPlanned(v, env, ord);
    hide Tick;
    hide ToTaint;
    hide Valid;
    hide SplitOf;
  }

  // ---------- the tracker over every run ----------

  lemma StartTracker(w: World, env: Input)
    requires !env.opts.dryMode || env.opts.unhealthyGrace <= 0 || !env.listed
    ensures Start(w, env).tracker == w.tracker
  {
    hide UnhealthyPicks;
  }

  /** A real tick leaves the tracker alone. */
  lemma RealTickTracker(w: World, env: Input, ord: Orders)
    requires Valid(w, env, ord) && !env.opts.dryMode
    ensures Tick(w, env, ord).0.tracker == w.tracker
  {
    hide Tick;
    TickIsPlanned(w, env, ord);
    StartTracker(w, env);
    hide Start;
    hide PlanOf;
    hide Valid;
  }

  /** Ticks and environment steps, from any world. */
  ghost predicate History(ws: seq<World>, steps: seq<Step>) {
    |ws| == |steps| + 1 && forall k :: 0 <= k < |steps| ==> Next(ws[k], steps[k], ws[k + 1])
  }

  ghost predicate DryWithoutHealth(steps: seq<Step>) {
    forall k :: 0 <= k < |steps| && steps[k].TickStep? && steps[k].env.opts.dryMode ==>
      steps[k].env.opts.unhealthyGrace <= 0
  }

  /** Over every run, whatever the nodes, the failures and the environment do: as long as dry ticks
      do without health checks, the tracker stays free of repeats. */
  lemma {:induction false} TrackerNeverRepeats(ws: seq<World>, steps: seq<Step>, k: nat)
    requires History(ws, steps) && DryWithoutHealth(steps) && NoRepeats(ws[0].tracker) && k < |ws|
    ensures NoRepeats(ws[k].tracker)
  {
    hide NoRepeats;
    if k > 0 {
      TrackerNeverRepeats(ws, steps, k - 1);
      var w, step := ws[k - 1], steps[k - 1];
      assert Next(w, step, ws[k]);
      hide Tick;
      if step.TickStep? {
        if step.env.opts.dryMode {
          StartTracker(w, step.env);
          DryTickTracker(w, step.env, step.ord);
        } else {
          RealTickTracker(w, step.env, step.ord);
        }
      }
      hide Valid;
    }
  }

  /** Over every run: no dry tick changes a node object or the cloud group. */
  lemma DryRunChangesNothing(ws: seq<World>, steps: seq<Step>, k: nat)
    requires History(ws, steps) && k < |steps| && steps[k].TickStep? && steps[k].env.opts.dryMode
    ensures ws[k + 1].nodes == ws[k].nodes && ws[k + 1].group == ws[k].group
  {
    assert Next(ws[k], steps[k], ws[k + 1]);
    DryTickChangesNothing(ws[k], steps[k].env, steps[k].ord);
    hide Tick;
    hide Valid;
  }

  // ---------- the tracker with health checks ----------

  lemma PassTracks(v: World, env: Input)
    requires env.opts.dryMode && env.opts.unhealthyGrace > 0
    ensures Prepared(v, env).tracker ==
            v.tracker + NameList(At(v.nodes, UnhealthyAt(v.nodes, env.opts.unhealthyGrace, env.now)))
  {
    var at := UnhealthyAt(v.nodes, env.opts.unhealthyGrace, env.now);
    PicksAll(at, v.nodes, {}, |at|);
    assert UnhealthyPicks(v, env) == at;
    hide UnhealthyAt;
    hide Picks;
  }

  lemma PickedUnhealthy(ns: seq<Node>, grace: int, now: int, n: Node)
    ensures n in At(ns, UnhealthyAt(ns, grace, now)) <==> n in ns && Unhealthy(n, grace, now)
  {
    var at := UnhealthyAt(ns, grace, now);
    if n in ns && Unhealthy(n, grace, now) {
      var i :| 0 <= i < |ns| && ns[i] == n;
      assert i in at;
      var j :| 0 <= j < |at| && at[j] == i;
      assert At(ns, at)[j] == n;
    }
    if n in At(ns, at) {
      var j :| 0 <= j < |at| && At(ns, at)[j] == n;
      assert at[j] in at;
    }
  }

  lemma {:induction false} RemoveFirstCount(tracker: seq<string>, name: string, x: string)
    requires name != x
    ensures multiset(RemoveFirst(tracker, name))[x] == multiset(tracker)[x]
  {
    if tracker != [] {
      RemoveFirstCount(tracker[1..], name, x);
      assert tracker == [tracker[0]] + tracker[1..];
    }
  }

  lemma {:induction false} ForgetCount(tracker: seq<string>, ns: seq<Node>, x: string)
    requires x !in Names(ns)
    ensures multiset(Forget(tracker, ns))[x] == multiset(tracker)[x]
  {
    if ns != [] {
      var init, last := ns[..|ns| - 1], ns[|ns| - 1];
      assert last in ns && Names(init) <= Names(ns);
      ForgetCount(tracker, init, x);
      RemoveFirstCount(Forget(tracker, init), last.name, x);
    }
  }

  lemma {:induction false} CountedOnce(s: seq<string>, x: string)
    requires NoRepeats(s)
    ensures multiset(s)[x] <= 1
  {
    if s != [] {
      CountedOnce(s[1..], x);
      assert s == [s[0]] + s[1..];
      assert s[0] !in s[1..];
    }
  }

  /** A name that is tracked twice and not untainted is still tracked twice. */
  lemma RepeatStays(tracker: seq<string>, env: Input, s: Split, taints: seq<nat>, untaints: seq<nat>, x: string)
    requires env.opts.dryMode && InRange(taints, |s.untainted|) && InRange(untaints, |s.tainted|)
    requires multiset(tracker)[x] >= 2 && x !in Names(At(s.tainted, untaints))
    ensures !NoRepeats(TrackerAfter(tracker, env, s, taints, untaints))
  {
    ForgetCount(tracker, At(s.tainted, untaints), x);
    var after := TrackerAfter(tracker, env, s, taints, untaints);
    if NoRepeats(after) {
      CountedOnce(after, x);
    }
    hide Forget;
  }

  /** No unhealthy node is among those that a tick untaints. */
  lemma SickNotUntainted(v: World, env: Input, ord: Orders, n: Node)
    requires Valid(v, env, ord) && env.opts.unhealthyGrace > 0
    requires n in v.nodes && Unhealthy(n, env.opts.unhealthyGrace, env.now)
    ensures InRange(ToUntaint(v, env, ord), |SplitOf(v, env).tainted|)
    ensures n.name !in Names(At(SplitOf(v, env).tainted, ToUntaint(v, env, ord)))
  {
    ValidFacts(v, env, ord);
    SplitListed(v, env);
    TaintedUnique(v, env);
    hide Prepared;
    hide SplitOf;
    hide Unhealthy;
    hide Valid;
    hide Growth;
    var p, tainted, g := Prepared(v, env), SplitOf(v, env).tainted, Growth(v, env, ord);
    PicksSound(ord.newest, tainted, UntaintSkips(p, env, tainted), g);
    if g > 0 {
      UntaintBound(p, env, ord.newest, tainted, g);
      var picks := ToUntaint(v, env, ord);
      hide UntaintPicks;
      forall m | m in At(tainted, picks) ensures m.name != n.name {
        var i :| 0 <= i < |picks| && At(tainted, picks)[i] == m;
        assert picks[i] in picks && tainted[picks[i]] in tainted;
        if m.name == n.name {
          UniqueByName(v.nodes, m, n);
        }
      }
    }
  }

  lemma TaintedUnique(v: World, env: Input)
    requires UniqueNames(v.nodes)
    ensures UniqueNames(SplitOf(v, env).tainted)
  {
    hide Prepared;
    C.SelectUnique(v.nodes, ModeOf(Prepared(v, env), env.opts), IsTainted);
  }

  lemma SickTrackedTwice(v: World, env: Input, n: Node)
    requires env.opts.dryMode && env.opts.unhealthyGrace > 0
    requires n in v.nodes && Unhealthy(n, env.opts.unhealthyGrace, env.now) && n.name in v.tracker
    ensures multiset(Prepared(v, env).tracker)[n.name] >= 2
  {
    PassTracks(v, env);
    PickedUnhealthy(v.nodes, env.opts.unhealthyGrace, env.now, n);
    hide Prepared;
    hide UnhealthyAt;
    var picked := At(v.nodes, UnhealthyAt(v.nodes, env.opts.unhealthyGrace, env.now));
    assert n.name in NameList(picked) by {
      var i :| 0 <= i < |picked| && picked[i] == n;
      assert NameList(picked)[i] == n.name;
    }
    assert multiset(v.tracker + NameList(picked)) == multiset(v.tracker) + multiset(NameList(picked));
  }

  lemma PassKeepsNoRepeats(v: World, env: Input)
    requires env.opts.dryMode && env.opts.unhealthyGrace > 0 && UniqueNames(v.nodes) && NoRepeats(v.tracker)
    requires forall n :: n in v.nodes && Unhealthy(n, env.opts.unhealthyGrace, env.now) ==> n.name !in v.tracker
    ensures NoRepeats(Prepared(v, env).tracker)
  {
    var at := UnhealthyAt(v.nodes, env.opts.unhealthyGrace, env.now);
    PassTracks(v, env);
    AtUnique(v.nodes, at);
    forall n | n in At(v.nodes, at) ensures n.name !in v.tracker {
      PickedUnhealthy(v.nodes, env.opts.unhealthyGrace, env.now, n);
    }
    AppendRepeats(v.tracker, At(v.nodes, at));
    hide Prepared;
    hide Unhealthy;
    hide NoRepeats;
  }

  /** With health checks a dry tick tracks every unhealthy node anew, and untaints none of them: its
      tracker ends free of repeats exactly when no unhealthy node is tracked already. */
  lemma UnhealthyRepeats(v: World, env: Input, ord: Orders)
    requires Valid(v, env, ord) && env.opts.dryMode && env.opts.unhealthyGrace > 0 && NoRepeats(v.tracker)
    ensures NoRepeats(Tick(v, env, ord).0.tracker) <==>
            (env.listed ==> forall n :: n in v.nodes && Unhealthy(n, env.opts.unhealthyGrace, env.now) ==>
              n.name !in v.tracker)
  {
    hide Tick;
    hide NoRepeats;
    hide Unhealthy;
    hide Prepared;
    hide SplitOf;
    assert UniqueNames(v.nodes);
    if env.listed && exists n :: n in v.nodes && Unhealthy(n, env.opts.unhealthyGrace, env.now) && n.name in v.tracker {
      var n :| n in v.nodes && Unhealthy(n, env.opts.unhealthyGrace, env.now) && n.name in v.tracker;
      SickTrackedTwice(v, env, n);
      SickNotUntainted(v, env, ord, n);
      TickIsPlanned(v, env, ord);
      hide Valid;
      hide ToTaint;
      hide ToUntaint;
      RepeatStays(Start(v, env).tracker, env, SplitOf(v, env), ToTaint(v, env, ord), ToUntaint(v, env, ord), n.name);
    } else {
      if env.listed {
        PassKeepsNoRepeats(v, env);
      } else {
        StartTracker(v, env);
      }
      DryTickTracker(v, env, ord);
    }
  }
}
