/** Safety over whole runs: ticks interleaved with anything the environment may do. */
module Runs {
  import opened Cluster
  import opened Taints
  import opened Pods
  import opened Health
  import opened ScaleLocks
  import opened ControlLoop
  import opened TickTheorems
  import opened ScalingTheorems

  /** Between ticks nodes may join, leave, change readiness, be cordoned, annotated, force-tainted
      or re-listed in another order, and the cloud group may change or be refreshed. Only the
      controller writes its own taint: the environment may take it away but not forge it. */
  ghost predicate Environment(w: World, w': World) {
    && UniqueNames(w'.nodes)
    && (forall n' :: n' in w'.nodes ==> Marks(n'.taints) == [] || Inherited(w, n'))
    && w'.lock == w.lock && w'.tracker == w.tracker && w'.forceTracker == w.forceTracker && w'.cached == w.cached
  }

  ghost predicate Inherited(w: World, n': Node) {
    exists n :: n in w.nodes && n.name == n'.name && Marks(n'.taints) == Marks(n.taints)
  }

  datatype Step = EnvironmentStep | TickStep(env: Input, ord: Orders)

  ghost predicate Next(w: World, s: Step, w': World) {
    match s
    case EnvironmentStep => Environment(w, w')
    case TickStep(env, ord) => Valid(w, env, ord) && w' == Tick(w, env, ord).0
  }

  /** A run from a group that carries no escalator taint and has never scaled. The options may
      differ from tick to tick; the clock never goes back. */
  ghost predicate Run(ws: seq<World>, steps: seq<Step>) {
    && |ws| == |steps| + 1
    && UniqueNames(ws[0].nodes) && (forall n :: n in ws[0].nodes ==> Marks(n.taints) == [])
    && ws[0].lock.lockTime == ZERO_TIME && !ws[0].lock.isLocked && ws[0].lock.requested == 0
    && ws[0].lock.minimum <= MAX_DURATION
    && (forall k :: 0 <= k < |steps| ==> Next(ws[k], steps[k], ws[k + 1]))
    && forall i, j :: 0 <= i < j < |steps| && steps[i].TickStep? && steps[j].TickStep? ==>
       steps[i].env.now <= steps[j].env.now
  }

  ghost predicate MarkedIn(w: World, name: string) {
    exists n :: n in w.nodes && n.name == name && Tainted(n)
  }

  /** When the named node was last tainted: the clock of the last tick that found it untainted. */
  ghost function TaintedAt(ws: seq<World>, steps: seq<Step>, k: nat, name: string): nat
    requires k < |ws| == |steps| + 1
  {
    if k == 0 then 0
    else if MarkedIn(ws[k - 1], name) then TaintedAt(ws, steps, k - 1, name)
    else if steps[k - 1].TickStep? then steps[k - 1].env.now
    else 0
  }

  // ---------- the stamp of every tainted node ----------

  /** The node carries one escalator taint, stamped with the second of this instant. */
  ghost predicate StampedAt(n: Node, t: nat) {
    |Marks(n.taints)| == 1 && Marks(n.taints)[0].value == Decimal.Format(t / SECOND)
  }

  ghost predicate Stamped(ws: seq<World>, steps: seq<Step>, k: nat)
    requires k < |ws| == |steps| + 1
  {
    && UniqueNames(ws[k].nodes)
    && forall n :: n in ws[k].nodes ==> Marks(n.taints) == [] || StampedAt(n, TaintedAt(ws, steps, k, n.name))
  }

  /** A tick writes its stamp on untainted nodes only, and otherwise keeps or removes the taint. */
  lemma FateMarks(n: Node, env: Input, u: set<string>, t: set<string>, v: set<string>)
    requires |Marks(n.taints)| <= 1
    ensures var after := Marks(Fate(n, env, u, t, v).taints);
            || after == [] || after == Marks(n.taints)
            || (Marks(n.taints) == [] && after == [StampTaint(env.now, env.opts.taintEffect)])
  {
    hide TaintNode;
    hide UntaintNode;
    hide Marks;
    hide StampTaint;
    var a := if n.name in u then TaintNode(n, env.now, env.opts.taintEffect) else n;
    var b := if n.name in t then TaintNode(a, env.now, env.opts.taintEffect) else a;
    MarksOfTainted(n, env.now, env.opts.taintEffect);
    MarksOfTainted(a, env.now, env.opts.taintEffect);
    MarksOfUntainted(b);
  }

  lemma MarkedIffTainted(w: World, n: Node)
    requires UniqueNames(w.nodes) && n in w.nodes
    ensures MarkedIn(w, n.name) <==> Marks(n.taints) != []
  {
    if MarkedIn(w, n.name) {
      var m :| m in w.nodes && m.name == n.name && Tainted(m);
      UniqueByName(w.nodes, m, n);
    }
  }

  lemma TickKeepsStamps(ws: seq<World>, steps: seq<Step>, k: nat)
    requires Run(ws, steps) && k < |steps| && steps[k].TickStep? && Stamped(ws, steps, k)
    requires !steps[k].env.opts.dryMode
    ensures Stamped(ws, steps, k + 1)
  {
    hide Tick;
    hide Valid;
    var w, env, ord := ws[k], steps[k].env, steps[k].ord;
    assert Next(ws[k], steps[k], ws[k + 1]);
    hide Run;
    TickKeepsUnique(w, env, ord);
    TickFates(w, env, ord);
    var (w', r) := Tick(w, env, ord);
    hide Unhealthied;
    hide DeletedNames;
    hide Fate;
    forall n' | n' in w'.nodes
      ensures Marks(n'.taints) == [] || StampedAt(n', TaintedAt(ws, steps, k + 1, n'.name))
    {
      var n := Origin(w.nodes, env, Unhealthied(w, env), DeletedNames(r.forced) + DeletedNames(r.reaped),
        TaintedNames(r), UntaintedNames(r), n');
      FateMarks(n, env, Unhealthied(w, env), TaintedNames(r), UntaintedNames(r));
      FateName(n, env, Unhealthied(w, env), TaintedNames(r), UntaintedNames(r));
      hide TaintedAt;
      StampAfter(ws, steps, k, n, n');
    }
  }

  lemma FateName(n: Node, env: Input, u: set<string>, t: set<string>, v: set<string>)
    ensures Fate(n, env, u, t, v).name == n.name
  {
  }

  /** What was stamped stays stamped with its own instant; what is newly stamped, with this tick's. */
  lemma StampAfter(ws: seq<World>, steps: seq<Step>, k: nat, n: Node, n': Node)
    requires |ws| == |steps| + 1 && k < |steps| && steps[k].TickStep? && UniqueNames(ws[k].nodes)
    requires n in ws[k].nodes && n'.name == n.name
    requires Marks(n.taints) == [] || StampedAt(n, TaintedAt(ws, steps, k, n.name))
    requires var env, after := steps[k].env, Marks(n'.taints);
             || after == [] || after == Marks(n.taints)
             || (Marks(n.taints) == [] && after == [StampTaint(env.now, env.opts.taintEffect)])
    ensures Marks(n'.taints) == [] || StampedAt(n', TaintedAt(ws, steps, k + 1, n'.name))
  {
    MarkedIffTainted(ws[k], n);
    hide MarkedIn;
  }

  lemma EnvironmentKeepsStamps(ws: seq<World>, steps: seq<Step>, k: nat)
    requires Run(ws, steps) && k < |steps| && steps[k].EnvironmentStep? && Stamped(ws, steps, k)
    ensures Stamped(ws, steps, k + 1)
  {
    assert Next(ws[k], steps[k], ws[k + 1]);
    forall n' | n' in ws[k + 1].nodes
      ensures Marks(n'.taints) == [] || StampedAt(n', TaintedAt(ws, steps, k + 1, n'.name))
    {
      if Marks(n'.taints) != [] {
        assert Inherited(ws[k], n');
        var n :| n in ws[k].nodes && n.name == n'.name && Marks(n'.taints) == Marks(n.taints);
        MarkedIffTainted(ws[k], n);
      }
    }
  }

  lemma {:induction false} StampsHold(ws: seq<World>, steps: seq<Step>, k: nat)
    requires Run(ws, steps) && k < |ws|
    ensures Stamped(ws, steps, k)
  {
    hide Next;
    if k > 0 {
      hide Run;
      StampsHold(ws, steps, k - 1);
      if steps[k - 1].EnvironmentStep? {
        EnvironmentKeepsStamps(ws, steps, k - 1);
      } else if steps[k - 1].env.opts.dryMode {
        DryKeepsStamps(ws, steps, k - 1);
      } else {
        TickKeepsStamps(ws, steps, k - 1);
      }
    }
  }

  lemma DryKeepsStamps(ws: seq<World>, steps: seq<Step>, k: nat)
    requires Run(ws, steps) && k < |steps| && steps[k].TickStep? && Stamped(ws, steps, k)
    requires steps[k].env.opts.dryMode
    ensures Stamped(ws, steps, k + 1)
  {
    assert Next(ws[k], steps[k], ws[k + 1]);
    DryTickChangesNothing(ws[k], steps[k].env, steps[k].ord);
    hide Tick;
    forall n | n in ws[k].nodes ensures Marks(n.taints) == [] || StampedAt(n, TaintedAt(ws, steps, k + 1, n.name)) {
      MarkedIffTainted(ws[k], n);
    }
  }

  // ---------- grace periods ----------

  /** What must hold of a node that a tick asks to have deleted for its escalator taint. */
  ghost predicate MayBeReaped(n: Node, env: Input, taintedAt: nat, healthy: bool) {
    var stamp := taintedAt / SECOND * SECOND;
    && ToBeRemovedTime(n) == MarkedAt(stamp)
    && env.now - stamp > env.opts.softGrace
    && (!EmptyNode(env.pods, n.name) ==> env.now - stamp > env.opts.hardGrace)
    && ("atlassian.com/no-delete" in n.annotations ==> n.annotations["atlassian.com/no-delete"] == "")
    && (env.opts.unhealthyGrace > 0 && !healthy ==> Unhealthy(n, env.opts.unhealthyGrace, env.now))
  }

  lemma ReadStamp(n: Node, t: nat)
    requires StampedAt(n, t)
    ensures ToBeRemovedTime(n) == MarkedAt(t / SECOND * SECOND)
  {
    Decimal.ParseFormat(t / SECOND);
  }

  lemma ReapedWereReapable(w: World, env: Input, ord: Orders, n: Node)
    requires Valid(w, env, ord) && n in Tick(w, env, ord).1.reaped.request
    ensures n in w.nodes && !env.opts.dryMode && Reapable(env, n, Tick(w, env, ord).1.healthy)
    ensures Classify(ModeOf(Prepared(w, env), env.opts), n) == IsTainted
  {
    TickAccounts(w, env, ord);
    hide Tick;
    hide Prepared;
    hide Reapable;
    var r := Tick(w, env, ord).1;
    assert n in SplitOf(w, env).tainted;
  }

  /** Grace-period safety, over every run: a node that a tick asks to have deleted for its taint
      carries the stamp of its latest tainting, and that stamp is older than the soft period;
      older than the hard period if pods other than daemonset pods are listed on the node. The
      node carries no no-delete annotation, and is unhealthy itself if the group was judged so. */
  lemma GracePeriodSafety(ws: seq<World>, steps: seq<Step>, k: nat, n: Node)
    requires Run(ws, steps) && k < |steps| && steps[k].TickStep?
    requires Valid(ws[k], steps[k].env, steps[k].ord)
    requires n in Tick(ws[k], steps[k].env, steps[k].ord).1.reaped.request
    ensures n in ws[k].nodes && !steps[k].env.opts.dryMode
    ensures MayBeReaped(n, steps[k].env, TaintedAt(ws, steps, k, n.name),
            Tick(ws[k], steps[k].env, steps[k].ord).1.healthy)
  {
    var w, env, ord := ws[k], steps[k].env, steps[k].ord;
    ReapedWereReapable(w, env, ord, n);
    StampsHold(ws, steps, k);
    hide Tick;
    hide Valid;
    hide Run;
    assert Tainted(n);
    ReadStamp(n, TaintedAt(ws, steps, k, n.name));
  }

  lemma PartsAreListed(w: World, env: Input)
    requires !env.opts.dryMode
    ensures forall n :: n in SplitOf(w, env).forced ==> n in w.nodes && HasTaint(n, TO_BE_FORCE_REMOVED)
    ensures forall n :: n in SplitOf(w, env).tainted ==> n in w.nodes
  {
    hide Prepared;
  }

  lemma DeletedIsRequested(w: World, r: Removal, n: Node)
    requires UniqueNames(w.nodes) && n in w.nodes && r.deleted <= |r.request|
    requires forall m :: m in r.request ==> m in w.nodes
    ensures n.name in DeletedNames(r) ==> n in r.request
  {
    if n.name in DeletedNames(r) {
      var m :| m in r.request[..r.deleted] && m.name == n.name;
      UniqueByName(w.nodes, m, n);
    }
  }

  /** Nodes leave the API server in a tick only through the two removal passes; through the force
      pass only if they are force-tainted and hold no pods other than daemonset pods. */
  lemma OnlyRequestedLeave(w: World, env: Input, ord: Orders)
    requires Valid(w, env, ord) && !env.opts.dryMode
    ensures var (w', r) := Tick(w, env, ord);
            forall n :: n in w.nodes && n.name !in Names(w'.nodes) ==>
              || (n in r.forced.request && HasTaint(n, TO_BE_FORCE_REMOVED) && EmptyNode(env.pods, n.name))
              || n in r.reaped.request
  {
    hide Tick;
    hide SplitOf;
    assert UniqueNames(w.nodes);
    TickFates(w, env, ord);
    TickAccounts(w, env, ord);
    PartsAreListed(w, env);
    hide Valid;
    hide Candidates;
    var (w', r) := Tick(w, env, ord);
    var gone := DeletedNames(r.forced) + DeletedNames(r.reaped);
    forall n | n in w.nodes && n.name !in Names(w'.nodes)
      ensures (n in r.forced.request && HasTaint(n, TO_BE_FORCE_REMOVED) && EmptyNode(env.pods, n.name))
              || n in r.reaped.request
    {
      hide HasTaint;
      DeletedIsRequested(w, r.forced, n);
      DeletedIsRequested(w, r.reaped, n);
      hide DeletedNames;
      FateName(n, env, Unhealthied(w, env), TaintedNames(r), UntaintedNames(r));
      if n.name !in gone {
        Survives(w.nodes, env, Unhealthied(w, env), gone, TaintedNames(r), UntaintedNames(r), n);
      }
    }
  }

  /** In real time: the stamp drops the fraction of a second, so at least the period less that
      fraction has passed since the tainting. */
  lemma ElapsedSinceTainting(ws: seq<World>, steps: seq<Step>, k: nat, n: Node)
    requires Run(ws, steps) && k < |steps| && steps[k].TickStep?
    requires Valid(ws[k], steps[k].env, steps[k].ord)
    requires n in Tick(ws[k], steps[k].env, steps[k].ord).1.reaped.request
    ensures var env, t := steps[k].env, TaintedAt(ws, steps, k, n.name);
            && env.now - t > env.opts.softGrace - t % SECOND
            && (!EmptyNode(env.pods, n.name) ==> env.now - t > env.opts.hardGrace - t % SECOND)
  {
    GracePeriodSafety(ws, steps, k, n);
    hide Tick;
    hide Run;
  }

  /** Exactly when a node tainted at `t` is due: both periods are shortened by the fraction of a
      second that the stamp drops, and by nothing else; in an unhealthy group only a sick node is. */
  lemma DueExactly(n: Node, t: nat, effect: string, env: Input, healthyToo: bool)
    requires !Tainted(n)
    ensures Reapable(env, TaintNode(n, t, effect), healthyToo) <==>
            && (env.opts.unhealthyGrace > 0 && !healthyToo ==> Unhealthy(n, env.opts.unhealthyGrace, env.now))
            && ("atlassian.com/no-delete" in n.annotations ==> n.annotations["atlassian.com/no-delete"] == "")
            && env.now - t > env.opts.softGrace - t % SECOND
            && (EmptyNode(env.pods, n.name) || env.now - t > env.opts.hardGrace - t % SECOND)
  {
    UntaintUndoesTaint(n, t, effect);
    hide EmptyNode;
    hide Tainted;
  }

  /** So the configured period is not always waited for in full: one second of grace, and a node
      tainted just before a full second is due two nanoseconds after it. */
  lemma GraceCutShort(n: Node, effect: string, env: Input)
    requires !Tainted(n) && !SafeFromDeletion(n) && EmptyNode(env.pods, n.name)
    requires env.opts.softGrace == SECOND && env.now == SECOND + 1
    ensures Reapable(env, TaintNode(n, SECOND - 1, effect), true) && env.now - (SECOND - 1) == 2
  {
    DueExactly(n, SECOND - 1, effect, env, true);
    hide Reapable;
  }

  // ---------- the scale lock ----------

  /** What step `k` of a run means for the lock: its clock, the nodes it added to the cloud group
      (in earnest or in dry mode), and whether it did so below the group's minimum. */
  ghost function LockEvent(ws: seq<World>, steps: seq<Step>, k: nat): Event
    requires Run(ws, steps) && k < |steps|
  {
    match steps[k]
    case EnvironmentStep => NoTick
    case TickStep(env, ord) =>
      assert Next(ws[k], steps[k], ws[k + 1]);
      var r := Tick(ws[k], env, ord).1;
      Ticked(env.now, r.up.added, r.outcome == BelowMinimum)
  }

  ghost function Locks(ws: seq<World>): seq<Lock> {
    seq(|ws|, k requires 0 <= k < |ws| => ws[k].lock)
  }

  ghost function Events(ws: seq<World>, steps: seq<Step>): seq<Event>
    requires Run(ws, steps)
  {
    seq(|steps|, k requires 0 <= k < |steps| => LockEvent(ws, steps, k))
  }

  /** Every run is a run of the lock. */
  lemma RunOfLock(ws: seq<World>, steps: seq<Step>)
    requires Run(ws, steps)
    ensures LockRun(Locks(ws), Events(ws, steps))
  {
    var es := Events(ws, steps);
    forall k | 0 <= k < |steps| ensures LockMove(Locks(ws)[k], es[k], Locks(ws)[k + 1]) {
      assert Next(ws[k], steps[k], ws[k + 1]);
      if steps[k].TickStep? {
        TickLock(ws[k], steps[k].env, steps[k].ord);
      }
    }
    hide Tick;
    hide Next;
  }

  /** Scale-lock history, over every run: when a tick finds the lock held, the lock is locked with
      the node count of the last increase; a lock that is not locked has a zero count; and an
      increase made past the lock check comes no sooner than the cool-down after every earlier
      increase, whichever path made it. */
  lemma ScaleLockHistory(ws: seq<World>, steps: seq<Step>, k: nat)
    requires Run(ws, steps) && k < |steps| && steps[k].TickStep?
    requires Valid(ws[k], steps[k].env, steps[k].ord)
    ensures var l, now := ws[k].lock, steps[k].env.now;
            var r := Tick(ws[k], steps[k].env, steps[k].ord).1;
            && (!l.isLocked ==> l.requested == 0)
            && (Held(l, now) ==> l.isLocked && LastIncrease(Events(ws, steps), k).Some? &&
                                 l.requested == Events(ws, steps)[LastIncrease(Events(ws, steps), k).value].added)
            && (r.up.added > 0 && r.outcome != BelowMinimum ==>
                forall j :: 0 <= j < k && Events(ws, steps)[j].Ticked? && Events(ws, steps)[j].added > 0 ==>
                  now - steps[j].env.now >= l.minimum)
  {
    hide Tick;
    hide Valid;
    hide Next;
    RunOfLock(ws, steps);
    var ls, es := Locks(ws), Events(ws, steps);
    hide Run;
    LockIsHistory(ls, es, k);
    TickLock(ws[k], steps[k].env, steps[k].ord);
    HeldMeansRecent(ls, es, k);
  }
}
