/** What runs and ticks do in the terms of the objects themselves: instants, annotations, provider
    ids, taints and conditions, written out. */
module Meanings {
  import opened Cluster
  import opened Pods
  import opened Decision
  import opened ScaleLocks
  import opened Cloud
  import opened ControlLoop
  import opened TickTheorems
  import opened Plans
  import opened CloudTheorems
  import opened Runs

  // ---------- the lock opens ----------

  /** Every increase before step `k` is at least the cool-down ago. */
  ghost predicate CooledDown(ws: seq<World>, steps: seq<Step>, k: nat, now: int, minimum: int)
    requires Run(ws, steps) && k <= |steps|
  {
    forall j :: 0 <= j < k && steps[j].TickStep? && Events(ws, steps)[j].added > 0 ==> now - steps[j].env.now >= minimum
  }

  /** What the lock's instant is, over every run. */
  lemma LockInstant(ws: seq<World>, steps: seq<Step>, k: nat)
    requires Run(ws, steps) && k < |steps| && steps[k].TickStep?
    ensures var l, now := ws[k].lock, steps[k].env.now;
            && (!l.isLocked ==> l.requested == 0)
            && (now - l.lockTime < l.minimum <==> !CooledDown(ws, steps, k, now, l.minimum))
  {
    hide Next;
    RunOfLock(ws, steps);
    EventClocks(ws, steps);
    hide Events;
    hide LockRun;
    CoolDownMeans(Locks(ws), Events(ws, steps), k);
  }

  lemma EventClocks(ws: seq<World>, steps: seq<Step>)
    requires Run(ws, steps)
    ensures var es := Events(ws, steps);
            && |es| == |steps|
            && forall j :: 0 <= j < |steps| ==>
              (es[j].Ticked? <==> steps[j].TickStep?) && (es[j].Ticked? ==> es[j].now == steps[j].env.now)
  {
    hide Next;
    hide Tick;
  }

  /** A tick that ends still locked has an increase less than the cool-down ago. */
  lemma StillLockedMeans(ws: seq<World>, steps: seq<Step>, k: nat)
    requires Run(ws, steps) && k < |steps| && steps[k].TickStep?
    requires Valid(ws[k], steps[k].env, steps[k].ord)
    requires Tick(ws[k], steps[k].env, steps[k].ord).1.outcome == StillLocked
    ensures exists j :: 0 <= j < k && steps[j].TickStep? && Events(ws, steps)[j].added > 0
                        && steps[k].env.now - steps[j].env.now < ws[k].lock.minimum
  {
    hide Tick;
    hide Next;
    hide Events;
    assert |ws| == |steps| + 1;
    LockInstant(ws, steps, k);
    TickIsPlanned(ws[k], steps[k].env, steps[k].ord);
    hide Valid;
    hide Follows;
    hide UsageOf;
    hide Decided;
    hide Effective;
    hide SplitOf;
  }

  /** A lock that is not held by the clock is found open: a listed tick that is not below the minimum
      and has usable capacity does not wait. */
  lemma GoesPastLock(w: World, env: Input, ord: Orders)
    requires Valid(w, env, ord) && env.listed && (w.nodes != [] || env.pods != [])
    requires |SplitOf(w, env).untainted| >= env.opts.minNodes
    requires var u := SplitOf(w, env).untainted; u == [] || (Capacity(u).cpu != 0 && Capacity(u).memory != 0)
    requires env.now - w.lock.lockTime >= w.lock.minimum
    ensures var (w', r) := Tick(w, env, ord);
            && r.outcome != StillLocked
            && (r.up.added > 0 ==> w'.lock.isLocked && w'.lock.requested == r.up.added && w'.lock.lockTime == env.now)
            && (r.up.added == 0 ==> !w'.lock.isLocked && (w.lock.isLocked ==> w'.lock.requested == 0)
                                    && (!w.lock.isLocked ==> w'.lock.requested == w.lock.requested))
  {
    hide Tick;
    hide SplitOf;
    hide Capacity;
    UsageMeans(env.pods, SplitOf(w, env).untainted);
    SelectedAtMost(w, env);
    TickIsPlanned(w, env, ord);
    AskedFits(w, env, ord);
    hide UsageOf;
    hide Valid;
    hide Decided;
    hide Effective;
    hide Asked;
    hide ToTaint;
    hide ToUntaint;
    hide ForceRequest;
    hide ReapRequest;
    hide AfterRemovals;
    hide AfterAsking;
    hide TrackerAfter;
    hide Prepared;
  }

  /** Over every run: a tick that comes no sooner than the cool-down after every earlier increase goes
      past the lock, and leaves it released, or taken anew by an increase of its own. */
  lemma LockOpens(ws: seq<World>, steps: seq<Step>, k: nat)
    requires Run(ws, steps) && k < |steps| && steps[k].TickStep?
    requires var w, env := ws[k], steps[k].env;
             var u := SplitOf(w, env).untainted;
             && Valid(w, env, steps[k].ord) && env.listed && (w.nodes != [] || env.pods != [])
                && |u| >= env.opts.minNodes
             && (u == [] || (Capacity(u).cpu != 0 && Capacity(u).memory != 0))
    requires forall j :: 0 <= j < k && steps[j].TickStep? && Events(ws, steps)[j].added > 0 ==>
               steps[k].env.now - steps[j].env.now >= ws[k].lock.minimum
    ensures var l, r := ws[k + 1].lock, Tick(ws[k], steps[k].env, steps[k].ord).1;
            && r.outcome != StillLocked
            && (r.up.added > 0 ==> l.isLocked && l.requested == r.up.added && l.lockTime == steps[k].env.now)
            && (r.up.added == 0 ==> !l.isLocked && l.requested == 0)
  {
    hide Tick;
    hide SplitOf;
    hide Capacity;
    hide Events;
    LockInstant(ws, steps, k);
    assert Next(ws[k], steps[k], ws[k + 1]);
    hide Run;
    GoesPastLock(ws[k], steps[k].env, steps[k].ord);
    AddsNothingNegative(ws[k], steps[k].env, steps[k].ord);
    hide Valid;
  }

  lemma AddsNothingNegative(w: World, env: Input, ord: Orders)
    requires Valid(w, env, ord)
    ensures Tick(w, env, ord).1.up.added >= 0
  {
    hide Tick;
    TickCapacity(w, env, ord);
    AskedFits(w, env, ord);
    hide Asked;
    hide Valid;
  }

  // ---------- the annotation ----------

  /** A node with a no-delete annotation loses its object in no tick except through the force pass. */
  lemma AnnotatedStays(w: World, env: Input, ord: Orders, n: Node)
    requires Valid(w, env, ord) && n in w.nodes
    requires "atlassian.com/no-delete" in n.annotations && n.annotations["atlassian.com/no-delete"] != ""
    ensures var (w', r) := Tick(w, env, ord);
            && n !in r.reaped.request
            && (n.name in Names(w'.nodes) || n in r.forced.request)
  {
    hide Tick;
    if env.opts.dryMode {
      DryTickChangesNothing(w, env, ord);
      assert n.name in Names(w.nodes);
    } else {
      OnlyRequestedLeave(w, env, ord);
    }
    if n in Tick(w, env, ord).1.reaped.request {
      ReapedWereReapable(w, env, ord, n);
    }
    hide Valid;
  }

  /** Over every run of ticks, too: with the annotation it is never requested for its taint. */
  lemma AnnotatedNeverReaped(ws: seq<World>, steps: seq<Step>, k: nat, n: Node)
    requires Run(ws, steps) && k < |steps| && steps[k].TickStep? && n in ws[k].nodes
    requires "atlassian.com/no-delete" in n.annotations && n.annotations["atlassian.com/no-delete"] != ""
    ensures Valid(ws[k], steps[k].env, steps[k].ord)
    ensures n !in Tick(ws[k], steps[k].env, steps[k].ord).1.reaped.request
    ensures n.name in Names(ws[k + 1].nodes) || n in Tick(ws[k], steps[k].env, steps[k].ord).1.forced.request
  {
    hide Tick;
    assert Next(ws[k], steps[k], ws[k + 1]);
    hide Run;
    AnnotatedStays(ws[k], steps[k].env, steps[k].ord, n);
    hide Valid;
  }

  // ---------- the instances ----------

  /** The id of the first cached instance whose provider id is the node's. */
  ghost predicate InstanceOf(d: Description, n: Node, id: string) {
    exists i :: 0 <= i < |d.instances| && d.instances[i].id == id
                && "aws:///" + d.instances[i].zone + "/" + d.instances[i].id == n.providerId
                && forall j :: 0 <= j < i ==> "aws:///" + d.instances[j].zone + "/" + d.instances[j].id != n.providerId
  }

  lemma InstanceMeans(d: Description, n: Node, id: string)
    requires Belongs(d, n)
    ensures InstanceOf(d, n, id) <==> InstanceFor(d, n) == id
  {
    BelongsIsFound(d, n);
    var i := FirstWith(d.instances, n.providerId);
    assert forall j :: 0 <= j < |d.instances| ==>
             ProviderId(d.instances[j]) == "aws:///" + d.instances[j].zone + "/" + d.instances[j].id;
    assert InstanceFor(d, n) == d.instances[i].id;
    hide FirstWith;
  }

  ghost predicate TerminatedIn(r: Removal, n: Node) {
    r.terminated <= |r.request| && n in r.request[..r.terminated]
  }

  lemma TerminatedBelongs(d: Description, env: Input, r: Removal, n: Node)
    requires TwoStage(d, env, r) && TerminatedIn(r, n)
    ensures Belongs(d, n)
  {
    var i :| 0 <= i < r.terminated && r.request[..r.terminated][i] == n;
    assert r.request[i] == n;
    hide Belongs;
  }

  lemma VictimIs(d: Description, env: Input, r: Removal, id: string)
    requires TwoStage(d, env, r) && id in Victims(d, r)
    ensures exists n :: TerminatedIn(r, n) && InstanceOf(d, n, id)
  {
    hide InstanceOf;
    hide InstanceFor;
    hide Belongs;
    var n :| n in r.request[..r.terminated] && InstanceFor(d, n) == id;
    TerminatedBelongs(d, env, r, n);
    InstanceMeans(d, n, id);
    assert TerminatedIn(r, n);
  }

  /** An instance that a tick takes out of the group is that of a node which one of the two passes
      terminated, by the node's provider id. */
  lemma InstancesLeave(w: World, env: Input, ord: Orders, id: string)
    requires Valid(w, env, ord) && id in w.group.live && id !in Tick(w, env, ord).0.group.live
    ensures var r := Tick(w, env, ord).1;
            exists n :: (TerminatedIn(r.forced, n) || TerminatedIn(r.reaped, n)) && InstanceOf(w.group.cached, n, id)
  {
    hide Tick;
    hide InstanceOf;
    hide TerminatedIn;
    TickGroup(w, env, ord);
    hide Valid;
    var (w', r) := Tick(w, env, ord);
    assert TwoStage(w.group.cached, env, r.forced) && TwoStage(w.group.cached, env, r.reaped);
    assert id in w.group.live - w'.group.live;
    hide TwoStage;
    hide Victims;
    if id in Victims(w.group.cached, r.forced) {
      VictimIs(w.group.cached, env, r.forced, id);
    } else {
      VictimIs(w.group.cached, env, r.reaped, id);
    }
  }

  /** The group after a tick, from its two requests. */
  lemma TickRemovals(w: World, env: Input, ord: Orders)
    requires Valid(w, env, ord)
    ensures var (w', r) := Tick(w, env, ord);
            var asked := Asked(w, env, ord);
            && w'.group == AfterAsking(AfterRemovals(w.group, env, r.forced.request, r.reaped.request), env, asked)
            && r.forced.terminated == Terminated(w.group.cached, r.forced.request, env.terminateFails)
            && r.reaped.terminated == Terminated(w.group.cached, r.reaped.request, env.terminateFails)
  {
    hide Tick;
    hide ForceRequest;
    hide ReapRequest;
    hide Prepared;
    hide Asked;
    hide ToTaint;
    hide ToUntaint;
    TickIsPlanned(w, env, ord);
    SelectedAtMost(w, env);
    hide Valid;
    hide AfterAsking;
    hide AfterRemovals;
    hide Terminated;
    hide Deleted;
  }

  /** And the instance of every node that was terminated is gone, unless a fleet brings that id. */
  lemma InstancesGone(w: World, env: Input, ord: Orders, n: Node, id: string)
    requires Valid(w, env, ord) && InstanceOf(w.group.cached, n, id)
    requires var r := Tick(w, env, ord).1; TerminatedIn(r.forced, n) || TerminatedIn(r.reaped, n)
    ensures id !in Tick(w, env, ord).0.group.live
            || (w.group.oneShot && env.answer.fleet.Fleet? && id in env.answer.fleet.ids)
  {
    hide Tick;
    hide InstanceOf;
    hide InstanceFor;
    hide Asked;
    hide Terminated;
    TickGroup(w, env, ord);
    TickRemovals(w, env, ord);
    hide Valid;
    var r := Tick(w, env, ord).1;
    if TerminatedIn(r.forced, n) {
      TerminatedBelongs(w.group.cached, env, r.forced, n);
    } else {
      TerminatedBelongs(w.group.cached, env, r.reaped, n);
    }
    hide Belongs;
    hide TwoStage;
    InstanceMeans(w.group.cached, n, id);
    RemovedAreGone(w.group, env, r.forced.request, r.reaped.request, n);
    AskingBringsFleet(AfterRemovals(w.group, env, r.forced.request, r.reaped.request), env, Asked(w, env, ord), id);
    hide AfterRemovals;
    hide AfterAsking;
  }

  lemma RemovedAreGone(g: Group, env: Input, f: seq<Node>, r: seq<Node>, n: Node)
    requires || n in f[..Terminated(g.cached, f, env.terminateFails)]
             || n in r[..Terminated(g.cached, r, env.terminateFails)]
    ensures InstanceFor(g.cached, n) !in AfterRemovals(g, env, f, r).live
    ensures AfterRemovals(g, env, f, r).oneShot == g.oneShot
  {
    hide InstanceFor;
    hide Terminated;
  }

  lemma AskingBringsFleet(g: Group, env: Input, asked: int, id: string)
    ensures id in AfterAsking(g, env, asked).live && id !in g.live ==>
            g.oneShot && env.answer.fleet.Fleet? && id in env.answer.fleet.ids
  {
    hide AttachedCount;
    hide AttachOk;
    if env.answer.fleet.Fleet? {
      var ids := env.answer.fleet.ids;
      assert forall k: nat :: k <= |ids| ==> forall x :: x in ids[..k] ==> x in ids;
    }
  }
}
