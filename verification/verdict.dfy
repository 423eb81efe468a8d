/** The health verdict of a tick, from the node objects to what the tick does. */
module Verdicts {
  import opened Cluster
  import opened Order
  import opened Decision
  import opened Health
  import opened ControlLoop
  import opened Plans

  // ---------- one node ----------

  /** Ready means that the first Ready condition says so. */
  lemma {:induction false} ReadyMeans(cs: seq<Condition>)
    ensures Ready(cs) <==>
            exists i :: 0 <= i < |cs| && cs[i].kind == "Ready" && cs[i].status == "True"
                        && forall j :: 0 <= j < i ==> cs[j].kind != "Ready"
  {
    if cs != [] {
      ReadyMeans(cs[1..]);
      if cs[0].kind != "Ready" {
        if Ready(cs) {
          var i :| 0 <= i < |cs[1..]| && cs[1..][i].kind == "Ready" && cs[1..][i].status == "True"
                   && forall j :: 0 <= j < i ==> cs[1..][j].kind != "Ready";
          assert cs[i + 1] == cs[1..][i];
          assert forall j :: 1 <= j < i + 1 ==> cs[j] == cs[1..][j - 1];
        }
        if i :| 0 <= i < |cs| && cs[i].kind == "Ready" && cs[i].status == "True"
                && forall j :: 0 <= j < i ==> cs[j].kind != "Ready" {
          assert cs[1..][i - 1] == cs[i];
          assert forall j :: 0 <= j < i - 1 ==> cs[1..][j] == cs[j + 1];
        }
      }
    }
  }

  /** A node counts as sick when it is schedulable, past its grace period, and has no Ready condition
      or one whose first occurrence does not say True. */
  lemma SickMeans(n: Node, grace: int, now: int)
    ensures Unhealthy(n, grace, now) <==>
            && !n.unschedulable && n.created + grace <= now
            && forall i :: 0 <= i < |n.conditions| && n.conditions[i].kind == "Ready"
                           && (forall j :: 0 <= j < i ==> n.conditions[j].kind != "Ready")
                 ==> n.conditions[i].status != "True"
  {
    ReadyMeans(n.conditions);
    hide Ready;
  }

  // ---------- counting ----------

  /** The positions of the sick nodes. */
  ghost function SickAt(ns: seq<Node>, grace: int, now: int): set<nat> {
    set i: nat | i < |ns| && Unhealthy(ns[i], grace, now)
  }

  /** The count is the number of positions whose node is sick. */
  lemma {:induction false} CountMeans(ns: seq<Node>, grace: int, now: int)
    ensures CountUnhealthy(ns, grace, now) == |set i | 0 <= i < |ns| && Unhealthy(ns[i], grace, now)|
  {
    hide Unhealthy;
    if ns == [] {
      assert SickAt(ns, grace, now) == {};
    } else {
      var k := |ns| - 1;
      CountMeans(ns[..k], grace, now);
      assert SickAt(ns[..k], grace, now) == set i | 0 <= i < |ns[..k]| && Unhealthy(ns[..k][i], grace, now);
      if Unhealthy(ns[k], grace, now) {
        assert SickAt(ns, grace, now) == SickAt(ns[..k], grace, now) + {k};
      } else {
        assert SickAt(ns, grace, now) == SickAt(ns[..k], grace, now);
      }
      assert SickAt(ns, grace, now) == set i | 0 <= i < |ns| && Unhealthy(ns[i], grace, now);
    }
  }

  // ---------- the verdict of a tick ----------

  /** The verdict on a listing. */
  lemma VerdictMeans(ns: seq<Node>, env: Input, order: seq<nat>)
    requires InRange(order, |ns|)
    ensures var o, test := env.opts, TestSet(ns, order, env.opts, env.now);
            var sick := |set i | 0 <= i < |test| && Unhealthy(test[i], o.unhealthyGrace, env.now)|;
            !JudgedHealthy(ns, env, order) <==>
            o.unhealthyGrace > 0 && test != [] && 100 * sick >= (o.maxUnhealthyPercent + 1) * |test|
  {
    var test := TestSet(ns, order, env.opts, env.now);
    VerdictExact(ns, order, env.opts, env.now);
    CountMeans(test, env.opts.unhealthyGrace, env.now);
    hide TestSet;
    hide GroupHealthy;
    hide CountUnhealthy;
    hide Unhealthy;
  }

  /** Only a tick that gets to act ends in an action. */
  lemma ActionsAreActs(w: World, env: Input, ord: Orders)
    requires Valid(w, env, ord) && !Acts(w, env)
    ensures var r := Tick(w, env, ord).1;
            r.outcome != ScaledUp && r.outcome != ScaledDown && r.outcome != OnlyReaped
  {
    hide Tick;
    hide Acts;
    if TooFewUntainted(w, env) {
      MinimumForm(w, env, ord);
    } else {
      RestForm(w, env, ord);
    }
    hide Valid;
    hide Outlook;
    hide ScaleUp;
    hide SplitOf;
  }

  /** What a tick that acts reports, by its verdict. */
  lemma ActsByVerdict(w: World, env: Input, ord: Orders)
    requires Valid(w, env, ord) && Acts(w, env)
    ensures var r, healthy := Tick(w, env, ord).1, JudgedHealthy(w.nodes, env, ord.health);
            && r.healthy == healthy
            && (!healthy ==> r.outcome == OnlyReaped && r.delta == 0 && r.taintPicks == []
                             && r.up.picks == [] && r.up.added == 0)
            && (healthy ==> r.delta == Decided(w, env).nodes)
  {
    hide Tick;
    hide SplitOf;
    hide Decided;
    hide UsageOf;
    hide JudgedHealthy;
    ActingIsPlanned(w, env, ord);
    if !JudgedHealthy(w.nodes, env, ord.health) {
      NoGrowth(w, env, ord);
    }
    hide Valid;
    hide ForceRequest;
    hide ReapRequest;
    hide ToUntaint;
    hide Asked;
    hide TaintsAlong;
  }

  /** The verdict, for every tick that gets to act, and what it does to the tick. The group is found
      unhealthy exactly when health checks are on, some node is tested, and the sick among the tested
      nodes are more than the percentage allows; and then the tick only reaps. In a group that is
      found healthy it acts on what was decided. */
  lemma VerdictOfTick(w: World, env: Input, ord: Orders)
    requires Valid(w, env, ord)
    ensures var (r, o) := (Tick(w, env, ord).1, env.opts);
            var test := TestSet(w.nodes, ord.health, o, env.now);
            var sick := |set i | 0 <= i < |test| && Unhealthy(test[i], o.unhealthyGrace, env.now)|;
            r.outcome == ScaledUp || r.outcome == ScaledDown || r.outcome == OnlyReaped ==>
            && (!r.healthy <==>
                o.unhealthyGrace > 0 && test != [] && 100 * sick >= (o.maxUnhealthyPercent + 1) * |test|)
            && (!r.healthy ==> r.outcome == OnlyReaped && r.delta == 0 && r.taintPicks == []
                               && r.up.picks == [] && r.up.added == 0)
            && (r.healthy ==> Acts(w, env) && r.delta == Decided(w, env).nodes)
  {
    hide Tick;
    hide Acts;
    hide Decided;
    hide JudgedHealthy;
    hide TestSet;
    hide Unhealthy;
    ValidFacts(w, env, ord);
    VerdictMeans(w.nodes, env, ord.health);
    if Acts(w, env) {
      ActsByVerdict(w, env, ord);
    } else {
      ActionsAreActs(w, env, ord);
    }
    hide Valid;
  }

  // ---------- a mostly sick group ----------

  ghost function Image(s: set<nat>, order: seq<nat>): set<nat>
    requires forall i :: i in s ==> 0 <= i < |order|
  {
    set i | i in s :: order[i]
  }

  lemma {:induction false} ImageSize(s: set<nat>, order: seq<nat>)
    requires (forall i :: i in s ==> 0 <= i < |order|) && Distinct(order)
    ensures |Image(s, order)| == |s|
    decreases |s|
  {
    if s != {} {
      var x :| x in s;
      var rest := s - {x};
      ImageSize(rest, order);
      assert order[x] !in Image(rest, order);
      assert Image(s, order) == Image(rest, order) + {order[x]};
    }
  }

  /** Listing the nodes in another order does not change how many are sick. */
  lemma CountIgnoresOrder(ns: seq<Node>, order: seq<nat>, grace: int, now: int)
    requires Permutation(order, |ns|) && InRange(order, |ns|)
    ensures |SickAt(At(ns, order), grace, now)| == |SickAt(ns, grace, now)|
  {
    hide Unhealthy;
    PermutationFacts(order, |ns|);
    hide Permutation;
    var a, b := SickAt(At(ns, order), grace, now), SickAt(ns, grace, now);
    ImageSize(a, order);
    forall j | j in b ensures exists i :: i in a && order[i] == j {
      var k: nat := j;
      assert k in order;
      var i :| 0 <= i < |order| && order[i] == k;
      assert i in a;
    }
    assert Image(a, order) == b;
  }

  lemma {:induction false} OldEnoughLast(ns: seq<Node>, grace: int, now: int)
    requires ns != [] && ns[|ns| - 1].created + grace < now
    ensures OldEnough(ns, grace, now) == OldEnough(ns[..|ns| - 1], grace, now) + [ns[|ns| - 1]]
  {
  }

  lemma {:induction false} NoneOld(grace: int, now: int)
    ensures OldEnough([], grace, now) == []
  {
  }

  lemma {:induction false} AllOld(ns: seq<Node>, grace: int, now: int)
    requires forall i :: 0 <= i < |ns| ==> ns[i].created + grace < now
    ensures OldEnough(ns, grace, now) == ns
  {
    hide OldEnough;
    if ns == [] {
      NoneOld(grace, now);
    } else {
      var init, last := ns[..|ns| - 1], ns[|ns| - 1];
      AllOld(init, grace, now);
      OldEnoughLast(ns, grace, now);
      assert ns == init + [last];
    }
  }

  /** When every listed node is past its grace period and all are tested, the whole listing is judged. */
  lemma AllTested(ns: seq<Node>, env: Input, order: seq<nat>)
    requires Permutation(order, |ns|) && InRange(order, |ns|) && env.opts.newestPercent == 100
    requires forall n :: n in ns ==> n.created + env.opts.unhealthyGrace < env.now
    ensures TestSet(ns, order, env.opts, env.now) == At(ns, order)
  {
    AllOld(At(ns, order), env.opts.unhealthyGrace, env.now);
    TestSizeExact(100, |At(ns, order)|);
    hide TestSize;
    hide OldEnough;
  }

  /** A group in which more nodes are sick than the percentage allows is not grown, whatever its
      utilisation and its overrides; nor is anything in it tainted or untainted by the scaling. */
  lemma SickGroupNotGrown(w: World, env: Input, ord: Orders)
    requires Valid(w, env, ord) && env.opts.unhealthyGrace > 0 && env.opts.newestPercent == 100 && w.nodes != []
    requires forall n :: n in w.nodes ==> n.created + env.opts.unhealthyGrace < env.now
    requires 100 * |set i | 0 <= i < |w.nodes| && Unhealthy(w.nodes[i], env.opts.unhealthyGrace, env.now)|
             >= (env.opts.maxUnhealthyPercent + 1) * |w.nodes|
    requires |SplitOf(w, env).untainted| >= env.opts.minNodes
    ensures var r := Tick(w, env, ord).1;
            r.outcome != ScaledUp && r.outcome != ScaledDown && r.up.added == 0 && r.up.picks == []
              && r.taintPicks == []
  {
    hide Tick;
    hide Unhealthy;
    hide SplitOf;
    var g := env.opts.unhealthyGrace;
    assert SickAt(w.nodes, g, env.now) == set i | 0 <= i < |w.nodes| && Unhealthy(w.nodes[i], g, env.now);
    assert Permutation(ord.health, |w.nodes|) && InRange(ord.health, |w.nodes|);
    PermutationFacts(ord.health, |w.nodes|);
    CountIgnoresOrder(w.nodes, ord.health, g, env.now);
    AllTested(w.nodes, env, ord.health);
    var test := At(w.nodes, ord.health);
    assert SickAt(test, g, env.now) == set i | 0 <= i < |test| && Unhealthy(test[i], g, env.now);
    VerdictMeans(w.nodes, env, ord.health);
    hide JudgedHealthy;
    if Acts(w, env) {
      ActsByVerdict(w, env, ord);
    } else {
      RestForm(w, env, ord);
    }
    hide Valid;
    hide Acts;
  }
}
