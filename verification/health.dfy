/** Node and node-group health (pkg/k8s/node.go, pkg/controller/controller.go). */
module Health {
  import opened Cluster
  import opened Order
  import Utilisation

  /** The first Ready condition decides; a node without one is not ready. */
  predicate Ready(cs: seq<Condition>) {
    cs != [] && (if cs[0].kind == "Ready" then cs[0].status == "True" else Ready(cs[1..]))
  }

  /** IsNodeUnhealthy: not cordoned, past its grace period and not ready. */
  predicate Unhealthy(n: Node, grace: int, now: int) {
    !n.unschedulable && n.created + grace <= now && !Ready(n.conditions)
  }

  /** The nodes past the grace period, in order. */
  function OldEnough(ns: seq<Node>, grace: int, now: int): (r: seq<Node>)
    ensures |r| <= |ns| && forall n :: n in r <==> n in ns && n.created + grace < now
  {
    if ns == [] then []
    else
      var rest, last := OldEnough(ns[..|ns| - 1], grace, now), ns[|ns| - 1];
      assert ns == ns[..|ns| - 1] + [last];
      if last.created + grace < now then rest + [last] else rest
  }

  /** How many of `n` nodes are tested: the percentage, rounded up. The loop stops when the
      count equals this number, so a number it never meets stands for all. */
  function TestSize(percent: int, n: nat): (k: nat)
    ensures k <= n
  {
    var k := Utilisation.Ceil(percent as real / 100.0 * n as real);
    if 0 <= k <= n then k else n
  }

  function CountUnhealthy(ns: seq<Node>, grace: int, now: int): (c: nat)
    ensures c <= |ns|
  {
    if ns == [] then 0
    else CountUnhealthy(ns[..|ns| - 1], grace, now) + if Unhealthy(ns[|ns| - 1], grace, now) then 1 else 0
  }

  /** The nodes the group is judged by, given the newest-first order of the listing. */
  function TestSet(ns: seq<Node>, order: seq<nat>, o: Options, now: int): seq<Node>
    requires InRange(order, |ns|)
  {
    var aged := OldEnough(At(ns, order), o.unhealthyGrace, now);
    aged[..TestSize(o.newestPercent, |aged|)]
  }

  /** isNodegroupHealthy. */
  predicate GroupHealthy(ns: seq<Node>, order: seq<nat>, o: Options, now: int)
    requires InRange(order, |ns|)
  {
    var test := TestSet(ns, order, o, now);
    test == [] || CountUnhealthy(test, o.unhealthyGrace, now) * 100 / |test| <= o.maxUnhealthyPercent
  }

  method FilterOutNodesTooNew(ns: seq<Node>, grace: int, now: int) returns (r: seq<Node>)
    ensures r == OldEnough(ns, grace, now)
  {
    r := [];
    for i := 0 to |ns|
      invariant r == OldEnough(ns[..i], grace, now)
    {
      assert ns[..i + 1][..i] == ns[..i];
      if ns[i].created + grace < now {
        r := r + [ns[i]];
      }
    }
    assert ns[..|ns|] == ns;
  }

  method GetMostRecentNodes(percent: int, ns: seq<Node>) returns (r: seq<Node>)
    ensures r == ns[..TestSize(percent, |ns|)]
  {
    var wanted := Utilisation.Ceil(percent as real / 100.0 * |ns| as real);
    r := [];
    var i := 0;
    while i < |ns| && i != wanted
      invariant 0 <= i <= |ns|
      invariant 0 <= wanted <= |ns| ==> i <= wanted
      invariant r == ns[..i]
    {
      r := r + [ns[i]];
      i := i + 1;
    }
  }

  method CountUnhealthyNodes(ns: seq<Node>, grace: int, now: int) returns (count: nat)
    ensures count == CountUnhealthy(ns, grace, now)
  {
    count := 0;
    for i := 0 to |ns|
      invariant count == CountUnhealthy(ns[..i], grace, now)
    {
      assert ns[..i + 1][..i] == ns[..i];
      if Unhealthy(ns[i], grace, now) {
        count := count + 1;
      }
    }
    assert ns[..|ns|] == ns;
  }

  method IsNodegroupHealthy(ns: seq<Node>, o: Options, now: int) returns (healthy: bool)
    ensures healthy <==> GroupHealthy(ns, SortNodes(ns, true), o, now)
  {
    var aged := FilterOutNodesTooNew(At(ns, SortNodes(ns, true)), o.unhealthyGrace, now);
    var test := GetMostRecentNodes(o.newestPercent, aged);
    if |test| == 0 {
      return true;
    }
    var count := CountUnhealthyNodes(test, o.unhealthyGrace, now);
    healthy := count * 100 / |test| <= o.maxUnhealthyPercent;
  }

  // ---------- the verdict ----------

  lemma CeilPercent(p: int, n: nat)
    ensures Utilisation.Ceil(p as real / 100.0 * n as real) == (p * n + 99) / 100
  {
    var x := p as real / 100.0 * n as real;
    assert x * 100.0 == (p * n) as real by {
      assert p as real * n as real == (p * n) as real;
    }
    var k := (p * n + 99) / 100;
    assert 100 * k - 100 < p * n <= 100 * k;
    assert k as real - 1.0 < x <= k as real;
  }

  lemma TestSizeExact(p: int, n: nat)
    requires 1 <= p <= 100
    ensures TestSize(p, n) == (p * n + 99) / 100
  {
    hide Utilisation.Ceil;
    CeilPercent(p, n);
    PercentOf(p, n);
  }

  lemma PercentOf(p: int, n: nat)
    requires 1 <= p <= 100
    ensures 0 <= (p * n + 99) / 100 <= n
  {
    var x := p * n;
    assert (100 - p) * n >= 0;
    assert 0 <= x <= 100 * n;
  }

  lemma DivideVerdict(count: nat, size: nat, max: int)
    requires size > 0
    ensures count * 100 / size <= max <==> 100 * count < (max + 1) * size
  {
    var q := count * 100 / size;
    assert q * size <= count * 100 < (q + 1) * size;
    if q <= max {
      Scales(q + 1, max + 1, size);
    } else {
      Scales(max + 1, q, size);
    }
  }

  lemma Scales(a: int, b: int, size: nat)
    requires a <= b
    ensures a * size <= b * size
  {
    assert (b - a) * size >= 0;
  }

  predicate NewestFirst(ns: seq<Node>) {
    forall i, j :: 0 <= i < j < |ns| ==> ns[i].created >= ns[j].created
  }

  lemma {:induction false} OldEnoughSorted(ns: seq<Node>, grace: int, now: int)
    requires NewestFirst(ns)
    ensures NewestFirst(OldEnough(ns, grace, now))
  {
    if ns != [] {
      var init, last := ns[..|ns| - 1], ns[|ns| - 1];
      OldEnoughSorted(init, grace, now);
      forall n | n in OldEnough(init, grace, now) ensures n.created >= last.created {
        var i :| 0 <= i < |init| && init[i] == n;
        assert ns[i] == n;
      }
      assert OldEnough(ns, grace, now) == OldEnough(init, grace, now) + if last.created + grace < now then [last]
             else [];
      hide OldEnough;
    }
  }

  /** The test set is the newest ceil(p * n / 100) of the n nodes past the grace period: no
      tested node is older than an untested one. */
  lemma TestSetIsNewest(ns: seq<Node>, order: seq<nat>, o: Options, now: int)
    requires SortOrder(order, ns, true) && 1 <= o.newestPercent <= 100
    ensures var aged := OldEnough(At(ns, order), o.unhealthyGrace, now);
            var test := TestSet(ns, order, o, now);
            && |test| == (o.newestPercent * |aged| + 99) / 100
            && test == aged[..|test|]
            && forall m, n :: m in test && n in aged[|test|..] ==> m.created >= n.created
  {
    var aged := OldEnough(At(ns, order), o.unhealthyGrace, now);
    TestSizeExact(o.newestPercent, |aged|);
    OldEnoughSorted(At(ns, order), o.unhealthyGrace, now);
    SplitSorted(aged, TestSize(o.newestPercent, |aged|));
  }

  lemma SplitSorted(ns: seq<Node>, k: nat)
    requires NewestFirst(ns) && k <= |ns|
    ensures forall m, n :: m in ns[..k] && n in ns[k..] ==> m.created >= n.created
  {
    forall m, n | m in ns[..k] && n in ns[k..] ensures m.created >= n.created {
      var i :| 0 <= i < k && ns[..k][i] == m;
      var j :| 0 <= j < |ns| - k && ns[k..][j] == n;
      assert ns[i] == m && ns[k + j] == n;
    }
  }

  /** The verdict in whole numbers: unhealthy exactly when the test set is not empty and
      100 * unhealthy >= (max + 1) * size. */
  lemma VerdictExact(ns: seq<Node>, order: seq<nat>, o: Options, now: int)
    requires InRange(order, |ns|)
    ensures var test := TestSet(ns, order, o, now);
            !GroupHealthy(ns, order, o, now) <==>
            test != [] && 100 * CountUnhealthy(test, o.unhealthyGrace, now) >= (o.maxUnhealthyPercent + 1) * |test|
  {
    var test := TestSet(ns, order, o, now);
    if test != [] {
      DivideVerdict(CountUnhealthy(test, o.unhealthyGrace, now), |test|, o.maxUnhealthyPercent);
    }
  }

  // ---------- independence of the listing order ----------

  /** No two different nodes were created at the same time. */
  ghost predicate DistinctTimes(ns: seq<Node>) {
    forall m, n :: m in ns && n in ns && m.created == n.created ==> m == n
  }

  lemma RemoveAt(s: seq<nat>, k: nat)
    requires k < |s|
    ensures multiset(s[..k] + s[k + 1..]) == multiset(s) - multiset{s[k]}
  {
    assert s == s[..k] + [s[k]] + s[k + 1..];
  }

  /** Dropping the position of the largest index leaves a shorter permutation. */
  lemma DropLargest(order: seq<nat>, n: nat) returns (k: nat)
    requires n > 0 && Permutation(order, n)
    ensures k < |order| && order[k] == n - 1
    ensures Permutation(order[..k] + order[k + 1..], n - 1)
  {
    var last: nat := n - 1;
    assert last in order by {
      PermutationFacts(order, n);
    }
    hide Permutation;
    k :| 0 <= k < |order| && order[k] == last;
    DropAt(order, k, n, last);
  }

  lemma {:induction false} DropAt(order: seq<nat>, k: nat, n: nat, last: nat)
    requires k < |order| && order[k] == last && n == last + 1 && Permutation(order, n)
    ensures Permutation(order[..k] + order[k + 1..], last)
  {
    RemoveAt(order, k);
    IotaLast(n, last);
    hide Iota;
    Cancel(multiset(order), multiset(Iota(last)), last);
  }

  lemma Cancel(a: multiset<nat>, b: multiset<nat>, x: nat)
    requires a == b + multiset{x}
    ensures a - multiset{x} == b
  {
  }

  lemma {:induction false} IotaLast(n: nat, last: nat)
    requires n == last + 1
    ensures multiset(Iota(n)) == multiset(Iota(last)) + multiset{last}
  {
    assert Iota(n) == Iota(last) + [last];
    var init := Iota(last);
    hide Iota;
    assert multiset(init + [last]) == multiset(init) + multiset{last};
  }

  /** The nodes at all positions are those at the positions other than `k`, and the one there. */
  lemma AtRest(ns: seq<Node>, order: seq<nat>, k: nat)
    requires ns != [] && k < |order| && InRange(order, |ns|) && order[k] == |ns| - 1
    requires InRange(order[..k] + order[k + 1..], |ns| - 1)
    ensures multiset(At(ns, order)) ==
            multiset(At(ns[..|ns| - 1], order[..k] + order[k + 1..])) + multiset{ns[|ns| - 1]}
  {
    var rest := order[..k] + order[k + 1..];
    InsertElement(At(ns, order), At(ns[..|ns| - 1], rest), k, ns[|ns| - 1]);
  }

  lemma {:induction false} AtMultiset(ns: seq<Node>, order: seq<nat>)
    requires Permutation(order, |ns|)
    ensures InRange(order, |ns|)
    ensures multiset(At(ns, order)) == multiset(ns)
  {
    assert InRange(order, |ns|) && |order| == |ns| by {
      PermutationFacts(order, |ns|);
    }
    if ns != [] {
      var init, last := ns[..|ns| - 1], ns[|ns| - 1];
      var k := DropLargest(order, |ns|);
      var rest := order[..k] + order[k + 1..];
      AtMultiset(init, rest);
      AtRest(ns, order, k);
      assert ns == init + [last];
      hide At;
      hide Permutation;
    }
  }

  lemma InsertElement(all: seq<Node>, some: seq<Node>, k: nat, x: Node)
    requires k <= |some| && |all| == |some| + 1 && all[k] == x
    requires forall i :: 0 <= i < k ==> all[i] == some[i]
    requires forall i :: k <= i < |some| ==> all[i + 1] == some[i]
    ensures multiset(all) == multiset(some) + multiset{x}
  {
    assert all == some[..k] + [x] + some[k..];
    assert some == some[..k] + some[k..];
  }

  lemma SameFirst(a: seq<Node>, b: seq<Node>)
    requires multiset(a) == multiset(b) && NewestFirst(a) && NewestFirst(b) && DistinctTimes(a)
    requires a != [] && b != []
    ensures a[0] == b[0]
  {
    assert a[0] in multiset(b) && b[0] in multiset(a);
    var i :| 0 <= i < |b| && b[i] == a[0];
    var j :| 0 <= j < |a| && a[j] == b[0];
    assert b[0].created >= b[i].created && a[0].created >= a[j].created;
  }

  lemma Tail(a: seq<Node>)
    requires a != []
    ensures multiset(a[1..]) == multiset(a) - multiset{a[0]}
    ensures NewestFirst(a) ==> NewestFirst(a[1..])
    ensures DistinctTimes(a) ==> DistinctTimes(a[1..])
  {
    assert a == [a[0]] + a[1..];
  }

  /** Sorting is canonical when creation times are distinct. */
  lemma {:induction false} SortedIsUnique(a: seq<Node>, b: seq<Node>)
    requires multiset(a) == multiset(b) && NewestFirst(a) && NewestFirst(b) && DistinctTimes(a)
    ensures a == b
  {
    if a == [] {
      assert |multiset(b)| == 0;
    } else {
      assert a[0] in multiset(b);
      SameFirst(a, b);
      assert a[1..] == b[1..] by {
        Tail(a);
        Tail(b);
        SortedIsUnique(a[1..], b[1..]);
      }
      assert a == [a[0]] + a[1..];
    }
  }

  lemma {:induction false} OldEnoughCounts(ns: seq<Node>, grace: int, now: int, x: Node)
    ensures multiset(OldEnough(ns, grace, now))[x] == if x.created + grace < now then multiset(ns)[x] else 0
  {
    if ns != [] {
      var init, last := ns[..|ns| - 1], ns[|ns| - 1];
      OldEnoughCounts(init, grace, now, x);
      assert ns == init + [last];
      assert multiset(ns) == multiset(init) + multiset{last};
      var r := OldEnough(init, grace, now);
      assert OldEnough(ns, grace, now) == if last.created + grace < now then r + [last] else r;
      hide OldEnough;
      assert multiset(r + [last]) == multiset(r) + multiset{last};
    }
  }

  lemma SortedAt(ns: seq<Node>, order: seq<nat>)
    requires SortOrder(order, ns, true)
    ensures multiset(At(ns, order)) == multiset(ns) && NewestFirst(At(ns, order))
    ensures DistinctTimes(ns) ==> DistinctTimes(At(ns, order))
  {
    AtMultiset(ns, order);
    forall n | n in At(ns, order) ensures n in ns {}
  }

  /** The verdict does not depend on the order in which the nodes were listed, nor on how the
      sort broke ties. */
  lemma VerdictIgnoresListing(ns: seq<Node>, order: seq<nat>, ms: seq<Node>, morder: seq<nat>, o: Options, now: int)
    requires multiset(ns) == multiset(ms) && DistinctTimes(ns)
    requires SortOrder(order, ns, true) && SortOrder(morder, ms, true)
    ensures GroupHealthy(ns, order, o, now) <==> GroupHealthy(ms, morder, o, now)
  {
    SortedAt(ns, order);
    SortedAt(ms, morder);
    SortedIsUnique(At(ns, order), At(ms, morder));
  }

  /** Filtering before sorting selects the same nodes in the same order. */
  lemma FilterCommutesWithSort(ns: seq<Node>, order: seq<nat>, forder: seq<nat>, grace: int, now: int)
    requires DistinctTimes(ns) && SortOrder(order, ns, true)
    requires SortOrder(forder, OldEnough(ns, grace, now), true)
    ensures OldEnough(At(ns, order), grace, now) == At(OldEnough(ns, grace, now), forder)
  {
    var a, b := OldEnough(At(ns, order), grace, now), At(OldEnough(ns, grace, now), forder);
    SortedAt(ns, order);
    SortedAt(OldEnough(ns, grace, now), forder);
    OldEnoughSorted(At(ns, order), grace, now);
    OldEnoughMultiset(ns, At(ns, order), grace, now);
    assert DistinctTimes(a);
    hide OldEnough;
    hide At;
    hide NewestFirst;
    hide DistinctTimes;
    SortedIsUnique(a, b);
  }

  lemma OldEnoughMultiset(a: seq<Node>, b: seq<Node>, grace: int, now: int)
    requires multiset(a) == multiset(b)
    ensures multiset(OldEnough(a, grace, now)) == multiset(OldEnough(b, grace, now))
  {
    forall x ensures multiset(OldEnough(a, grace, now))[x] == multiset(OldEnough(b, grace, now))[x] {
      OldEnoughCounts(a, grace, now, x);
      OldEnoughCounts(b, grace, now, x);
    }
    hide OldEnough;
  }
}
