/** The two creation-time orders (pkg/controller/sort.go) and picking along them.

    An order lists positions of a node list. `sort.Sort` is not stable, so any order
    that satisfies `SortOrder` may be the one in use. */
module Order {
  import opened Cluster

  function Iota(n: nat): seq<nat> {
    if n == 0 then [] else Iota(n - 1) + [n - 1]
  }

  ghost predicate Permutation(order: seq<nat>, n: nat) {
    multiset(order) == multiset(Iota(n))
  }

  ghost predicate InRange(order: seq<nat>, n: nat) {
    forall i :: 0 <= i < |order| ==> order[i] < n
  }

  ghost predicate Distinct(order: seq<nat>) {
    forall i, j :: 0 <= i < j < |order| ==> order[i] != order[j]
  }

  /** `a` may come before `b`. */
  predicate Precedes(a: Node, b: Node, newestFirst: bool) {
    if newestFirst then a.created >= b.created else a.created <= b.created
  }

  ghost predicate SortOrder(order: seq<nat>, ns: seq<Node>, newestFirst: bool) {
    && Permutation(order, |ns|)
    && InRange(order, |ns|)
    && Ordered(order, ns, newestFirst)
  }

  lemma {:induction false} IotaCounts(n: nat, x: nat)
    ensures |Iota(n)| == n
    ensures multiset(Iota(n))[x] == if x < n then 1 else 0
  {
    if n > 0 {
      IotaCounts(n - 1, x);
    }
  }

  lemma {:induction false} RepeatCounts(s: seq<nat>, i: nat, j: nat)
    requires i < j < |s| && s[i] == s[j]
    ensures multiset(s)[s[i]] >= 2
  {
    assert s == s[..i + 1] + s[i + 1..];
    assert s[i] in s[..i + 1] by {
      assert s[..i + 1][i] == s[i];
    }
    assert s[i] in s[i + 1..] by {
      assert s[i + 1..][j - i - 1] == s[j];
    }
    assert multiset(s) == multiset(s[..i + 1]) + multiset(s[i + 1..]);
  }

  /** A permutation has the right length, repeats nothing and misses nothing. */
  lemma {:induction false} PermutationFacts(order: seq<nat>, n: nat)
    requires Permutation(order, n)
    ensures |order| == n && InRange(order, n) && Distinct(order)
    ensures forall x: nat :: x < n ==> x in order
  {
    IotaCounts(n, 0);
    assert |multiset(order)| == |multiset(Iota(n))|;
    forall i | 0 <= i < |order| ensures order[i] < n {
      IotaCounts(n, order[i]);
      assert order[i] in multiset(order);
    }
    forall i, j | 0 <= i < j < |order| ensures order[i] != order[j] {
      if order[i] == order[j] {
        RepeatCounts(order, i, j);
        IotaCounts(n, order[i]);
      }
    }
    forall x: nat | x < n ensures x in order {
      IotaCounts(n, x);
      assert x in multiset(order);
    }
  }

  ghost predicate Ordered(order: seq<nat>, ns: seq<Node>, newestFirst: bool)
    requires InRange(order, |ns|)
  {
    forall i, j :: 0 <= i < j < |order| ==> Precedes(ns[order[i]], ns[order[j]], newestFirst)
  }

  lemma InsertPermutation(order: seq<nat>, at: nat)
    requires at <= |order| && Permutation(order, |order|)
    ensures Permutation(order[..at] + [|order|] + order[at..], |order| + 1)
  {
    var x: nat := |order|;
    assert order == order[..at] + order[at..];
    assert multiset(order[..at] + [x] + order[at..]) == multiset(order) + multiset{x};
  }

  /** Inserting the next position where it belongs keeps the order sorted. */
  lemma InsertOrdered(ns: seq<Node>, order: seq<nat>, at: nat, newestFirst: bool)
    requires |order| < |ns| && at <= |order|
    requires InRange(order, |ns|) && Ordered(order, ns, newestFirst)
    requires at > 0 ==> Precedes(ns[order[at - 1]], ns[|order|], newestFirst)
    requires at < |order| ==> Precedes(ns[|order|], ns[order[at]], newestFirst)
    ensures var r := order[..at] + [|order|] + order[at..];
            InRange(r, |ns|) && Ordered(r, ns, newestFirst)
  {
    var x := |order|;
    assert forall i :: 0 <= i < at ==> Precedes(ns[order[i]], ns[x], newestFirst) by {
      forall i | 0 <= i < at ensures Precedes(ns[order[i]], ns[x], newestFirst) {
        assert i < at - 1 ==> Precedes(ns[order[i]], ns[order[at - 1]], newestFirst);
      }
    }
    assert forall i :: at <= i < |order| ==> Precedes(ns[x], ns[order[i]], newestFirst) by {
      forall i | at <= i < |order| ensures Precedes(ns[x], ns[order[i]], newestFirst) {
        assert at < i ==> Precedes(ns[order[at]], ns[order[i]], newestFirst);
      }
    }
  }

  /** Where the next position goes: behind the last one that precedes it. */
  function Slot(ns: seq<Node>, order: seq<nat>, at: nat, newestFirst: bool): (r: nat)
    requires |order| < |ns| && InRange(order, |ns|) && at <= |order|
    requires at < |order| ==> Precedes(ns[|order|], ns[order[at]], newestFirst)
    ensures r <= |order|
    ensures r > 0 ==> Precedes(ns[order[r - 1]], ns[|order|], newestFirst)
    ensures r < |order| ==> Precedes(ns[|order|], ns[order[r]], newestFirst)
  {
    if at == 0 || Precedes(ns[order[at - 1]], ns[|order|], newestFirst) then at
    else Slot(ns, order, at - 1, newestFirst)
  }

  function Insert(ns: seq<Node>, order: seq<nat>, newestFirst: bool): (r: seq<nat>)
    requires |order| < |ns| && InRange(order, |ns|)
    ensures |r| == |order| + 1 && InRange(r, |ns|)
  {
    var at := Slot(ns, order, |order|, newestFirst);
    order[..at] + [|order|] + order[at..]
  }

  lemma InsertSorts(ns: seq<Node>, order: seq<nat>, n: nat, newestFirst: bool)
    requires 0 < n <= |ns| && |order| == n - 1 && InRange(order, |ns|)
    requires Permutation(order, n - 1) && Ordered(order, ns, newestFirst)
    ensures Permutation(Insert(ns, order, newestFirst), n)
    ensures Ordered(Insert(ns, order, newestFirst), ns, newestFirst)
  {
    var at := Slot(ns, order, |order|, newestFirst);
    InsertPermutation(order, at);
    InsertOrdered(ns, order, at, newestFirst);
  }

  /** The sorted positions of the first `n` nodes, by insertion. */
  function SortFirst(ns: seq<Node>, n: nat, newestFirst: bool): (order: seq<nat>)
    requires n <= |ns|
    ensures |order| == n && InRange(order, |ns|)
  {
    if n == 0 then [] else Insert(ns, SortFirst(ns, n - 1, newestFirst), newestFirst)
  }

  lemma {:induction false} SortFirstSorts(ns: seq<Node>, n: nat, newestFirst: bool)
    requires n <= |ns|
    ensures Permutation(SortFirst(ns, n, newestFirst), n)
    ensures Ordered(SortFirst(ns, n, newestFirst), ns, newestFirst)
  {
    if n > 0 {
      SortFirstSorts(ns, n - 1, newestFirst);
      InsertSorts(ns, SortFirst(ns, n - 1, newestFirst), n, newestFirst);
    }
  }

  /** A creation-time sort: one of the orders `sort.Sort` may produce. */
  function SortNodes(ns: seq<Node>, newestFirst: bool): (order: seq<nat>)
    ensures InRange(order, |ns|) && Distinct(order)
  {
    var order := SortFirst(ns, |ns|, newestFirst);
    SortFirstSorts(ns, |ns|, newestFirst);
    PermutationFacts(order, |ns|);
    order
  }

  lemma SortNodesSorts(ns: seq<Node>, newestFirst: bool)
    ensures SortOrder(SortNodes(ns, newestFirst), ns, newestFirst)
  {
    SortFirstSorts(ns, |ns|, newestFirst);
  }

  // ---------- picking along an order ----------

  /** Walks the order and takes every node that is not skipped, until `max` are taken. */
  function Picks(order: seq<nat>, ns: seq<Node>, skip: set<string>, max: int): seq<nat>
    requires InRange(order, |ns|)
  {
    if order == [] || max <= 0 then []
    else if ns[order[0]].name in skip then Picks(order[1..], ns, skip, max)
    else [order[0]] + Picks(order[1..], ns, skip, max - 1)
  }

  /** The part of an order that is not skipped. */
  function Eligible(order: seq<nat>, ns: seq<Node>, skip: set<string>): (r: seq<nat>)
    requires InRange(order, |ns|)
    ensures forall x :: x in r <==> x in order && x < |ns| && ns[x].name !in skip
    ensures |r| <= |order|
  {
    if order == [] then []
    else
      assert order == [order[0]] + order[1..];
      (if ns[order[0]].name in skip then [] else [order[0]]) + Eligible(order[1..], ns, skip)
  }

  /** The picks are the eligible nodes of some leading part of the order: as many as asked
      for, or all there are. */
  lemma {:induction false} PicksArePrefix(order: seq<nat>, ns: seq<Node>, skip: set<string>, max: int)
      returns (k: nat)
    requires InRange(order, |ns|)
    ensures k <= |order|
    ensures Picks(order, ns, skip, max) == Eligible(order[..k], ns, skip)
    ensures |Picks(order, ns, skip, max)| <= if max <= 0 then 0 else max
    ensures |Picks(order, ns, skip, max)| < max ==> k == |order|
  {
    if order == [] || max <= 0 {
      k := 0;
    } else {
      var left := if ns[order[0]].name in skip then max else max - 1;
      var k' := PicksArePrefix(order[1..], ns, skip, left);
      k := k' + 1;
      assert order[..k][1..] == order[1..][..k'];
    }
  }

  lemma {:induction false} EligibleDistinct(order: seq<nat>, ns: seq<Node>, skip: set<string>)
    requires InRange(order, |ns|) && Distinct(order)
    ensures Distinct(Eligible(order, ns, skip))
  {
    if order != [] {
      EligibleDistinct(order[1..], ns, skip);
      assert order[0] !in order[1..];
    }
  }

  /** The picks are distinct positions of the order, none of them skipped. */
  lemma PicksSound(order: seq<nat>, ns: seq<Node>, skip: set<string>, max: int)
    requires InRange(order, |ns|) && Distinct(order)
    ensures var r := Picks(order, ns, skip, max);
            && Distinct(r) && InRange(r, |ns|)
            && |r| <= |order| && |r| <= (if max <= 0 then 0 else max)
            && forall x :: x in r ==> x in order && ns[x].name !in skip
  {
    var k := PicksArePrefix(order, ns, skip, max);
    EligibleDistinct(order[..k], ns, skip);
  }

  /** Greedy: an earlier position that was not picked was skipped. */
  lemma PicksGreedy(order: seq<nat>, ns: seq<Node>, skip: set<string>, max: int, i: nat, j: nat)
    requires InRange(order, |ns|) && Distinct(order)
    requires i < j < |order|
    requires order[j] in Picks(order, ns, skip, max) && order[i] !in Picks(order, ns, skip, max)
    ensures ns[order[i]].name in skip
  {
    var k := PicksArePrefix(order, ns, skip, max);
    assert order[j] in order[..k];
    var j' :| 0 <= j' < k && order[j'] == order[j];
    assert j' == j;
    assert order[..k][i] == order[i];
  }

  /** When nothing is skipped the picks are exactly the front of the order. */
  lemma {:induction false} PicksAll(order: seq<nat>, ns: seq<Node>, skip: set<string>, max: nat)
    requires InRange(order, |ns|)
    requires forall x :: x in order ==> ns[x].name !in skip
    ensures Picks(order, ns, skip, max) == order[..if max <= |order| then max else |order|]
  {
    if order != [] && max > 0 {
      assert order[0] in order;
      PicksAll(order[1..], ns, skip, max - 1);
      var m := if max <= |order| then max else |order|;
      assert order[..m] == [order[0]] + order[1..][..m - 1];
    }
  }

  /** The nodes at the given positions, in order. */
  function At(ns: seq<Node>, at: seq<nat>): (r: seq<Node>)
    requires InRange(at, |ns|)
    ensures |r| == |at| && forall i :: 0 <= i < |at| ==> r[i] == ns[at[i]]
  {
    seq(|at|, i requires 0 <= i < |at| => ns[at[i]])
  }

  lemma AtUnique(ns: seq<Node>, at: seq<nat>)
    requires UniqueNames(ns) && InRange(at, |ns|) && Distinct(at)
    ensures UniqueNames(At(ns, at)) && |Names(At(ns, at))| == |at|
    ensures Names(At(ns, at)) <= Names(ns)
  {
    var r := At(ns, at);
    forall i, j | 0 <= i < j < |r| ensures r[i].name != r[j].name {
      assert at[i] != at[j];
    }
    CountNames(r);
    forall n | n in r ensures n in ns {}
  }
}
