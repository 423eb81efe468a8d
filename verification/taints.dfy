/** The escalator taints of a node and the API calls that edit them (pkg/k8s/taint.go). */
module Taints {
  import opened Cluster
  import Decimal

  const TO_BE_REMOVED: string := "atlassian.com/escalator"
  const TO_BE_FORCE_REMOVED: string := "atlassian.com/escalator-force"
  const NO_SCHEDULE: string := "NoSchedule"

  /** The first position holding a taint with this key, or the length if there is none. */
  function IndexOf(ts: seq<Taint>, key: string): (r: nat)
    ensures r <= |ts|
    ensures r < |ts| ==> ts[r].key == key
    ensures forall i :: 0 <= i < r ==> ts[i].key != key
  {
    if ts == [] || ts[0].key == key then 0 else 1 + IndexOf(ts[1..], key)
  }

  predicate HasTaint(n: Node, key: string) {
    IndexOf(n.taints, key) < |n.taints|
  }

  predicate Tainted(n: Node) {
    HasTaint(n, TO_BE_REMOVED)
  }

  /** When the node was marked, according to its taint. */
  datatype Marked = Unmarked | Malformed | MarkedAt(time: int)

  function ToBeRemovedTime(n: Node): Marked {
    if Tainted(n) then
      match Decimal.Parse(n.taints[IndexOf(n.taints, TO_BE_REMOVED)].value)
      case None => Malformed
      case Some(seconds) => MarkedAt(seconds * SECOND)
    else Unmarked
  }

  /** The taint written at `now`: its value is the Unix time in whole seconds. */
  function StampTaint(now: nat, effect: string): Taint {
    Taint(TO_BE_REMOVED, Decimal.Format(now / SECOND), if effect == "" then NO_SCHEDULE else effect)
  }

  /** What AddToBeRemovedTaint leaves on the API server: a taint already there is kept as it is. */
  function TaintNode(n: Node, now: nat, effect: string): (r: Node)
    ensures r == n.(taints := r.taints) && n.taints <= r.taints
  {
    if Tainted(n) then n else n.(taints := n.taints + [StampTaint(now, effect)])
  }

  /** Overwrites the first escalator taint with the last taint and truncates. */
  function UntaintList(ts: seq<Taint>): seq<Taint> {
    var i := IndexOf(ts, TO_BE_REMOVED);
    if i == |ts| then ts else ts[i := ts[|ts| - 1]][..|ts| - 1]
  }

  function UntaintNode(n: Node): (r: Node)
    ensures r == n.(taints := r.taints) && |r.taints| <= |n.taints|
  {
    n.(taints := UntaintList(n.taints))
  }

  function TaintAll(ns: seq<Node>, names: set<string>, now: nat, effect: string): (r: seq<Node>)
    ensures |r| == |ns|
    ensures forall i :: 0 <= i < |ns| ==> r[i] == if ns[i].name in names then TaintNode(ns[i], now, effect) else ns[i]
  {
    seq(|ns|, i requires 0 <= i < |ns| => if ns[i].name in names then TaintNode(ns[i], now, effect) else ns[i])
  }

  function UntaintAll(ns: seq<Node>, names: set<string>): (r: seq<Node>)
    ensures |r| == |ns|
    ensures forall i :: 0 <= i < |ns| ==> r[i] == if ns[i].name in names then UntaintNode(ns[i]) else ns[i]
  {
    seq(|ns|, i requires 0 <= i < |ns| => if ns[i].name in names then UntaintNode(ns[i]) else ns[i])
  }

  /** The escalator taints of a list, in order. */
  function Marks(ts: seq<Taint>): (r: seq<Taint>)
    ensures r != [] <==> IndexOf(ts, TO_BE_REMOVED) < |ts|
    ensures r != [] ==> r[0] == ts[IndexOf(ts, TO_BE_REMOVED)]
  {
    if ts == [] then []
    else if ts[0].key == TO_BE_REMOVED then [ts[0]] + Marks(ts[1..])
    else Marks(ts[1..])
  }

  lemma {:induction false} MarksAppend(a: seq<Taint>, b: seq<Taint>)
    ensures Marks(a + b) == Marks(a) + Marks(b)
  {
    if a == [] {
      assert a + b == b;
    } else {
      assert (a + b)[1..] == a[1..] + b;
      MarksAppend(a[1..], b);
    }
  }

  lemma MarksOfTainted(n: Node, now: nat, effect: string)
    ensures Marks(TaintNode(n, now, effect).taints) ==
            if Marks(n.taints) == [] then [StampTaint(now, effect)] else Marks(n.taints)
  {
    MarksAppend(n.taints, [StampTaint(now, effect)]);
  }

  /** The taint that is added: under the escalator's key, valued with the Unix time in whole seconds,
      and with the configured effect, or NoSchedule if none is configured. */
  lemma AddedTaint(n: Node, now: nat, effect: string)
    requires forall t :: t in n.taints ==> t.key != "atlassian.com/escalator"
    ensures TaintNode(n, now, effect).taints ==
            n.taints + [Taint("atlassian.com/escalator", Decimal.Format(now / 1_000_000_000),
                              if effect == "" then "NoSchedule" else effect)]
  {
    NoKey(n.taints, TO_BE_REMOVED);
  }

  /** Untainting drops the first escalator taint and keeps the multiplicity of everything else. */
  lemma UntaintKeepsOthers(n: Node)
    ensures !Tainted(n) ==> UntaintNode(n) == n
    ensures Tainted(n) ==> multiset(UntaintNode(n).taints) ==
                           multiset(n.taints) - multiset{n.taints[IndexOf(n.taints, TO_BE_REMOVED)]}
  {
    if Tainted(n) {
      var ts, i := n.taints, IndexOf(n.taints, TO_BE_REMOVED);
      var last := ts[|ts| - 1];
      var moved := ts[i := last];
      assert moved[|ts| - 1] == last;
      assert moved == moved[..|ts| - 1] + [last];
      assert multiset(moved[..|ts| - 1]) == multiset(moved) - multiset{last};
      assert multiset(moved) == multiset(ts) - multiset{ts[i]} + multiset{last};
    }
  }

  lemma {:induction false} MarksOfThree(pre: seq<Taint>, t: Taint, post: seq<Taint>)
    ensures |Marks(pre + [t] + post)| == |Marks(pre)| + |Marks([t])| + |Marks(post)|
  {
    MarksAppend(pre + [t], post);
    MarksAppend(pre, [t]);
  }

  lemma {:induction false} NoKey(ts: seq<Taint>, key: string)
    ensures IndexOf(ts, key) == |ts| <==> forall t :: t in ts ==> t.key != key
  {
    if IndexOf(ts, key) < |ts| {
      assert ts[IndexOf(ts, key)] in ts;
    }
  }

  lemma TaintedForce(n: Node, now: nat, effect: string)
    requires !HasTaint(n, TO_BE_FORCE_REMOVED)
    ensures !HasTaint(TaintNode(n, now, effect), TO_BE_FORCE_REMOVED)
  {
    NoKey(n.taints, TO_BE_FORCE_REMOVED);
    NoKey(TaintNode(n, now, effect).taints, TO_BE_FORCE_REMOVED);
  }

  /** Untainting adds no taint. */
  lemma UntaintAddsNothing(n: Node)
    ensures forall t :: t in UntaintNode(n).taints ==> t in n.taints
  {
    var ts, i := n.taints, IndexOf(n.taints, TO_BE_REMOVED);
    forall t | t in UntaintList(ts) ensures t in ts {
      var j :| 0 <= j < |UntaintList(ts)| && UntaintList(ts)[j] == t;
      assert t == if j == i && i < |ts| then ts[|ts| - 1] else ts[j];
    }
  }

  /** The last taint takes the place of the first escalator taint. */
  lemma {:induction false} UntaintShape(ts: seq<Taint>, i: nat)
    requires i == IndexOf(ts, TO_BE_REMOVED) < |ts| - 1
    ensures UntaintList(ts) == ts[..i] + [ts[|ts| - 1]] + ts[i + 1..|ts| - 1]
    ensures ts == ts[..i] + [ts[i]] + (ts[i + 1..|ts| - 1] + [ts[|ts| - 1]])
  {
  }

  /** A node that carries one escalator taint carries none after it is untainted. */
  lemma {:induction false} MarksOfUntainted(n: Node)
    requires |Marks(n.taints)| <= 1
    ensures Marks(UntaintNode(n).taints) == [] && !Tainted(UntaintNode(n))
  {
    var ts, i := n.taints, IndexOf(n.taints, TO_BE_REMOVED);
    if i == |ts| - 1 {
      assert ts == ts[..i] + [ts[i]];
      MarksAppend(ts[..i], [ts[i]]);
      assert UntaintList(ts) == ts[..i];
    } else if i < |ts| {
      var last, mid := ts[|ts| - 1], ts[i + 1..|ts| - 1];
      UntaintShape(ts, i);
      MarksOfThree(ts[..i], ts[i], mid + [last]);
      MarksAppend(mid, [last]);
      MarksOfThree(ts[..i], last, mid);
    }
  }

  /** Deleting a taint that was just added restores the exact taint sequence. */
  lemma UntaintUndoesTaint(n: Node, now: nat, effect: string)
    requires !Tainted(n)
    ensures Tainted(TaintNode(n, now, effect))
    ensures UntaintNode(TaintNode(n, now, effect)) == n
    ensures ToBeRemovedTime(TaintNode(n, now, effect)) == MarkedAt(now / SECOND * SECOND)
  {
    var ts := n.taints + [StampTaint(now, effect)];
    MarksOfTainted(n, now, effect);
    assert ts[|n.taints|].key == TO_BE_REMOVED;
    assert IndexOf(ts, TO_BE_REMOVED) == |n.taints|;
    assert UntaintList(ts) == n.taints;
    Decimal.ParseFormat(now / SECOND);
  }

  /** The node objects held by the API server. A call on a name in `failing` is one that
      returns an error and changes nothing. */
  class KubeClient {
    var nodes: seq<Node>

    constructor (nodes: seq<Node>)
      ensures this.nodes == nodes
    {
      this.nodes := nodes;
    }

    /** Nodes().Get: where the node is, if the call succeeds. */
    method Get(name: string, failing: set<string>) returns (at: Option<nat>)
      requires UniqueNames(nodes)
      ensures at.None? <==> name in failing || name !in Names(nodes)
      ensures at.Some? ==> at.value < |nodes| && nodes[at.value].name == name
    {
      if name in failing {
        return None;
      }
      var i := 0;
      while i < |nodes|
        invariant 0 <= i <= |nodes|
        invariant forall k :: 0 <= k < i ==> nodes[k].name != name
      {
        if nodes[i].name == name {
          assert nodes[i] in nodes;
          return Some(i);
        }
        i := i + 1;
      }
      assert name !in Names(nodes);
      return None;
    }

    method AddToBeRemovedTaint(name: string, now: nat, effect: string, failing: set<string>) returns (ok: bool)
      requires UniqueNames(nodes)
      modifies this
      ensures UniqueNames(nodes)
      ensures ok <==> name !in failing && name in Names(nodes)
      ensures nodes == if ok then TaintAll(old(nodes), {name}, now, effect) else old(nodes)
    {
      var at := Get(name, failing);
      if at.None? {
        return false;
      }
      var updated := nodes[at.value];
      var taintExists := false;
      for i := 0 to |updated.taints|
        invariant taintExists <==> exists k :: 0 <= k < i && updated.taints[k].key == TO_BE_REMOVED
      {
        if updated.taints[i].key == TO_BE_REMOVED {
          taintExists := true;
        }
      }
      if !taintExists {
        var value := Decimal.Format(now / SECOND);
        var used := if |effect| > 0 then effect else NO_SCHEDULE;
        updated := updated.(taints := updated.taints + [Taint(TO_BE_REMOVED, value, used)]);
      }
      nodes := nodes[at.value := updated];
      assert nodes == TaintAll(old(nodes), {name}, now, effect);
      return true;
    }

    method DeleteToBeRemovedTaint(name: string, failing: set<string>) returns (ok: bool)
      requires UniqueNames(nodes)
      modifies this
      ensures UniqueNames(nodes)
      ensures ok <==> name !in failing && name in Names(nodes)
      ensures nodes == if ok then UntaintAll(old(nodes), {name}) else old(nodes)
    {
      var at := Get(name, failing);
      if at.None? {
        return false;
      }
      var updated := nodes[at.value];
      var i := 0;
      while i < |updated.taints| && updated.taints[i].key != TO_BE_REMOVED
        invariant 0 <= i <= |updated.taints|
        invariant forall k :: 0 <= k < i ==> updated.taints[k].key != TO_BE_REMOVED
      {
        i := i + 1;
      }
      assert i == IndexOf(updated.taints, TO_BE_REMOVED);
      if i < |updated.taints| {
        var last := |updated.taints| - 1;
        var taints := updated.taints[i := updated.taints[last]];
        updated := updated.(taints := taints[..last]);
      }
      nodes := nodes[at.value := updated];
      assert nodes == UntaintAll(old(nodes), {name});
      return true;
    }

    /** k8s.DeleteNodes: deletes one by one and stops at the first failing call. */
    method DeleteNodes(request: seq<Node>, failing: set<string>) returns (deleted: nat)
      requires UniqueNames(nodes) && UniqueNames(request)
      modifies this
      ensures UniqueNames(nodes)
      ensures deleted == DeletedPrefix(request, failing + (Names(request) - old(Names(nodes))))
      ensures nodes == Without(old(nodes), Names(request[..deleted]))
    {
      ghost var start := nodes;
      ghost var refused := failing + (Names(request) - Names(nodes));
      deleted := 0;
      WithoutNothing(nodes, Names(request[..0]));
      while deleted < |request|
        invariant 0 <= deleted <= |request|
        invariant UniqueNames(nodes)
        invariant nodes == Without(start, Names(request[..deleted]))
        invariant DeletedPrefix(request, refused) == deleted + DeletedPrefix(request[deleted..], refused)
      {
        var name := request[deleted].name;
        DeleteOneMore(start, request, deleted);
        var at := Get(name, failing);
        if at.None? {
          return;
        }
        nodes := Without(nodes, {name});
        assert request[deleted..][1..] == request[deleted + 1..];
        deleted := deleted + 1;
      }
    }
  }

  lemma DeleteOneMore(start: seq<Node>, request: seq<Node>, k: nat)
    requires UniqueNames(start) && UniqueNames(request) && k < |request|
    ensures request[k].name in Names(request)
    ensures request[k].name in Names(Without(start, Names(request[..k]))) <==> request[k].name in Names(start)
    ensures Without(Without(start, Names(request[..k])), {request[k].name}) == Without(start, Names(request[..k + 1]))
    ensures UniqueNames(Without(start, Names(request[..k + 1])))
  {
    var name := request[k].name;
    assert request[k] in request && name !in Names(request[..k]);
    if name in Names(start) {
      var n :| n in start && n.name == name;
      assert n in Without(start, Names(request[..k]));
    }
    assert Names(request[..k + 1]) == Names(request[..k]) + {name} by {
      assert request[..k + 1] == request[..k] + [request[k]];
    }
    WithoutTwice(start, Names(request[..k]), {name});
    WithoutUnique(start, Names(request[..k + 1]));
  }

  /** How many leading nodes of a request are handled before the first refused one. */
  function DeletedPrefix(request: seq<Node>, refused: set<string>): (k: nat)
    ensures k <= |request|
    ensures forall i :: 0 <= i < k ==> request[i].name !in refused
    ensures k < |request| ==> request[k].name in refused
  {
    if request == [] || request[0].name in refused then 0
    else 1 + DeletedPrefix(request[1..], refused)
  }
}
