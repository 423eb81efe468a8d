/** The Kubernetes objects the controller reads, and the options of one node group.

    Instants and durations are whole nanoseconds; resource quantities are whole
    milli-CPUs and bytes. */
module Cluster {
  datatype Option<+T> = None | Some(value: T)

  const SECOND: nat := 1_000_000_000

  datatype Taint = Taint(key: string, value: string, effect: string)

  datatype Condition = Condition(kind: string, status: string)

  datatype Node = Node(
    name: string,
    created: int,
    taints: seq<Taint>,
    annotations: map<string, string>,
    unschedulable: bool,
    conditions: seq<Condition>,
    cpu: int,
    memory: int,
    providerId: string)

  /** A resource list; a missing entry is a zero request. */
  datatype ResourceList = ResourceList(cpu: nat, memory: nat)

  datatype Phase = Pending | Running | Succeeded | Failed | Unknown

  datatype Pod = Pod(
    nodeName: string,
    ownerKinds: seq<string>,
    phase: Phase,
    conditions: seq<Condition>,
    containers: seq<ResourceList>,
    initContainers: seq<ResourceList>,
    overhead: Option<ResourceList>)

  /** The options of a node group. `dryMode` is the disjunction of the controller-wide
      and the group's own flag; a duration that is not configured is 0. */
  datatype Options = Options(
    minNodes: int,
    maxNodes: int,
    dryMode: bool,
    scaleOnStarve: bool,
    taintLower: int,
    taintUpper: int,
    scaleUp: int,
    slowRate: int,
    fastRate: int,
    softGrace: int,
    hardGrace: int,
    maxNodeAge: int,
    unhealthyGrace: int,
    newestPercent: int,
    maxUnhealthyPercent: int,
    taintEffect: string)

  /** Kubernetes names are unique within the API server. */
  ghost predicate UniqueNames(ns: seq<Node>) {
    forall i, j :: 0 <= i < j < |ns| ==> ns[i].name != ns[j].name
  }

  function Names(ns: seq<Node>): set<string> {
    set n | n in ns :: n.name
  }

  /** The in-order remainder of a node list after the named nodes are gone. */
  function Without(ns: seq<Node>, gone: set<string>): (r: seq<Node>)
    ensures forall n :: n in r <==> n in ns && n.name !in gone
    ensures |r| <= |ns|
  {
    if ns == [] then []
    else
      var rest := Without(ns[..|ns| - 1], gone);
      var last := ns[|ns| - 1];
      assert ns == ns[..|ns| - 1] + [last];
      if last.name in gone then rest else rest + [last]
  }

  lemma {:induction false} WithoutUnique(ns: seq<Node>, gone: set<string>)
    requires UniqueNames(ns)
    ensures UniqueNames(Without(ns, gone))
  {
    if ns != [] {
      WithoutUnique(ns[..|ns| - 1], gone);
      forall n | n in Without(ns[..|ns| - 1], gone) ensures n.name != ns[|ns| - 1].name {
        var i :| 0 <= i < |ns| - 1 && ns[i] == n;
      }
    }
  }

  lemma {:induction false} WithoutSnoc(ns: seq<Node>, n: Node, gone: set<string>)
    ensures Without(ns + [n], gone) == if n.name in gone then Without(ns, gone) else Without(ns, gone) + [n]
  {
    assert (ns + [n])[..|ns|] == ns;
  }

  lemma {:induction false} WithoutLast(ns: seq<Node>, gone: set<string>)
    requires ns != []
    ensures |Without(ns, gone)| == |Without(ns[..|ns| - 1], gone)| + if ns[|ns| - 1].name in gone then 0 else 1
  {
  }

  /** The last node adds its own name to the others'. */
  lemma LastName(ns: seq<Node>)
    requires UniqueNames(ns) && ns != []
    ensures var init, last := ns[..|ns| - 1], ns[|ns| - 1];
            last.name !in Names(init) && Names(ns) == Names(init) + {last.name}
  {
    var init, last := ns[..|ns| - 1], ns[|ns| - 1];
    assert ns == init + [last];
    forall n | n in init ensures n.name != last.name {
      var i :| 0 <= i < |init| && init[i] == n;
      assert ns[i] == n;
    }
  }

  /** Dropping names that all occur removes exactly that many nodes. */
  lemma {:induction false} WithoutCount(ns: seq<Node>, gone: set<string>)
    requires UniqueNames(ns)
    ensures |Without(ns, gone)| == |ns| - |gone * Names(ns)|
  {
    if ns == [] {
      assert gone * Names(ns) == {};
    } else {
      var init, last := ns[..|ns| - 1], ns[|ns| - 1];
      WithoutCount(init, gone);
      LastName(ns);
      hide UniqueNames;
      hide Names;
      WithoutLast(ns, gone);
      hide Without;
      CommonGrows(gone, Names(init), last.name);
    }
  }

  lemma CommonGrows(gone: set<string>, names: set<string>, x: string)
    requires x !in names
    ensures |gone * (names + {x})| == |gone * names| + if x in gone then 1 else 0
  {
    if x in gone {
      assert gone * (names + {x}) == gone * names + {x};
    } else {
      assert gone * (names + {x}) == gone * names;
    }
  }

  lemma {:induction false} CountNames(ns: seq<Node>)
    requires UniqueNames(ns)
    ensures |Names(ns)| == |ns|
  {
    if ns != [] {
      CountNames(ns[..|ns| - 1]);
      LastName(ns);
      hide Names;
    }
  }

  lemma {:induction false} WithoutNothing(ns: seq<Node>, gone: set<string>)
    requires gone !! Names(ns)
    ensures Without(ns, gone) == ns
  {
    if ns != [] {
      var init, last := ns[..|ns| - 1], ns[|ns| - 1];
      assert last in ns;
      assert Names(init) <= Names(ns);
      WithoutNothing(init, gone);
      assert ns == init + [last];
    }
  }

  lemma {:induction false} WithoutTwice(ns: seq<Node>, a: set<string>, b: set<string>)
    ensures Without(Without(ns, a), b) == Without(ns, a + b)
  {
    if ns != [] {
      var init, last := ns[..|ns| - 1], ns[|ns| - 1];
      WithoutTwice(init, a, b);
      if last.name !in a {
        assert (Without(init, a) + [last])[..|Without(init, a)|] == Without(init, a);
      }
    }
  }

  lemma {:induction false} UniqueByName(ns: seq<Node>, m: Node, n: Node)
    requires UniqueNames(ns) && m in ns && n in ns && m.name == n.name
    ensures m == n
  {
    var i :| 0 <= i < |ns| && ns[i] == m;
    var j :| 0 <= j < |ns| && ns[j] == n;
    assert i == j;
  }
}
