/** Requests, capacity and the pod/node index (pkg/k8s/scheduler/types.go, pkg/k8s/util.go,
    pkg/k8s/node_state.go). The specifications are plain scans of the pod list. */
module Pods {
  import opened Cluster
  import opened Utilisation

  datatype Amount = Amount(cpu: int, memory: int)

  const NOTHING := Amount(0, 0)

  function Plus(a: Amount, b: ResourceList): Amount {
    Amount(a.cpu + b.cpu, a.memory + b.memory)
  }

  predicate Covers(a: Amount, b: Amount) {
    a.cpu >= b.cpu && a.memory >= b.memory
  }

  function AsAmount(r: ResourceList): Amount {
    Amount(r.cpu, r.memory)
  }

  // ---------- one pod's request ----------

  function SumOf(cs: seq<ResourceList>): (r: Amount)
    ensures r.cpu >= 0 && r.memory >= 0
  {
    if cs == [] then NOTHING else Plus(SumOf(cs[..|cs| - 1]), cs[|cs| - 1])
  }

  function Widest(start: Amount, cs: seq<ResourceList>): (r: Amount)
    ensures Covers(r, start)
  {
    if cs == [] then start
    else
      var w := Widest(start, cs[..|cs| - 1]);
      Amount(MaxInt(w.cpu, cs[|cs| - 1].cpu), MaxInt(w.memory, cs[|cs| - 1].memory))
  }

  /** What the pod needs while starting and while running, plus its overhead. */
  function Request(p: Pod): (r: Amount)
    ensures r.cpu >= 0 && r.memory >= 0
  {
    var running := Widest(SumOf(p.containers), p.initContainers);
    if p.overhead.Some? then Plus(running, p.overhead.value) else running
  }

  /** `Widest` is the least amount that covers its start and every list entry. */
  lemma {:induction false} WidestIsLeastCover(start: Amount, cs: seq<ResourceList>, other: Amount)
    ensures forall c :: c in cs ==> Covers(Widest(start, cs), AsAmount(c))
    ensures Covers(other, start) && (forall c :: c in cs ==> Covers(other, AsAmount(c)))
            <==> Covers(other, Widest(start, cs))
  {
    if cs != [] {
      var init, last := cs[..|cs| - 1], cs[|cs| - 1];
      WidestIsLeastCover(start, init, other);
      assert cs == init + [last];
      assert last in cs && forall c :: c in init ==> c in cs;
      assert Covers(other, Widest(start, cs)) <==> Covers(other, Widest(start, init)) && Covers(other, AsAmount(last));
    }
  }

  lemma {:induction false} SumAppend(a: seq<ResourceList>, b: seq<ResourceList>)
    ensures SumOf(a + b) == Amount(SumOf(a).cpu + SumOf(b).cpu, SumOf(a).memory + SumOf(b).memory)
  {
    if b == [] {
      assert a + b == a;
    } else {
      var init, last := b[..|b| - 1], b[|b| - 1];
      SumAppend(a, init);
      assert (a + b)[..|a + b| - 1] == a + init && (a + b)[|a + b| - 1] == last;
    }
  }

  /** What a pod requests, by its parts. The overhead comes on top of everything; a container more
      adds its request when there are no init containers; a pod of one container requests just that;
      and every init container, and the containers together, are covered with no more than needed. */
  lemma RequestMeans(p: Pod, c: ResourceList, other: Amount)
    ensures p.overhead.Some? ==>
            var bare := Request(p.(overhead := None));
            Request(p) == Amount(bare.cpu + p.overhead.value.cpu, bare.memory + p.overhead.value.memory)
    ensures p.overhead.None? && p.initContainers == [] && p.containers == [c] ==> Request(p) == Amount(c.cpu, c.memory)
    ensures p.overhead.None? && p.initContainers == [] ==>
            Request(p.(containers := p.containers + [c])) ==
              Amount(Request(p).cpu + c.cpu, Request(p).memory + c.memory)
    ensures p.overhead.None? ==>
            var all := Request(p.(initContainers := []));
            (Request(p).cpu <= other.cpu && Request(p).memory <= other.memory <==>
             && all.cpu <= other.cpu && all.memory <= other.memory
             && forall i :: i in p.initContainers ==> i.cpu <= other.cpu && i.memory <= other.memory)
  {
    assert p.containers == [c] ==> p.containers[..0] == [];
    SumAppend(p.containers, [c]);
    assert [c][..0] == [];
    WidestIsLeastCover(SumOf(p.containers), p.initContainers, other);
  }

  /** scheduler.Resource, whose fields the accumulating calls update. */
  class Resource {
    var milliCPU: int
    var memory: int

    constructor ()
      ensures Value() == NOTHING
    {
      milliCPU, memory := 0, 0;
    }

    function Value(): Amount
      reads this
    {
      Amount(milliCPU, memory)
    }

    method Add(r: ResourceList)
      modifies this
      ensures Value() == Plus(old(Value()), r)
    {
      milliCPU := milliCPU + r.cpu;
      memory := memory + r.memory;
    }

    method SetMaxResource(r: ResourceList)
      modifies this
      ensures Value() == Amount(MaxInt(old(milliCPU), r.cpu), MaxInt(old(memory), r.memory))
    {
      memory := MaxInt(memory, r.memory);
      milliCPU := MaxInt(milliCPU, r.cpu);
    }
  }

  method ComputePodResourceRequest(p: Pod) returns (r: Amount)
    ensures r == Request(p)
  {
    var acc := new Resource();
    for i := 0 to |p.containers|
      invariant acc.Value() == SumOf(p.containers[..i])
    {
      assert p.containers[..i + 1][..i] == p.containers[..i];
      acc.Add(p.containers[i]);
    }
    assert p.containers[..|p.containers|] == p.containers;
    for i := 0 to |p.initContainers|
      invariant acc.Value() == Widest(SumOf(p.containers), p.initContainers[..i])
    {
      assert p.initContainers[..i + 1][..i] == p.initContainers[..i];
      acc.SetMaxResource(p.initContainers[i]);
    }
    assert p.initContainers[..|p.initContainers|] == p.initContainers;
    if p.overhead.Some? {
      acc.Add(p.overhead.value);
    }
    r := acc.Value();
  }

  // ---------- totals ----------

  function TotalRequest(pods: seq<Pod>): (r: Amount)
    ensures r.cpu >= 0 && r.memory >= 0
  {
    if pods == [] then NOTHING
    else
      var t, q := TotalRequest(pods[..|pods| - 1]), Request(pods[|pods| - 1]);
      Amount(t.cpu + q.cpu, t.memory + q.memory)
  }

  function Capacity(ns: seq<Node>): Amount {
    if ns == [] then NOTHING
    else
      var t, n := Capacity(ns[..|ns| - 1]), ns[|ns| - 1];
      Amount(t.cpu + n.cpu, t.memory + n.memory)
  }

  /** Nodes of equal size have the capacity of one node, times how many there are. */
  lemma {:induction false} EqualCapacity(ns: seq<Node>, c: int, m: int)
    requires forall n :: n in ns ==> n.cpu == c && n.memory == m
    ensures Capacity(ns) == Amount(|ns| * c, |ns| * m)
  {
    if ns != [] {
      var k := |ns| - 1;
      EqualCapacity(ns[..k], c, m);
      assert ns[k] in ns;
      assert |ns| * c == k * c + c && |ns| * m == k * m + m;
    }
  }

  /** isPodScheduled: the first PodScheduled condition decides. */
  predicate Scheduled(cs: seq<Condition>) {
    cs != [] && (if cs[0].kind == "PodScheduled" then cs[0].status == "True" else Scheduled(cs[1..]))
  }

  predicate UsesNode(p: Pod) {
    Scheduled(p.conditions) && (p.phase == Pending || p.phase == Running)
  }

  /** The pods assigned to a node, in list order. */
  function PodsOn(pods: seq<Pod>, name: string): (r: seq<Pod>)
    ensures forall p :: p in r <==> p in pods && p.nodeName == name
  {
    if pods == [] then []
    else
      var rest, last := PodsOn(pods[..|pods| - 1], name), pods[|pods| - 1];
      assert pods == pods[..|pods| - 1] + [last];
      if last.nodeName == name then rest + [last] else rest
  }

  function Used(pods: seq<Pod>): Amount {
    if pods == [] then NOTHING
    else
      var t, p := Used(pods[..|pods| - 1]), pods[|pods| - 1];
      if UsesNode(p) then Amount(t.cpu + Request(p).cpu, t.memory + Request(p).memory) else t
  }

  /** Allocatable minus what the listed pods on the node use. */
  function Free(n: Node, pods: seq<Pod>): Amount {
    var u := Used(PodsOn(pods, n.name));
    Amount(n.cpu - u.cpu, n.memory - u.memory)
  }

  /** Some pending pod asks for more CPU, or more memory, than any of the nodes has free. */
  ghost predicate Starved(pods: seq<Pod>, ns: seq<Node>) {
    || (exists p :: p in pods && p.phase == Pending && Request(p).cpu > 0 &&
                    forall n :: n in ns ==> Request(p).cpu > Free(n, pods).cpu)
    || (exists p :: p in pods && p.phase == Pending && Request(p).memory > 0 &&
                    forall n :: n in ns ==> Request(p).memory > Free(n, pods).memory)
  }

  datatype PodUsage = PodUsage(total: Amount, largestPendingMemory: Amount, largestPendingCPU: Amount)
  datatype NodeCapacity = NodeCapacity(total: Amount, largestAvailableMemory: Amount, largestAvailableCPU: Amount)

  /** The largest pending requests: zero, or the request of a listed pending pod that no
      other pending pod exceeds. */
  ghost predicate PeakCpu(peak: Amount, pods: seq<Pod>) {
    && (peak == NOTHING || exists p :: p in pods && p.phase == Pending && Request(p) == peak && peak.cpu > 0)
    && forall p :: p in pods && p.phase == Pending ==> Request(p).cpu <= peak.cpu
  }

  ghost predicate PeakMemory(peak: Amount, pods: seq<Pod>) {
    && (peak == NOTHING || exists p :: p in pods && p.phase == Pending && Request(p) == peak && peak.memory > 0)
    && forall p :: p in pods && p.phase == Pending ==> Request(p).memory <= peak.memory
  }

  /** One more pod: the peak is replaced by a larger pending request, and kept otherwise. */
  lemma PeakCpuStep(peak: Amount, pods: seq<Pod>, p: Pod)
    requires PeakCpu(peak, pods)
    ensures PeakCpu(if p.phase == Pending && Request(p).cpu > peak.cpu then Request(p) else peak, pods + [p])
  {
    hide Request;
    assert p in pods + [p];
    assert forall q :: q in pods ==> q in pods + [p];
  }

  lemma PeakMemoryStep(peak: Amount, pods: seq<Pod>, p: Pod)
    requires PeakMemory(peak, pods)
    ensures PeakMemory(if p.phase == Pending && Request(p).memory > peak.memory then Request(p) else peak, pods + [p])
  {
    hide Request;
    assert p in pods + [p];
    assert forall q :: q in pods ==> q in pods + [p];
  }

  method CalculatePodsRequestedUsage(pods: seq<Pod>) returns (u: PodUsage)
    ensures u.total == TotalRequest(pods)
    ensures PeakCpu(u.largestPendingCPU, pods) && PeakMemory(u.largestPendingMemory, pods)
  {
    u := PodUsage(NOTHING, NOTHING, NOTHING);
    assert PeakCpu(NOTHING, pods[..0]) && PeakMemory(NOTHING, pods[..0]);
    hide PeakCpu;
    hide PeakMemory;
    hide Request;
    for i := 0 to |pods|
      invariant u.total == TotalRequest(pods[..i])
      invariant PeakCpu(u.largestPendingCPU, pods[..i]) && PeakMemory(u.largestPendingMemory, pods[..i])
    {
      var pod := pods[i];
      var r := ComputePodResourceRequest(pod);
      assert pods[..i + 1] == pods[..i] + [pod] && pods[..i + 1][..i] == pods[..i];
      PeakCpuStep(u.largestPendingCPU, pods[..i], pod);
      PeakMemoryStep(u.largestPendingMemory, pods[..i], pod);
      u := u.(total := Amount(u.total.cpu + r.cpu, u.total.memory + r.memory));
      if pod.phase == Pending {
        if r.memory > u.largestPendingMemory.memory {
          u := u.(largestPendingMemory := r);
        }
        if r.cpu > u.largestPendingCPU.cpu {
          u := u.(largestPendingCPU := r);
        }
      }
    }
    assert pods[..|pods|] == pods;
  }

  /** Hashes the pods by the node they are assigned to. */
  method MapPodsToNode(pods: seq<Pod>) returns (m: map<string, seq<Pod>>)
    ensures forall name :: (if name in m then m[name] else []) == PodsOn(pods, name)
  {
    m := map[];
    for i := 0 to |pods|
      invariant forall name :: (if name in m then m[name] else []) == PodsOn(pods[..i], name)
    {
      var name := pods[i].nodeName;
      assert pods[..i + 1][..i] == pods[..i];
      var val := if name in m then m[name] else [];
      m := m[name := val + [pods[i]]];
    }
    assert pods[..|pods|] == pods;
  }

  method NodeAvailableResources(n: Node, mapped: map<string, seq<Pod>>, ghost pods: seq<Pod>) returns (free: Amount)
    requires (if n.name in mapped then mapped[n.name] else []) == PodsOn(pods, n.name)
    ensures free == Free(n, pods)
  {
    var mine := if n.name in mapped then mapped[n.name] else [];
    var used := NOTHING;
    for i := 0 to |mine|
      invariant used == Used(mine[..i])
    {
      assert mine[..i + 1][..i] == mine[..i];
      if UsesNode(mine[i]) {
        var r := ComputePodResourceRequest(mine[i]);
        used := Amount(used.cpu + r.cpu, used.memory + r.memory);
      }
    }
    assert mine[..|mine|] == mine;
    free := Amount(n.cpu - used.cpu, n.memory - used.memory);
  }

  /** The best free amounts: never below zero, and attained unless zero. */
  ghost predicate RoomCpu(room: int, ns: seq<Node>, pods: seq<Pod>) {
    && room >= 0
    && (room > 0 ==> exists n :: n in ns && Free(n, pods).cpu == room)
    && forall n :: n in ns ==> Free(n, pods).cpu <= room
  }

  ghost predicate RoomMemory(room: int, ns: seq<Node>, pods: seq<Pod>) {
    && room >= 0
    && (room > 0 ==> exists n :: n in ns && Free(n, pods).memory == room)
    && forall n :: n in ns ==> Free(n, pods).memory <= room
  }

  lemma {:induction false} CapacitySnoc(ns: seq<Node>, n: Node)
    ensures Capacity(ns + [n]) == Amount(Capacity(ns).cpu + n.cpu, Capacity(ns).memory + n.memory)
  {
    assert (ns + [n])[..|ns|] == ns;
  }

  /** One more node: the room is replaced by a larger free amount, and kept otherwise. */
  lemma RoomCpuStep(room: int, ns: seq<Node>, pods: seq<Pod>, n: Node)
    requires RoomCpu(room, ns, pods)
    ensures RoomCpu(MaxInt(room, Free(n, pods).cpu), ns + [n], pods)
  {
    hide Free;
    assert n in ns + [n];
    assert forall m :: m in ns ==> m in ns + [n];
  }

  lemma RoomMemoryStep(room: int, ns: seq<Node>, pods: seq<Pod>, n: Node)
    requires RoomMemory(room, ns, pods)
    ensures RoomMemory(MaxInt(room, Free(n, pods).memory), ns + [n], pods)
  {
    hide Free;
    assert n in ns + [n];
    assert forall m :: m in ns ==> m in ns + [n];
  }

  method CalculateNodesCapacity(ns: seq<Node>, pods: seq<Pod>) returns (c: NodeCapacity)
    ensures c.total == Capacity(ns)
    ensures RoomCpu(c.largestAvailableCPU.cpu, ns, pods)
    ensures RoomMemory(c.largestAvailableMemory.memory, ns, pods)
  {
    c := NodeCapacity(NOTHING, NOTHING, NOTHING);
    var mapped := MapPodsToNode(pods);
    assert RoomCpu(0, ns[..0], pods) && RoomMemory(0, ns[..0], pods) && Capacity(ns[..0]) == NOTHING;
    hide RoomCpu;
    hide RoomMemory;
    hide Free;
    hide PodsOn;
    hide Capacity;
    for i := 0 to |ns|
      invariant c.total == Capacity(ns[..i])
      invariant RoomCpu(c.largestAvailableCPU.cpu, ns[..i], pods)
      invariant RoomMemory(c.largestAvailableMemory.memory, ns[..i], pods)
    {
      var n := ns[i];
      assert ns[..i + 1] == ns[..i] + [n];
      CapacitySnoc(ns[..i], n);
      c := c.(total := Amount(c.total.cpu + n.cpu, c.total.memory + n.memory));
      var free := NodeAvailableResources(n, mapped, pods);
      RoomCpuStep(c.largestAvailableCPU.cpu, ns[..i], pods, n);
      RoomMemoryStep(c.largestAvailableMemory.memory, ns[..i], pods, n);
      if free.cpu > c.largestAvailableCPU.cpu {
        c := c.(largestAvailableCPU := free);
      }
      if free.memory > c.largestAvailableMemory.memory {
        c := c.(largestAvailableMemory := free);
      }
    }
    assert ns[..|ns|] == ns;
  }

  /** isScaleOnStarve compares two running maxima; this is what that comparison means. */
  lemma StarvationCharacterised(pods: seq<Pod>, ns: seq<Node>, u: PodUsage, c: NodeCapacity)
    requires PeakCpu(u.largestPendingCPU, pods) && PeakMemory(u.largestPendingMemory, pods)
    requires RoomCpu(c.largestAvailableCPU.cpu, ns, pods) && RoomMemory(c.largestAvailableMemory.memory, ns, pods)
    ensures Starved(pods, ns) <==>
            || (u.largestPendingCPU != NOTHING && u.largestPendingCPU.cpu > c.largestAvailableCPU.cpu)
            || (u.largestPendingMemory != NOTHING && u.largestPendingMemory.memory > c.largestAvailableMemory.memory)
  {
  }

  method IsScaleOnStarve(o: Options, pods: seq<Pod>, u: PodUsage, c: NodeCapacity, untainted: seq<Node>)
      returns (starved: bool)
    requires PeakCpu(u.largestPendingCPU, pods) && PeakMemory(u.largestPendingMemory, pods)
    requires RoomCpu(c.largestAvailableCPU.cpu, untainted, pods)
    requires RoomMemory(c.largestAvailableMemory.memory, untainted, pods)
    ensures starved <==> o.scaleOnStarve && |untainted| < o.maxNodes && Starved(pods, untainted)
  {
    StarvationCharacterised(pods, untainted, u, c);
    starved := o.scaleOnStarve &&
    ((u.largestPendingCPU != NOTHING && u.largestPendingCPU.cpu > c.largestAvailableCPU.cpu) ||
     (u.largestPendingMemory != NOTHING && u.largestPendingMemory.memory > c.largestAvailableMemory.memory)) &&
    |untainted| < o.maxNodes;
  }

  // ---------- the sums, by their parts ----------

  /** Totals, capacity and use add up over concatenation, and the pods of a node are found part by
      part, in order. */
  lemma {:induction false} TotalsAppend(a: seq<Pod>, b: seq<Pod>)
    ensures TotalRequest(a + b) ==
            Amount(TotalRequest(a).cpu + TotalRequest(b).cpu, TotalRequest(a).memory + TotalRequest(b).memory)
    ensures Used(a + b) == Amount(Used(a).cpu + Used(b).cpu, Used(a).memory + Used(b).memory)
  {
    hide Request;
    hide UsesNode;
    if b == [] {
      assert a + b == a;
    } else {
      var init, last := b[..|b| - 1], b[|b| - 1];
      TotalsAppend(a, init);
      assert (a + b)[..|a + b| - 1] == a + init && (a + b)[|a + b| - 1] == last;
    }
  }

  lemma {:induction false} CapacityAppend(a: seq<Node>, b: seq<Node>)
    ensures Capacity(a + b) == Amount(Capacity(a).cpu + Capacity(b).cpu, Capacity(a).memory + Capacity(b).memory)
  {
    if b == [] {
      assert a + b == a;
    } else {
      var init, last := b[..|b| - 1], b[|b| - 1];
      CapacityAppend(a, init);
      assert (a + b)[..|a + b| - 1] == a + init && (a + b)[|a + b| - 1] == last;
    }
  }

  lemma PodsOnSnoc(pods: seq<Pod>, p: Pod, name: string)
    ensures PodsOn(pods + [p], name) == if p.nodeName == name then PodsOn(pods, name) + [p] else PodsOn(pods, name)
  {
    assert (pods + [p])[..|pods|] == pods;
  }

  lemma {:induction false} PodsOnAppend(a: seq<Pod>, b: seq<Pod>, name: string)
    ensures PodsOn(a + b, name) == PodsOn(a, name) + PodsOn(b, name)
  {
    if b == [] {
      assert a + b == a && |PodsOn(b, name)| == 0;
    } else {
      var init, last := b[..|b| - 1], b[|b| - 1];
      PodsOnAppend(a, init, name);
      hide PodsOn;
      assert b == init + [last];
      PodsOnAppendOne(a, init, last, name);
    }
  }

  lemma PodsOnAppendOne(a: seq<Pod>, b: seq<Pod>, p: Pod, name: string)
    requires PodsOn(a + b, name) == PodsOn(a, name) + PodsOn(b, name)
    ensures PodsOn(a + (b + [p]), name) == PodsOn(a, name) + PodsOn(b + [p], name)
  {
    hide PodsOn;
    PodsOnSnoc(a + b, p, name);
    PodsOnSnoc(b, p, name);
    PodsAssociate(a, b, [p]);
    if p.nodeName == name {
      PodsAssociate(PodsOn(a, name), PodsOn(b, name), [p]);
    }
  }

  lemma PodsAssociate(a: seq<Pod>, b: seq<Pod>, c: seq<Pod>)
    ensures a + (b + c) == (a + b) + c
  {
  }

  /** One pod alone: it is requested; it uses its node's resources exactly when it is pending or
      running and its first PodScheduled condition says so; and one node alone has its own size. */
  lemma OneOfEach(p: Pod, n: Node)
    ensures TotalRequest([p]) == Request(p) && Capacity([n]) == Amount(n.cpu, n.memory)
    ensures Used([p]) ==
            if (p.phase == Pending || p.phase == Running)
               && exists i :: 0 <= i < |p.conditions| && p.conditions[i].kind == "PodScheduled"
                              && p.conditions[i].status == "True"
                              && forall j :: 0 <= j < i ==> p.conditions[j].kind != "PodScheduled"
            then Request(p) else Amount(0, 0)
  {
    ScheduledMeans(p.conditions);
    hide Scheduled;
    hide Request;
    assert [p][..0] == [] && [n][..0] == [];
    assert Used([]) == NOTHING && TotalRequest([]) == NOTHING && Capacity([]) == NOTHING;
  }

  /** What is free on a node: its own size, less every pod of it that uses it, one by one. */
  lemma FreeMeans(n: Node, pods: seq<Pod>, p: Pod)
    ensures Free(n, []) == Amount(n.cpu, n.memory)
    ensures p.nodeName != n.name ==> Free(n, pods + [p]) == Free(n, pods)
    ensures p.nodeName == n.name ==>
            Free(n, pods + [p]) ==
            Amount(Free(n, pods).cpu - Used([p]).cpu, Free(n, pods).memory - Used([p]).memory)
  {
    NothingUsed(n.name);
    PodsOnSnoc(pods, p, n.name);
    TotalsAppend(PodsOn(pods, n.name), [p]);
    hide PodsOn;
    hide Used;
  }

  lemma NothingUsed(name: string)
    ensures PodsOn([], name) == [] && Used([]) == NOTHING
  {
  }

  lemma {:induction false} ScheduledMeans(cs: seq<Condition>)
    ensures Scheduled(cs) <==>
            exists i :: 0 <= i < |cs| && cs[i].kind == "PodScheduled" && cs[i].status == "True"
                        && forall j :: 0 <= j < i ==> cs[j].kind != "PodScheduled"
  {
    if cs != [] {
      ScheduledMeans(cs[1..]);
      if cs[0].kind != "PodScheduled" {
        if Scheduled(cs) {
          var i :| 0 <= i < |cs[1..]| && cs[1..][i].kind == "PodScheduled" && cs[1..][i].status == "True"
                   && forall j :: 0 <= j < i ==> cs[1..][j].kind != "PodScheduled";
          assert cs[i + 1] == cs[1..][i];
          assert forall j :: 1 <= j < i + 1 ==> cs[j] == cs[1..][j - 1];
        }
        if i :| 0 <= i < |cs| && cs[i].kind == "PodScheduled" && cs[i].status == "True"
                && forall j :: 0 <= j < i ==> cs[j].kind != "PodScheduled" {
          assert cs[1..][i - 1] == cs[i];
          assert forall j :: 0 <= j < i - 1 ==> cs[1..][j] == cs[j + 1];
        }
      }
    }
  }

  // ---------- the node index ----------

  datatype NodeInfo = NodeInfo(node: Option<Node>, pods: seq<Pod>)

  type Index = map<string, NodeInfo>

  predicate IsDaemonSet(p: Pod) {
    "DaemonSet" in p.ownerKinds
  }

  /** How many pods of the list are not owned by a daemonset. */
  function Remaining(pods: seq<Pod>): (r: nat)
    ensures r == 0 <==> forall p :: p in pods ==> IsDaemonSet(p)
  {
    if pods == [] then 0
    else
      assert pods == pods[..|pods| - 1] + [pods[|pods| - 1]];
      Remaining(pods[..|pods| - 1]) + if IsDaemonSet(pods[|pods| - 1]) then 0 else 1
  }

  /** No listed pod on the node, other than daemonset pods. */
  predicate EmptyNode(pods: seq<Pod>, name: string) {
    Remaining(PodsOn(pods, name)) == 0
  }

  /** A node is empty when every listed pod assigned to it is owned by a daemonset. */
  lemma EmptyMeans(pods: seq<Pod>, name: string)
    ensures EmptyNode(pods, name) <==>
            forall p :: p in pods && p.nodeName == name ==> "DaemonSet" in p.ownerKinds
  {
  }

  /** The index answers exactly what a scan of both lists answers. */
  ghost predicate Indexes(index: Index, pods: seq<Pod>, ns: seq<Node>) {
    && index.Keys == Names(ns)
    && forall n :: n in ns ==> n.name in index && index[n.name] == NodeInfo(Some(n), PodsOn(pods, n.name))
  }

  ghost predicate PodsIndexed(index: Index, pods: seq<Pod>) {
    forall k :: (if k in index then index[k].pods else []) == PodsOn(pods, k)
  }

  method IndexPods(pods: seq<Pod>) returns (index: Index)
    ensures PodsIndexed(index, pods)
    ensures forall k :: k in index ==> index[k].node.None?
  {
    index := map[];
    for i := 0 to |pods|
      invariant PodsIndexed(index, pods[..i])
      invariant forall k :: k in index ==> index[k].node.None?
    {
      var name := pods[i].nodeName;
      assert pods[..i + 1][..i] == pods[..i];
      if name !in index {
        index := index[name := NodeInfo(None, [])];
      }
      index := index[name := index[name].(pods := index[name].pods + [pods[i]])];
    }
    assert pods[..|pods|] == pods;
  }

  method CreateNodeNameToInfoMap(pods: seq<Pod>, ns: seq<Node>) returns (index: Index)
    requires UniqueNames(ns)
    ensures Indexes(index, pods, ns)
  {
    index := IndexPods(pods);
    for i := 0 to |ns|
      invariant PodsIndexed(index, pods)
      invariant forall j :: 0 <= j < i ==> ns[j].name in index && index[ns[j].name].node == Some(ns[j])
      invariant forall k :: k in index && index[k].node.Some? ==> k in Names(ns)
    {
      var name := ns[i].name;
      assert ns[i] in ns;
      if name !in index {
        index := index[name := NodeInfo(None, [])];
      }
      index := index[name := index[name].(node := Some(ns[i]))];
    }
    // pods whose node is not listed leave entries without a node
    var full := index;
    index := map k | k in full && full[k].node.Some? :: full[k];
    ListedEntries(full, index, pods, ns);
  }

  /** The entries with a node are an index of the listed nodes. */
  lemma ListedEntries(full: Index, index: Index, pods: seq<Pod>, ns: seq<Node>)
    requires PodsIndexed(full, pods) && index == map k | k in full && full[k].node.Some? :: full[k]
    requires forall j :: 0 <= j < |ns| ==> ns[j].name in full && full[ns[j].name].node == Some(ns[j])
    requires forall k :: k in full && full[k].node.Some? ==> k in Names(ns)
    ensures Indexes(index, pods, ns)
  {
    forall n | n in ns ensures n.name in index && index[n.name] == NodeInfo(Some(n), PodsOn(pods, n.name)) {
      var j :| 0 <= j < |ns| && ns[j] == n;
      assert n.name in full && full[n.name].node == Some(ns[j]);
    }
    assert index.Keys == Names(ns);
  }

  /** The pods left on a node, or None for a node that is not in the index. */
  method NodePodsRemaining(n: Node, index: Index) returns (r: Option<nat>)
    ensures r == if n.name in index then Some(Remaining(index[n.name].pods)) else None
  {
    if n.name !in index {
      return None;
    }
    var count := CountRemaining(index[n.name].pods);
    r := Some(count);
  }

  method CountRemaining(ps: seq<Pod>) returns (count: nat)
    ensures count == Remaining(ps)
  {
    count := 0;
    for i := 0 to |ps|
      invariant count == Remaining(ps[..i])
    {
      assert ps[..i + 1][..i] == ps[..i];
      if !IsDaemonSet(ps[i]) {
        count := count + 1;
      }
    }
    assert ps[..|ps|] == ps;
  }

  /** NodeEmpty through the index is the scan of the pod list. */
  method NodeEmpty(n: Node, index: Index, ghost pods: seq<Pod>, ghost ns: seq<Node>) returns (empty: bool)
    requires Indexes(index, pods, ns) && n in ns
    ensures empty <==> EmptyNode(pods, n.name)
  {
    var left := NodePodsRemaining(n, index);
    empty := left == Some(0);
  }
}
