/** The AWS node group (pkg/cloudprovider/aws/aws.go).

    The cached description of the auto-scaling group is what `Refresh` last read; the size
    getters and the bounds use only it. The real group changes with every call. */
module Cloud {
  import opened Cluster
  import opened Taints

  /** How many instances one AttachInstances call takes, and one TerminateInstances call. */
  const ATTACH_BATCH: nat := 20
  const TERMINATE_BATCH: nat := 1000

  /** How many one-shot scale-ups may fail in a row. */
  const MAX_TERMINATE_TRIES: nat := 3

  datatype Instance = Instance(zone: string, id: string)

  function ProviderId(i: Instance): string {
    "aws:///" + i.zone + "/" + i.id
  }

  datatype Description = Description(minSize: int, maxSize: int, target: int, instances: seq<Instance>)

  /** The node group: cached description, real desired capacity and live instance ids, the
      scaling strategy, and the number of consecutive failed one-shot scale-ups. */
  datatype Group = Group(cached: Description, desired: int, live: set<string>, oneShot: bool, tries: nat)

  // ---------- deleting nodes ----------

  function ProviderIds(d: Description): seq<string> {
    seq(|d.instances|, i requires 0 <= i < |d.instances| => ProviderId(d.instances[i]))
  }

  predicate Belongs(d: Description, n: Node) {
    n.providerId in ProviderIds(d)
  }

  function FirstWith(instances: seq<Instance>, providerId: string): (r: nat)
    ensures r <= |instances|
    ensures r < |instances| ==> ProviderId(instances[r]) == providerId
    ensures forall i :: 0 <= i < r ==> ProviderId(instances[i]) != providerId
  {
    if instances == [] || ProviderId(instances[0]) == providerId then 0
    else 1 + FirstWith(instances[1..], providerId)
  }

  lemma BelongsIsFound(d: Description, n: Node)
    ensures Belongs(d, n) <==> FirstWith(d.instances, n.providerId) < |d.instances|
  {
    var r := FirstWith(d.instances, n.providerId);
    if r < |d.instances| {
      assert ProviderIds(d)[r] == n.providerId;
    } else {
      assert forall i :: 0 <= i < |d.instances| ==> ProviderIds(d)[i] != n.providerId;
    }
  }

  /** The instance id that is terminated for a node of the group: of the first instance with the
      node's provider id. */
  function InstanceFor(d: Description, n: Node): (id: string)
    ensures forall i :: 0 <= i < |d.instances| && ProviderId(d.instances[i]) == n.providerId
                        && (forall j :: 0 <= j < i ==> ProviderId(d.instances[j]) != n.providerId)
              ==> id == d.instances[i].id
  {
    var i := FirstWith(d.instances, n.providerId);
    if i < |d.instances| then d.instances[i].id else ""
  }

  function Outsiders(d: Description, request: seq<Node>): set<string> {
    set n | n in request && !Belongs(d, n) :: n.name
  }

  /** The size guards of one DeleteNodes call, against the cached target. */
  predicate MayDelete(d: Description, count: nat) {
    d.target > d.minSize && d.target - count >= d.minSize
  }

  /** How many leading nodes of the request are terminated. */
  function Terminated(d: Description, request: seq<Node>, failing: set<string>): (k: nat)
    ensures k <= |request|
  {
    if MayDelete(d, |request|) then DeletedPrefix(request, failing + Outsiders(d, request)) else 0
  }

  function AfterTerminating(g: Group, nodes: seq<Node>): Group {
    g.(desired := g.desired - |nodes|, live := g.live - set n | n in nodes :: InstanceFor(g.cached, n))
  }

  /** What one DeleteNodes call may do: it never terminates more than the room above the
      minimum, every terminated node belongs to the group, and it reports success only when
      the whole request was terminated. */
  lemma TerminatedIsSafe(d: Description, request: seq<Node>, failing: set<string>)
    requires request != []
    ensures var k := Terminated(d, request, failing);
            && (k > 0 ==> k <= d.target - d.minSize)
            && forall i :: 0 <= i < k ==> Belongs(d, request[i]) && request[i].name !in failing
  {
    var k := Terminated(d, request, failing);
    forall i | 0 <= i < k ensures Belongs(d, request[i]) {
      assert request[i] in request;
    }
  }

  // ---------- adding nodes ----------

  /** What AWS answers to a one-shot scale-up: no fleet, or instance ids that do or do not
      become ready in time, and the attach batch that fails, if any. */
  datatype AttachFailure = NoFailure | FailsAt(batch: nat)

  datatype FleetAnswer = NoFleet | Fleet(ids: seq<string>, ready: bool, failure: AttachFailure)

  datatype Answer = Answer(setDesiredOk: bool, fleet: FleetAnswer)

  /** Batch `b` of a list of `n` ids is sent. The last batch is sent even if it is empty. */
  predicate BatchSent(n: nat, b: nat) {
    b == 0 || ATTACH_BATCH * b < n
  }

  /** How many leading ids are attached before the failing batch. */
  function AttachedCount(n: nat, ready: bool, failure: AttachFailure): (k: nat)
    ensures k <= n
  {
    if !ready then 0
    else if failure.FailsAt? && BatchSent(n, failure.batch) then ATTACH_BATCH * failure.batch
    else n
  }

  predicate AttachOk(n: nat, ready: bool, failure: AttachFailure) {
    ready && !(failure.FailsAt? && BatchSent(n, failure.batch))
  }

  function Elements(ids: seq<string>): set<string> {
    set x | x in ids
  }

  function AfterAttach(g: Group, ids: seq<string>, ready: bool, failure: AttachFailure): Group {
    var k := AttachedCount(|ids|, ready, failure);
    var tries := if AttachOk(|ids|, ready, failure) then 0 else if k == |ids| then g.tries else g.tries + 1;
    g.(desired := g.desired + k, live := g.live + Elements(ids[..k]), tries := tries)
  }

  predicate IncreaseOk(g: Group, delta: int, a: Answer) {
    && delta > 0 && g.cached.target + delta <= g.cached.maxSize
    && if g.oneShot then a.fleet.Fleet? && AttachOk(|a.fleet.ids|, a.fleet.ready, a.fleet.failure) else a.setDesiredOk
  }

  function AfterIncrease(g: Group, delta: int, a: Answer): Group {
    if delta <= 0 || g.cached.target + delta > g.cached.maxSize then g
    else if g.oneShot then
      if a.fleet.NoFleet? then g else AfterAttach(g, a.fleet.ids, a.fleet.ready, a.fleet.failure)
    else if a.setDesiredOk then g.(desired := g.cached.target + delta)
    else g
  }

  function Flatten(batches: seq<seq<string>>): seq<string> {
    if batches == [] then [] else Flatten(batches[..|batches| - 1]) + batches[|batches| - 1]
  }

  function MinNat(a: nat, b: nat): nat {
    if a < b then a else b
  }

  class NodeGroup {
    var asg: Description
    var desired: int
    var live: set<string>
    const oneShot: bool
    var terminateInstancesTries: nat
    var fatal: bool

    function View(): Group
      reads this
    {
      Group(asg, desired, live, oneShot, terminateInstancesTries)
    }

    constructor (g: Group)
      ensures View() == g && !fatal
    {
      asg, desired, live, oneShot, terminateInstancesTries, fatal := g.cached, g.desired, g.live, g.oneShot, g.tries,
        false;
    }

    method BelongsTo(n: Node) returns (r: bool)
      ensures r == Belongs(asg, n)
    {
      var ids := ProviderIds(asg);
      for i := 0 to |ids|
        invariant n.providerId !in ids[..i]
      {
        if ids[i] == n.providerId {
          return true;
        }
      }
      assert ids[..|ids|] == ids;
      return false;
    }

    /** The id of the first instance with the node's provider id. */
    method FindInstance(n: Node) returns (id: string)
      requires Belongs(asg, n)
      ensures id == InstanceFor(asg, n)
      ensures exists i :: 0 <= i < |asg.instances| && ProviderId(asg.instances[i]) == n.providerId
                          && id == asg.instances[i].id
                          && forall j :: 0 <= j < i ==> ProviderId(asg.instances[j]) != n.providerId
    {
      BelongsIsFound(asg, n);
      var i := 0;
      while ProviderId(asg.instances[i]) != n.providerId
        invariant 0 <= i <= FirstWith(asg.instances, n.providerId)
        decreases |asg.instances| - i
      {
        i := i + 1;
      }
      id := asg.instances[i].id;
    }

    /** Terminates the instance of one node, if the node belongs here and the call succeeds. */
    method TerminateOne(n: Node, failing: set<string>) returns (ok: bool)
      modifies this`desired, this`live
      ensures ok <==> Belongs(asg, n) && n.name !in failing
      ensures ok ==> desired == old(desired) - 1 && live == old(live) - {InstanceFor(asg, n)}
      ensures !ok ==> desired == old(desired) && live == old(live)
    {
      var mine := BelongsTo(n);
      if !mine || n.name in failing {
        return false;
      }
      var id := FindInstance(n);
      desired := desired - 1;
      live := live - {id};
      return true;
    }

    /** DeleteNodes: the size guards, then the terminations. */
    method DeleteNodes(request: seq<Node>, failing: set<string>) returns (ok: bool, terminated: nat)
      requires UniqueNames(request)
      modifies this`desired, this`live
      ensures terminated == Terminated(asg, request, failing)
      ensures ok <==> MayDelete(asg, |request|) && terminated == |request|
      ensures View() == AfterTerminating(old(View()), request[..terminated])
    {
      NoneTerminated(View(), request);
      if asg.target <= asg.minSize {
        return false, 0;
      }
      if asg.target - |request| < asg.minSize {
        return false, 0;
      }
      hide AfterTerminating;
      terminated := TerminateAll(request, failing);
      ok := terminated == |request|;
    }

    /** Terminates in request order, up to the first failure. */
    method TerminateAll(request: seq<Node>, failing: set<string>) returns (terminated: nat)
      requires UniqueNames(request)
      modifies this`desired, this`live
      ensures terminated == DeletedPrefix(request, failing + Outsiders(asg, request))
      ensures View() == AfterTerminating(old(View()), request[..terminated])
    {
      terminated := 0;
      ghost var refused := failing + Outsiders(asg, request);
      ghost var before := View();
      NoneTerminated(before, request);
      hide Outsiders;
      hide Belongs;
      hide InstanceFor;
      hide UniqueNames;
      hide AfterTerminating;
      hide DeletedPrefix;
      while terminated < |request|
        invariant 0 <= terminated <= |request|
        invariant View() == AfterTerminating(before, request[..terminated])
        invariant DeletedPrefix(request, refused) == terminated + DeletedPrefix(request[terminated..], refused)
      {
        TerminationStep(before, request, failing, terminated);
        var gone := TerminateOne(request[terminated], failing);
        if !gone {
          return;
        }
        terminated := terminated + 1;
      }
    }

    method IncreaseSize(delta: int, a: Answer) returns (ok: bool)
      modifies this
      ensures ok <==> IncreaseOk(old(View()), delta, a)
      ensures View() == AfterIncrease(old(View()), delta, a)
      ensures asg == old(asg)
    {
      if delta <= 0 {
        return false;
      }
      if asg.target + delta > asg.maxSize {
        return false;
      }
      if oneShot {
        if a.fleet.NoFleet? {
          return false;
        }
        var attached, orphans;
        ok, attached, orphans := AttachInstancesToASG(a.fleet.ids, a.fleet.ready, a.fleet.failure);
        return ok;
      }
      if a.setDesiredOk {
        desired := asg.target + delta;
      }
      return a.setDesiredOk;
    }

    /** Attaches the instances twenty at a time. Whatever the answer, the attached batches and
        the list handed to termination split the instances, each once. */
    method AttachInstancesToASG(instances: seq<string>, ready: bool, failure: AttachFailure)
        returns (ok: bool, attached: seq<seq<string>>, orphans: seq<string>)
      modifies this
      ensures ok <==> AttachOk(|instances|, ready, failure)
      ensures View() == AfterAttach(old(View()), instances, ready, failure)
      ensures Flatten(attached) == instances[..AttachedCount(|instances|, ready, failure)]
      ensures multiset(Flatten(attached)) + multiset(orphans) == multiset(instances)
      ensures ok ==> Flatten(attached) == instances && orphans == []
      ensures forall b :: b in attached ==> |b| <= 20
      ensures ready && !ok ==> failure.FailsAt? && |Flatten(attached)| == 20 * failure.batch
      ensures asg == old(asg)
    {
      if !ready {
        var calls := TerminateOrphanedInstances(instances);
        assert multiset(Flatten([])) + multiset(instances) == multiset(instances);
        return false, [], instances;
      }
      ok, attached, orphans := AttachBatches(instances, failure);
      if ok {
        terminateInstancesTries := 0;
      } else {
        var calls := TerminateOrphanedInstances(orphans);
      }
    }

    /** The attach calls up to the first failing one. */
    method AttachBatches(instances: seq<string>, failure: AttachFailure)
        returns (ok: bool, attached: seq<seq<string>>, orphans: seq<string>)
      modifies this`desired, this`live
      ensures ok <==> AttachOk(|instances|, true, failure)
      ensures var k := AttachedCount(|instances|, true, failure);
              && Flatten(attached) == instances[..k]
              && desired == old(desired) + k && live == old(live) + Elements(instances[..k])
              && |orphans| == |instances| - k
      ensures multiset(Flatten(attached)) + multiset(orphans) == multiset(instances)
      ensures forall b :: b in attached ==> |b| <= ATTACH_BATCH
    {
      var failed, rest;
      failed, attached, rest := AttachFullBatches(instances, failure);
      if failed || failure == FailsAt(|attached|) {
        StopsAt(instances, attached, rest, failure);
        return false, attached, rest;
      }
      GoesThrough(instances, attached, rest, failure);
      AttachBatch(rest);
      return true, attached + [rest], [];
    }

    /** The batches of twenty, while more than twenty instances are left. On a failure the
        failing batch goes behind the instances not yet tried. */
    method AttachFullBatches(instances: seq<string>, failure: AttachFailure)
        returns (failed: bool, attached: seq<seq<string>>, rest: seq<string>)
      modifies this`desired, this`live
      ensures Batched(instances, attached)
      ensures desired == old(desired) + ATTACH_BATCH * |attached|
              && live == old(live) + Elements(instances[..ATTACH_BATCH * |attached|])
      ensures failure.FailsAt? ==> failure.batch >= |attached|
      ensures failed ==> failure == FailsAt(|attached|) && Requeued(instances[ATTACH_BATCH * |attached|..], rest)
      ensures !failed ==> |rest| <= ATTACH_BATCH && rest == instances[ATTACH_BATCH * |attached|..]
    {
      attached, rest, failed := [], instances, false;
      assert Batched(instances, []);
      hide Batched;
      while ATTACH_BATCH < |rest|
        invariant Batched(instances, attached) && ATTACH_BATCH * |attached| <= |instances|
        invariant rest == instances[ATTACH_BATCH * |attached|..]
        invariant desired == old(desired) + ATTACH_BATCH * |attached|
                  && live == old(live) + Elements(instances[..ATTACH_BATCH * |attached|])
        invariant failure.FailsAt? ==> failure.batch >= |attached|
      {
        var batch := rest[..ATTACH_BATCH];
        if failure == FailsAt(|attached|) {
          return true, attached, rest[ATTACH_BATCH..] + batch;
        }
        BatchOneMore(instances, attached, rest);
        AttachBatch(batch);
        rest := rest[ATTACH_BATCH..];
        attached := attached + [batch];
      }
    }

    /** One AttachInstances call: AWS grows the desired capacity by the batch. */
    method AttachBatch(batch: seq<string>)
      modifies this`desired, this`live
      ensures desired == old(desired) + |batch| && live == old(live) + Elements(batch)
    {
      desired := desired + |batch|;
      live := live + Elements(batch);
    }

    /** terminateOrphanedInstances. The id list is not cleared between calls, so call `k` repeats
        everything before it: every id is covered, and the last call names them all. */
    method TerminateOrphanedInstances(instances: seq<string>) returns (calls: seq<seq<string>>)
      modifies this`terminateInstancesTries, this`fatal
      ensures terminateInstancesTries == if instances == [] then old(terminateInstancesTries)
              else old(terminateInstancesTries) + 1
      ensures fatal <==> old(fatal) || (instances != [] && terminateInstancesTries >= 3)
      ensures calls == TerminateCalls(instances)
    {
      calls := [];
      if |instances| == 0 {
        return;
      }
      var ids: seq<string> := [];
      var i := 0;
      while i < |instances|
        invariant i == TERMINATE_BATCH * |calls|
        invariant ids == instances[..MinNat(i, |instances|)]
        invariant |calls| <= CallCount(|instances|)
        invariant forall k :: 0 <= k < |calls| ==>
          calls[k] == instances[..MinNat(TERMINATE_BATCH * (k + 1), |instances|)]
      {
        var batch := instances[i..MinNat(i + TERMINATE_BATCH, |instances|)];
        ids := ids + batch;
        calls := calls + [ids];
        i := i + TERMINATE_BATCH;
      }
      terminateInstancesTries := terminateInstancesTries + 1;
      if terminateInstancesTries >= MAX_TERMINATE_TRIES {
        fatal := true;
      }
    }
  }

  lemma NoneTerminated(g: Group, request: seq<Node>)
    ensures AfterTerminating(g, request[..0]) == g
  {
    assert request[..0] == [];
  }

  lemma PrefixStep(request: seq<Node>, refused: set<string>, k: nat)
    requires k < |request|
    ensures DeletedPrefix(request[k..], refused) ==
            if request[k].name in refused then 0 else 1 + DeletedPrefix(request[k + 1..], refused)
  {
    assert request[k..][1..] == request[k + 1..];
  }

  lemma TerminateOneMore(g: Group, request: seq<Node>, k: nat)
    requires k < |request|
    ensures var one := AfterTerminating(g, request[..k]);
            AfterTerminating(g, request[..k + 1]) ==
            one.(desired := one.desired - 1, live := one.live - {InstanceFor(g.cached, request[k])})
  {
    assert request[..k + 1] == request[..k] + [request[k]];
  }

  /** One more termination, or the first that does not happen. */
  lemma TerminationStep(g: Group, request: seq<Node>, failing: set<string>, k: nat)
    requires UniqueNames(request) && k < |request|
    ensures var n, refused := request[k], failing + Outsiders(g.cached, request);
            && (Belongs(g.cached, n) && n.name !in failing <==> n.name !in refused)
            && DeletedPrefix(request[k..], refused) ==
               (if n.name in refused then 0 else 1 + DeletedPrefix(request[k + 1..], refused))
    ensures var one := AfterTerminating(g, request[..k]);
            AfterTerminating(g, request[..k + 1]) ==
            one.(desired := one.desired - 1, live := one.live - {InstanceFor(g.cached, request[k])})
  {
    OutsiderIsOut(g.cached, request, k);
    TerminateOneMore(g, request, k);
    PrefixStep(request, failing + Outsiders(g.cached, request), k);
    hide Outsiders;
    hide Belongs;
    hide AfterTerminating;
    hide DeletedPrefix;
  }

  /** Full batches, in order, make up the front of the list, and the next batch would be sent. */
  ghost predicate Batched(instances: seq<string>, attached: seq<seq<string>>) {
    && ATTACH_BATCH * |attached| <= |instances| && BatchSent(|instances|, |attached|)
    && Flatten(attached) == instances[..ATTACH_BATCH * |attached|]
    && forall b :: b in attached ==> |b| <= ATTACH_BATCH
  }

  /** The failing batch of twenty, moved behind what was not yet tried. */
  ghost predicate Requeued(left: seq<string>, rest: seq<string>) {
    |left| > ATTACH_BATCH && rest == left[ATTACH_BATCH..] + left[..ATTACH_BATCH]
  }

  lemma BatchOneMore(instances: seq<string>, attached: seq<seq<string>>, rest: seq<string>)
    requires Batched(instances, attached) && rest == instances[ATTACH_BATCH * |attached|..] && |rest| > ATTACH_BATCH
    ensures Batched(instances, attached + [rest[..ATTACH_BATCH]])
    ensures rest[ATTACH_BATCH..] == instances[ATTACH_BATCH * |attached| + ATTACH_BATCH..]
    ensures Elements(instances[..ATTACH_BATCH * |attached| + ATTACH_BATCH]) ==
            Elements(instances[..ATTACH_BATCH * |attached|]) + Elements(rest[..ATTACH_BATCH])
  {
    AttachOneMore(instances, attached, ATTACH_BATCH * |attached|, ATTACH_BATCH);
    hide Flatten;
    hide Elements;
  }

  /** A failing batch: what is attached and what is left split the instances. */
  lemma StopsAt(instances: seq<string>, attached: seq<seq<string>>, rest: seq<string>, failure: AttachFailure)
    requires Batched(instances, attached) && failure == FailsAt(|attached|)
    requires rest == instances[ATTACH_BATCH * |attached|..] || Requeued(instances[ATTACH_BATCH * |attached|..], rest)
    ensures AttachedCount(|instances|, true, failure) == ATTACH_BATCH * |attached|
            && !AttachOk(|instances|, true, failure)
    ensures multiset(Flatten(attached)) + multiset(rest) == multiset(instances)
            && |rest| == |instances| - ATTACH_BATCH * |attached|
    ensures Flatten(attached) == instances[..ATTACH_BATCH * |attached|] && forall b :: b in attached ==>
            |b| <= ATTACH_BATCH
  {
    SplitInstances(instances, ATTACH_BATCH * |attached|, rest);
    hide Flatten;
  }

  /** The last batch: everything is attached. */
  lemma GoesThrough(instances: seq<string>, attached: seq<seq<string>>, rest: seq<string>, failure: AttachFailure)
    requires Batched(instances, attached) && rest == instances[ATTACH_BATCH * |attached|..] && |rest| <= ATTACH_BATCH
    requires failure.FailsAt? ==> failure.batch > |attached|
    ensures AttachedCount(|instances|, true, failure) == |instances| && AttachOk(|instances|, true, failure)
    ensures Flatten(attached + [rest]) == instances == instances[..|instances|]
    ensures Elements(instances) == Elements(instances[..ATTACH_BATCH * |attached|]) + Elements(rest)
    ensures forall b :: b in attached + [rest] ==> |b| <= ATTACH_BATCH
  {
    hide Flatten;
    hide Elements;
    CountedAll(|instances|, |attached|, failure);
    AttachRest(instances, attached, ATTACH_BATCH * |attached|, rest);
    hide AttachedCount;
    hide AttachOk;
  }

  lemma AttachRest(instances: seq<string>, attached: seq<seq<string>>, done: nat, rest: seq<string>)
    requires done <= |instances| && rest == instances[done..] && Flatten(attached) == instances[..done]
    ensures Flatten(attached + [rest]) == instances == instances[..|instances|]
    ensures Elements(instances) == Elements(instances[..done]) + Elements(rest)
  {
    AttachOneMore(instances, attached, done, |rest|);
    hide Flatten;
    hide Elements;
    assert rest == instances[done..done + |rest|] && instances == instances[..|instances|];
  }

  lemma CountedAll(n: nat, b: nat, failure: AttachFailure)
    requires ATTACH_BATCH * b <= n <= ATTACH_BATCH * b + ATTACH_BATCH && (failure.FailsAt? ==> failure.batch > b)
    ensures AttachedCount(n, true, failure) == n && AttachOk(n, true, failure)
  {
  }

  /** What is left after `done` ids, in whatever order, completes the attached ones. */
  lemma SplitInstances(instances: seq<string>, done: nat, orphans: seq<string>)
    requires done <= |instances|
    requires var rest := instances[done..];
             orphans == rest || (|rest| >= ATTACH_BATCH && orphans == rest[ATTACH_BATCH..] + rest[..ATTACH_BATCH])
    ensures multiset(instances[..done]) + multiset(orphans) == multiset(instances)
    ensures |orphans| == |instances| - done
  {
    assert instances == instances[..done] + instances[done..];
    if orphans != instances[done..] {
      assert instances[done..] == instances[done..][..ATTACH_BATCH] + instances[done..][ATTACH_BATCH..];
    }
  }

  lemma AttachOneMore(instances: seq<string>, attached: seq<seq<string>>, done: nat, size: nat)
    requires done + size <= |instances| && Flatten(attached) == instances[..done]
    ensures instances[done..][..size] == instances[done..done + size]
    ensures instances[done..][size..] == instances[done + size..]
    ensures Flatten(attached + [instances[done..done + size]]) == instances[..done + size]
    ensures Elements(instances[..done + size]) == Elements(instances[..done]) + Elements(instances[done..done + size])
  {
    var batch := instances[done..done + size];
    assert (attached + [batch])[..|attached|] == attached;
    assert instances[..done + size] == instances[..done] + batch;
  }

  lemma OutsiderIsOut(d: Description, request: seq<Node>, k: nat)
    requires UniqueNames(request) && k < |request|
    ensures request[k].name in Outsiders(d, request) <==> !Belongs(d, request[k])
  {
    assert request[k] in request;
    if request[k].name in Outsiders(d, request) {
      var n :| n in request && !Belongs(d, n) && n.name == request[k].name;
      UniqueByName(request, n, request[k]);
    }
  }

  function CallCount(n: nat): nat {
    (n + TERMINATE_BATCH - 1) / TERMINATE_BATCH
  }

  /** The id lists sent by one terminateOrphanedInstances, in order. */
  function TerminateCalls(instances: seq<string>): seq<seq<string>> {
    seq(CallCount(|instances|), k requires k >= 0 => instances[..MinNat(TERMINATE_BATCH * (k + 1), |instances|)])
  }

  /** Every instance is named in some call; but the limit of a thousand ids per call is kept
      exactly when there are no more than a thousand instances. */
  lemma TerminateCoverageAndLimit(instances: seq<string>)
    ensures forall x :: x in instances ==> exists c :: c in TerminateCalls(instances) && x in c
    ensures |TerminateCalls(instances)| == (|instances| + 999) / 1000
    ensures forall k :: 0 <= k < |TerminateCalls(instances)| ==>
              TerminateCalls(instances)[k] ==
              instances[..if 1000 * (k + 1) <= |instances| then 1000 * (k + 1) else |instances|]
    ensures (forall c :: c in TerminateCalls(instances) ==> |c| <= 1000) <==> |instances| <= 1000
  {
    var calls := TerminateCalls(instances);
    if instances != [] {
      var last := calls[|calls| - 1];
      assert last == instances;
      assert last in calls;
    }
  }

  // ---------- consecutive failures ----------

  /** The count of failed one-shot increases after one more: a success resets it; a failure that
      leaves instances to terminate adds one; anything else leaves it as it is. */
  lemma TriesMean(g: Group, delta: int, a: Answer)
    ensures var g', f := AfterIncrease(g, delta, a), a.fleet;
            var tried := g.oneShot && delta > 0 && g.cached.target + delta <= g.cached.maxSize && f.Fleet?;
            var unready := tried && !f.ready && f.ids != [];
            var stopped := tried && f.ready && f.failure.FailsAt? && ATTACH_BATCH * f.failure.batch < |f.ids|;
            && (IncreaseOk(g, delta, a) && g.oneShot ==> g'.tries == 0)
            && (unready || stopped ==> g'.tries == g.tries + 1)
            && (!IncreaseOk(g, delta, a) && !unready && !stopped ==> g'.tries == g.tries)
  {
  }

  /** A sequence of one-shot increases of one group; between them it may be described afresh. */
  ghost predicate Increases(gs: seq<Group>, deltas: seq<int>, answers: seq<Answer>) {
    && |gs| == |deltas| + 1 == |answers| + 1
    && forall k :: 0 <= k < |deltas| ==>
         gs[k].oneShot && gs[k + 1].tries == AfterIncrease(gs[k], deltas[k], answers[k]).tries
  }

  /** Only consecutive failures add up: after a success, the count is at most the number of increases
      since, so that the fatal stop needs that many failures in a row. */
  lemma {:induction false} TriesSinceSuccess(gs: seq<Group>, deltas: seq<int>, answers: seq<Answer>, i: nat, k: nat)
    requires Increases(gs, deltas, answers) && i < k <= |deltas| && IncreaseOk(gs[i], deltas[i], answers[i])
    ensures gs[k].tries <= k - i - 1
  {
    TriesMean(gs[k - 1], deltas[k - 1], answers[k - 1]);
    hide IncreaseOk;
    hide AfterIncrease;
    if i < k - 1 {
      TriesSinceSuccess(gs, deltas, answers, i, k - 1);
    }
  }
}
