/** One tick of the control loop (`scaleNodeGroup`), as a function of the world it finds and
    of everything that is decided elsewhere.

    An `Input` carries the clock, the listed pods, the options, which API calls fail and what AWS
    answers; `Orders` is how the unstable sorts came out. A statement about every input and every
    order covers every such choice. The nodes listed at the start are the snapshot; API writes
    change `World.nodes` only. */
module ControlLoop {
  import opened Cluster
  import opened Taints
  import opened Order
  import opened Pods
  import opened Utilisation
  import opened Decision
  import opened Health
  import opened ScaleLocks
  import opened Cloud

  const NO_DELETE: string := "atlassian.com/no-delete"

  datatype World = World(
    nodes: seq<Node>,
    group: Group,
    lock: Lock,
    tracker: seq<string>,
    forceTracker: seq<string>,
    cached: Cached)

  datatype Input = Input(
    now: nat,
    pods: seq<Pod>,
    opts: Options,
    listed: bool,
    answer: Answer,
    unhealthyTaintFails: set<string>,
    taintFails: set<string>,
    untaintFails: set<string>,
    terminateFails: set<string>,
    deleteFails: set<string>)

  /** The orders of the three sorts: untainted nodes oldest first, tainted nodes newest first,
      and all nodes newest first for the health test. */
  datatype Orders = Orders(oldest: seq<nat>, newest: seq<nat>, health: seq<nat>)

  // ---------- the partition of the snapshot ----------

  datatype Class = IsUntainted | IsTainted | IsForced | IsCordoned

  /** In dry mode the trackers stand for the taints, and cordoning is not looked at. */
  datatype Mode = Mode(dry: bool, tracker: seq<string>, forceTracker: seq<string>)

  function Classify(m: Mode, n: Node): Class {
    if !m.dry && n.unschedulable then IsCordoned
    else if (if m.dry then n.name in m.forceTracker else HasTaint(n, TO_BE_FORCE_REMOVED)) then IsForced
    else if (if m.dry then n.name in m.tracker else Tainted(n)) then IsTainted
    else IsUntainted
  }

  function Select(ns: seq<Node>, m: Mode, c: Class): (r: seq<Node>)
    ensures |r| <= |ns|
    ensures forall n :: n in r <==> n in ns && Classify(m, n) == c
  {
    if ns == [] then []
    else
      var rest, last := Select(ns[..|ns| - 1], m, c), ns[|ns| - 1];
      assert ns == ns[..|ns| - 1] + [last];
      if Classify(m, last) == c then rest + [last] else rest
  }

  datatype Split = Split(untainted: seq<Node>, tainted: seq<Node>, forced: seq<Node>, cordoned: seq<Node>)

  function FilterNodes(ns: seq<Node>, m: Mode): Split {
    Split(Select(ns, m, IsUntainted), Select(ns, m, IsTainted), Select(ns, m, IsForced), Select(ns, m, IsCordoned))
  }

  function ModeOf(w: World, o: Options): Mode {
    Mode(o.dryMode, w.tracker, w.forceTracker)
  }

  // ---------- tainting ----------

  /** The names whose taint call fails. In dry mode there is no call. */
  function TaintSkips(w: World, o: Options, ns: seq<Node>, failing: set<string>): set<string> {
    if o.dryMode then {} else failing + (Names(ns) - Names(w.nodes))
  }

  function NameList(ns: seq<Node>): seq<string> {
    seq(|ns|, i requires 0 <= i < |ns| => ns[i].name)
  }

  function AfterTaint(w: World, env: Input, picked: seq<Node>): World {
    if env.opts.dryMode then w.(tracker := w.tracker + NameList(picked))
    else w.(nodes := TaintAll(w.nodes, Names(picked), env.now, env.opts.taintEffect))
  }

  /** The positions of the unhealthy nodes. */
  function UnhealthyAt(ns: seq<Node>, grace: int, now: int): (r: seq<nat>)
    ensures InRange(r, |ns|) && Distinct(r) && |r| <= |ns|
    ensures forall i: nat :: i in r <==> i < |ns| && Unhealthy(ns[i], grace, now)
  {
    if ns == [] then []
    else
      var rest := UnhealthyAt(ns[..|ns| - 1], grace, now);
      if Unhealthy(ns[|ns| - 1], grace, now) then rest + [|ns| - 1] else rest
  }

  function UnhealthyPicks(w: World, env: Input): seq<nat> {
    if env.opts.unhealthyGrace > 0 then
      var at := UnhealthyAt(w.nodes, env.opts.unhealthyGrace, env.now);
      Picks(at, w.nodes, TaintSkips(w, env.opts, w.nodes, env.unhealthyTaintFails), |at|)
    else []
  }

  /** The capacity of the first listed node is remembered; then unhealthy nodes are tainted. */
  function Prepared(w: World, env: Input): World {
    var w1 := if w.nodes == [] then w else w.(cached := Amount(w.nodes[0].cpu, w.nodes[0].memory));
    if env.opts.unhealthyGrace > 0 then
      UnhealthyPicksInRange(w, env);
      AfterTaint(w1, env, At(w.nodes, UnhealthyPicks(w, env)))
    else w1
  }

  lemma UnhealthyPicksInRange(w: World, env: Input)
    ensures InRange(UnhealthyPicks(w, env), |w.nodes|) && Distinct(UnhealthyPicks(w, env))
  {
    if env.opts.unhealthyGrace > 0 {
      var at := UnhealthyAt(w.nodes, env.opts.unhealthyGrace, env.now);
      PicksSound(at, w.nodes, TaintSkips(w, env.opts, w.nodes, env.unhealthyTaintFails), |at|);
    }
  }

  // ---------- removing ----------

  datatype Removal = Removal(request: seq<Node>, terminated: nat, deleted: nat)

  const NO_REMOVAL := Removal([], 0, 0)

  predicate SafeFromDeletion(n: Node) {
    NO_DELETE in n.annotations && n.annotations[NO_DELETE] != ""
  }

  /** A tainted node that TryRemoveTaintedNodes picks for deletion. */
  predicate Reapable(env: Input, n: Node, healthyToo: bool) {
    && (env.opts.unhealthyGrace > 0 && !healthyToo ==> Unhealthy(n, env.opts.unhealthyGrace, env.now))
    && !SafeFromDeletion(n)
    && match ToBeRemovedTime(n)
       case MarkedAt(t) =>
         && env.now - t > env.opts.softGrace
         && (EmptyNode(env.pods, n.name) || env.now - t > env.opts.hardGrace)
       case _ => false
  }

  datatype Pass = ForcePass | ReapPass(healthyToo: bool)

  predicate Removable(env: Input, n: Node, pass: Pass) {
    match pass
    case ForcePass => EmptyNode(env.pods, n.name)
    case ReapPass(healthyToo) => Reapable(env, n, healthyToo)
  }

  /** The nodes a removal pass asks to delete; none in dry mode. */
  function Candidates(env: Input, ns: seq<Node>, pass: Pass): (r: seq<Node>)
    ensures |r| <= |ns|
    ensures forall n :: n in r <==> n in ns && !env.opts.dryMode && Removable(env, n, pass)
  {
    if ns == [] then []
    else
      var rest, last := Candidates(env, ns[..|ns| - 1], pass), ns[|ns| - 1];
      assert ns == ns[..|ns| - 1] + [last];
      if !env.opts.dryMode && Removable(env, last, pass) then rest + [last] else rest
  }

  /** TryDeleteNodes: first the cloud instances, then, if all of them went, the API objects. */
  function Remove(w: World, env: Input, request: seq<Node>): (World, Removal) {
    if request == [] then (w, NO_REMOVAL)
    else
      var k := Terminated(w.group.cached, request, env.terminateFails);
      var w1 := w.(group := AfterTerminating(w.group, request[..k]));
      if MayDelete(w.group.cached, |request|) && k == |request| then
        var d := DeletedPrefix(request, env.deleteFails + (Names(request) - Names(w.nodes)));
        (w1.(nodes := Without(w.nodes, Names(request[..d]))), Removal(request, k, d))
      else (w1, Removal(request, k, 0))
  }

  // ---------- scaling up ----------

  predicate MayUntaint(w: World, env: Input, n: Node) {
    && (env.opts.unhealthyGrace > 0 ==> !Unhealthy(n, env.opts.unhealthyGrace, env.now))
    && if env.opts.dryMode then n.name in w.tracker
       else Tainted(n) && n.name !in env.untaintFails && n.name in Names(w.nodes)
  }

  function UntaintSkips(w: World, env: Input, ns: seq<Node>): set<string> {
    set n | n in ns && !MayUntaint(w, env, n) :: n.name
  }

  function RemoveFirst(tracker: seq<string>, name: string): seq<string> {
    if tracker == [] then []
    else if tracker[0] == name then tracker[1..]
    else [tracker[0]] + RemoveFirst(tracker[1..], name)
  }

  function Forget(tracker: seq<string>, ns: seq<Node>): seq<string> {
    if ns == [] then tracker else RemoveFirst(Forget(tracker, ns[..|ns| - 1]), ns[|ns| - 1].name)
  }

  function AfterUntaint(w: World, env: Input, picked: seq<Node>): World {
    if env.opts.dryMode then w.(tracker := Forget(w.tracker, picked))
    else w.(nodes := UntaintAll(w.nodes, Names(picked)))
  }

  function UntaintPicks(w: World, env: Input, newest: seq<nat>, tainted: seq<Node>, delta: int): seq<nat>
    requires InRange(newest, |tainted|)
  {
    Picks(newest, tainted, UntaintSkips(w, env, tainted), delta)
  }

  /** calculateNodesToAdd: never beyond the cloud group's maximum, from its cached target. */
  function NodesToAdd(d: Description, delta: int): int {
    if d.target + delta > d.maxSize then d.maxSize - d.target else delta
  }

  datatype Up = Up(picks: seq<nat>, added: int, ok: bool)

  const NO_UP := Up([], 0, true)

  /** scaleUpCloudProviderNodeGroup, and the lock that ScaleUp takes when it succeeds. */
  function GrowGroup(w: World, env: Input, picks: seq<nat>, left: int): (World, Up) {
    var add := NodesToAdd(w.group.cached, left);
    if add <= 0 then (w, Up(picks, 0, false))
    else if env.opts.dryMode then (w.(lock := Taken(w.lock, add, env.now)), Up(picks, add, true))
    else
      var w1 := w.(group := AfterIncrease(w.group, add, env.answer));
      if IncreaseOk(w.group, add, env.answer) then (w1.(lock := Taken(w.lock, add, env.now)), Up(picks, add, true))
      else (w1, Up(picks, 0, false))
  }

  function ScaleUp(w: World, env: Input, newest: seq<nat>, tainted: seq<Node>, delta: int): (World, Up)
    requires InRange(newest, |tainted|) && Distinct(newest)
  {
    var picks := UntaintPicks(w, env, newest, tainted, delta);
    PicksSound(newest, tainted, UntaintSkips(w, env, tainted), delta);
    var w1 := AfterUntaint(w, env, At(tainted, picks));
    if delta - |picks| <= 0 then (w1, Up(picks, 0, true))
    else GrowGroup(w1, env, picks, delta - |picks|)
  }

  // ---------- scaling down ----------

  /** How many nodes scaleDownTaint will taint: not below the group's minimum, and not beyond
      what the cloud group could give up. None is the refusal of a group that is too small. */
  function TaintAmount(o: Options, untainted: int, d: Description, wanted: int): Option<int> {
    var n := if untainted - wanted < o.minNodes then untainted - o.minNodes else wanted;
    if untainted - wanted < o.minNodes && n < 0 then None
    else if d.target - n < d.minSize && d.target - d.minSize >= 0 then Some(d.target - d.minSize)
    else Some(n)
  }

  function TaintPicks(w: World, env: Input, oldest: seq<nat>, untainted: seq<Node>, wanted: int): seq<nat>
    requires InRange(oldest, |untainted|)
  {
    match TaintAmount(env.opts, |untainted|, w.group.cached, wanted)
    case None => []
    case Some(n) => Picks(oldest, untainted, TaintSkips(w, env.opts, untainted, env.taintFails), n)
  }

  lemma TaintPicksSound(w: World, env: Input, oldest: seq<nat>, untainted: seq<Node>, wanted: int)
    requires InRange(oldest, |untainted|) && Distinct(oldest)
    ensures var p := TaintPicks(w, env, oldest, untainted, wanted);
            InRange(p, |untainted|) && Distinct(p)
  {
    var amount := TaintAmount(env.opts, |untainted|, w.group.cached, wanted);
    if amount.Some? {
      PicksSound(oldest, untainted, TaintSkips(w, env.opts, untainted, env.taintFails), amount.value);
    }
  }

  function TaintOldest(w: World, env: Input, oldest: seq<nat>, untainted: seq<Node>, wanted: int): World
    requires InRange(oldest, |untainted|) && Distinct(oldest)
  {
    TaintPicksSound(w, env, oldest, untainted, wanted);
    AfterTaint(w, env, At(untainted, TaintPicks(w, env, oldest, untainted, wanted)))
  }

  /** ScaleDown: reap first, then taint the oldest. */
  function ScaleDown(w: World, env: Input, oldest: seq<nat>, s: Split, wanted: int): (World, Removal, seq<nat>)
    requires InRange(oldest, |s.untainted|) && Distinct(oldest)
  {
    var (w1, reaped) := Remove(w, env, Candidates(env, s.tainted, ReapPass(true)));
    (TaintOldest(w1, env, oldest, s.untainted, wanted), reaped, TaintPicks(w1, env, oldest, s.untainted, wanted))
  }

  // ---------- the tick ----------

  datatype Outcome = ListFailed | NothingToDo | TooFewNodes | BelowMinimum | NoCapacity
                   | StillLocked | DeltaError | ScaledDown | ScaledUp | OnlyReaped

  datatype Report = Report(
    outcome: Outcome,
    delta: int,
    healthy: bool,
    split: Split,
    forced: Removal,
    reaped: Removal,
    taintPicks: seq<nat>,
    up: Up)

  function Quiet(outcome: Outcome, delta: int, split: Split): Report {
    Report(outcome, delta, true, split, NO_REMOVAL, NO_REMOVAL, [], NO_UP)
  }

  /** The partition a tick works with: of the snapshot, but in dry mode with the tracker as the
      unhealthy pass left it. */
  function SplitOf(w: World, env: Input): Split {
    FilterNodes(w.nodes, ModeOf(Prepared(w, env), env.opts))
  }

  ghost predicate ValidOrders(s: Split, ord: Orders) {
    && SortOrder(ord.oldest, s.untainted, false) && Distinct(ord.oldest)
    && SortOrder(ord.newest, s.tainted, true) && Distinct(ord.newest)
  }

  /** Unique names, a usable threshold, and orders that the sorts could have produced. */
  ghost predicate Valid(w: World, env: Input, ord: Orders) {
    && UniqueNames(w.nodes)
    && env.opts.scaleUp != 0
    && ValidOrders(SplitOf(w, env), ord)
    && SortOrder(ord.health, w.nodes, true)
  }

  predicate JudgedHealthy(ns: seq<Node>, env: Input, order: seq<nat>)
    requires InRange(order, |ns|)
  {
    env.opts.unhealthyGrace > 0 ==> GroupHealthy(ns, order, env.opts, env.now)
  }

  /** Scale down, up, or only reap. */
  function Perform(w: World, env: Input, ord: Orders, s: Split, d: int, healthy: bool, forced: Removal): (World, Report)
    requires InRange(ord.oldest, |s.untainted|) && Distinct(ord.oldest)
    requires InRange(ord.newest, |s.tainted|) && Distinct(ord.newest)
  {
    if d > 0 then
      var (w2, up) := ScaleUp(w, env, ord.newest, s.tainted, d);
      (w2, Report(ScaledUp, d, healthy, s, forced, NO_REMOVAL, [], up))
    else if d < 0 then
      var (w2, reaped, picks) := ScaleDown(w, env, ord.oldest, s, -d);
      (w2, Report(ScaledDown, d, healthy, s, forced, reaped, picks, NO_UP))
    else
      var (w2, reaped) := Remove(w, env, Candidates(env, s.tainted, ReapPass(healthy)));
      (w2, Report(OnlyReaped, d, healthy, s, forced, reaped, [], NO_UP))
  }

  /** From the decision on: force removal, the health override, then the action. */
  function Act(w: World, env: Input, ord: Orders, s: Split, delta: int, healthy: bool): (World, Report)
    requires InRange(ord.oldest, |s.untainted|) && Distinct(ord.oldest)
    requires InRange(ord.newest, |s.tainted|) && Distinct(ord.newest)
  {
    var (w1, forced) := Remove(w, env, Candidates(env, s.forced, ForcePass));
    Perform(w1, env, ord, s, if healthy then delta else 0, healthy, forced)
  }

  /** Past the lock check: decide and act. `ns` is the snapshot. */
  ghost function Unlocked(w: World, env: Input, ord: Orders, s: Split, ns: seq<Node>): (World, Report)
    requires InRange(ord.oldest, |s.untainted|) && Distinct(ord.oldest)
    requires InRange(ord.newest, |s.tainted|) && Distinct(ord.newest)
    requires InRange(ord.health, |ns|)
    requires env.opts.scaleUp != 0 && !UsageOf(env.pods, s.untainted).DivisionByZero?
  {
    match Decide(env.opts, env.pods, s.untainted, s.tainted, w.cached, env.now)
    case NegativeDelta(d) => (w, Quiet(DeltaError, d, s))
    case Delta(d) => Act(w, env, ord, s, d, JudgedHealthy(ns, env, ord.health))
  }

  /** From the partition on: the minimum, the utilisation, the lock. */
  ghost function Weigh(w: World, env: Input, ord: Orders, s: Split, ns: seq<Node>): (World, Report)
    requires InRange(ord.oldest, |s.untainted|) && Distinct(ord.oldest)
    requires InRange(ord.newest, |s.tainted|) && Distinct(ord.newest)
    requires InRange(ord.health, |ns|) && env.opts.scaleUp != 0
  {
    if |s.untainted| < env.opts.minNodes then
      var missing := env.opts.minNodes - |s.untainted|;
      var (w2, up) := ScaleUp(w, env, ord.newest, s.tainted, missing);
      (w2, Quiet(BelowMinimum, missing, s).(up := up))
    else if UsageOf(env.pods, s.untainted).DivisionByZero? then (w, Quiet(NoCapacity, 0, s))
    else if Held(w.lock, env.now) then (w, Quiet(StillLocked, w.lock.requested, s))
    else Unlocked(w.(lock := Released(w.lock)), env, ord, s, ns)
  }

  ghost function Tick(w: World, env: Input, ord: Orders): (World, Report)
    requires Valid(w, env, ord)
  {
    if !env.listed then (w, Quiet(ListFailed, 0, Split([], [], [], [])))
    else
      var w1, s := Prepared(w, env), SplitOf(w, env);
      if w.nodes == [] && env.pods == [] then (w1, Quiet(NothingToDo, 0, s))
      else if |w.nodes| < env.opts.minNodes then (w1, Quiet(TooFewNodes, 0, s))
      else Weigh(w1, env, ord, s, w.nodes)
  }
}
