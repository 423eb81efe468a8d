/** The cool-down after a cloud increase (pkg/controller/scale_lock.go). */
module ScaleLocks {
  import opened Cluster

  /** The zero time.Time, and the longest time.Duration. */
  const ZERO_TIME: int := -62_135_596_800 * SECOND
  const MAX_DURATION: int := 9_223_372_036_854_775_807

  datatype Lock = Lock(isLocked: bool, requested: int, lockTime: int, minimum: int)

  function FreshLock(minimum: int): Lock {
    Lock(false, 0, ZERO_TIME, minimum)
  }

  /** The minimum lock duration has not passed since the lock was last taken. */
  predicate Held(l: Lock, now: int) {
    now - l.lockTime < l.minimum
  }

  function Released(l: Lock): Lock {
    if l.isLocked then l.(isLocked := false, requested := 0) else l
  }

  /** What the check leaves: a lock that is no longer held is released. */
  function Checked(l: Lock, now: int): Lock {
    if Held(l, now) then l else Released(l)
  }

  function Taken(l: Lock, nodes: int, now: int): Lock {
    l.(isLocked := true, requested := nodes, lockTime := now)
  }

  /** A controller that has never scaled is not locked, whatever its cool-down. */
  lemma FreshLockIsOpen(minimum: int, now: nat)
    requires minimum <= MAX_DURATION
    ensures !Held(FreshLock(minimum), now)
  {
  }

  class ScaleLock {
    var isLocked: bool
    var requestedNodes: int
    var lockTime: int
    const minimumLockDuration: int

    function View(): Lock
      reads this
    {
      Lock(isLocked, requestedNodes, lockTime, minimumLockDuration)
    }

    constructor (minimum: int)
      ensures View() == FreshLock(minimum)
    {
      isLocked, requestedNodes, lockTime, minimumLockDuration := false, 0, ZERO_TIME, minimum;
    }

    method Locked(now: int) returns (r: bool)
      modifies this
      ensures r <==> now - old(lockTime) < minimumLockDuration
      ensures r ==> isLocked == old(isLocked) && requestedNodes == old(requestedNodes)
      ensures !r ==> !isLocked && (old(isLocked) ==> requestedNodes == 0)
      ensures lockTime == old(lockTime)
      ensures View() == Checked(old(View()), now)
    {
      if now - lockTime < minimumLockDuration {
        return true;
      }
      Unlock();
      return isLocked;
    }

    method Acquire(nodes: int, now: int)
      modifies this
      ensures isLocked && requestedNodes == nodes && lockTime == now
      ensures View() == Taken(old(View()), nodes, now)
    {
      isLocked := true;
      requestedNodes := nodes;
      lockTime := now;
    }

    method Unlock()
      modifies this
      ensures !isLocked && lockTime == old(lockTime)
      ensures requestedNodes == if old(isLocked) then 0 else old(requestedNodes)
      ensures View() == Released(old(View()))
    {
      if isLocked {
        isLocked := false;
        requestedNodes := 0;
      }
    }
  }

  // ---------- history ----------

  /** What happens to the lock in one step of a run. */
  datatype Event = NoTick | Ticked(now: nat, added: int, belowMinimum: bool)

  /** A step without an increase keeps the lock or releases one that is no longer held; an
      increase takes it, and happens on a held lock only below the minimum. */
  ghost predicate LockMove(l: Lock, e: Event, l': Lock) {
    match e
    case NoTick => l' == l
    case Ticked(now, added, belowMinimum) =>
      && added >= 0 && l'.minimum == l.minimum
      && (added > 0 ==> l' == Taken(l, added, now) && (Held(l, now) ==> belowMinimum))
      && (added == 0 ==> l' == l || (!Held(l, now) && l' == Released(l)))
  }

  ghost predicate LockRun(ls: seq<Lock>, es: seq<Event>) {
    && |ls| == |es| + 1 && ls[0] == FreshLock(ls[0].minimum) && ls[0].minimum <= MAX_DURATION
    && (forall k :: 0 <= k < |es| ==> LockMove(ls[k], es[k], ls[k + 1]))
    && forall i, j :: 0 <= i < j < |es| && es[i].Ticked? && es[j].Ticked? ==> es[i].now <= es[j].now
  }

  /** The last step before `n` that added nodes. */
  ghost function LastIncrease(es: seq<Event>, n: nat): (r: Option<nat>)
    requires n <= |es|
    ensures r.Some? ==> r.value < n && es[r.value].Ticked? && es[r.value].added > 0
    ensures forall j :: 0 <= j < n && es[j].Ticked? && es[j].added > 0 ==> r.Some? && j <= r.value
  {
    if n == 0 then None
    else if es[n - 1].Ticked? && es[n - 1].added > 0 then Some(n - 1)
    else LastIncrease(es, n - 1)
  }

  /** A tick before `n` found the lock taken at `t` past its minimum. */
  ghost predicate FoundOpen(es: seq<Event>, n: nat, t: int, minimum: int)
    requires n <= |es|
  {
    exists j :: 0 <= j < n && es[j].Ticked? && es[j].now - t >= minimum
  }

  /** The lock is determined by what happened: the time and count of the last increase, until a
      tick finds the cool-down over. */
  ghost predicate Remembers(ls: seq<Lock>, es: seq<Event>, n: nat)
    requires n < |ls| == |es| + 1
  {
    var l, last := ls[n], LastIncrease(es, n);
    && l.minimum == ls[0].minimum
    && (!l.isLocked ==> l.requested == 0)
    && (last.None? ==> l.lockTime == ZERO_TIME && !l.isLocked)
    && (last.Some? ==> l.lockTime == es[last.value].now)
    && (l.isLocked ==> last.Some? && l.requested == es[last.value].added)
    && (last.Some? && !l.isLocked ==> FoundOpen(es, n, l.lockTime, l.minimum))
  }

  lemma {:induction false} LockIsHistory(ls: seq<Lock>, es: seq<Event>, n: nat)
    requires LockRun(ls, es) && n < |ls|
    ensures Remembers(ls, es, n)
  {
    if n > 0 {
      LockIsHistory(ls, es, n - 1);
      assert LockMove(ls[n - 1], es[n - 1], ls[n]);
      var l := ls[n - 1];
      if FoundOpen(es, n - 1, l.lockTime, l.minimum) {
        var j :| 0 <= j < n - 1 && es[j].Ticked? && es[j].now - l.lockTime >= l.minimum;
        assert FoundOpen(es, n, l.lockTime, l.minimum);
      }
      if es[n - 1].Ticked? && es[n - 1].added == 0 && !Held(l, es[n - 1].now) {
        assert FoundOpen(es, n, l.lockTime, l.minimum);
      }
    }
  }

  /** A held lock is locked, by the last increase; and an open lock means that every increase is
      at least the cool-down ago. */
  lemma HeldMeansRecent(ls: seq<Lock>, es: seq<Event>, n: nat)
    requires LockRun(ls, es) && n < |es| && es[n].Ticked?
    ensures Held(ls[n], es[n].now) ==> ls[n].isLocked
    ensures !Held(ls[n], es[n].now) ==>
            forall j :: 0 <= j < n && es[j].Ticked? && es[j].added > 0 ==> es[n].now - es[j].now >= ls[n].minimum
  {
    LockIsHistory(ls, es, n);
    FreshLockIsOpen(ls[0].minimum, es[n].now);
    if LastIncrease(es, n).Some? && !ls[n].isLocked {
      var j :| 0 <= j < n && es[j].Ticked? && es[j].now - ls[n].lockTime >= ls[n].minimum;
    }
  }

  /** Whether the cool-down is running, in instants: exactly while some increase is less than the
      minimum ago. */
  lemma CoolDownMeans(ls: seq<Lock>, es: seq<Event>, n: nat)
    requires LockRun(ls, es) && n < |es| && es[n].Ticked?
    ensures var l, now := ls[n], es[n].now;
            && l.minimum == ls[0].minimum && (!l.isLocked ==> l.requested == 0)
            && (now - l.lockTime < l.minimum <==>
                exists j :: 0 <= j < n && es[j].Ticked? && es[j].added > 0 && now - es[j].now < l.minimum)
  {
    LockIsHistory(ls, es, n);
    FreshLockIsOpen(ls[0].minimum, es[n].now);
    var last := LastIncrease(es, n);
    if last.Some? {
      assert es[last.value].Ticked? && es[last.value].added > 0;
    }
    hide LockMove;
  }
}
