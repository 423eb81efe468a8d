/** Utilisation and the scale-up delta (pkg/controller/util.go), over exact reals. */
module Utilisation {

  /** Percentages of CPU and memory in use; `Unbounded` stands for the math.MaxFloat64
      sentinel of a group without untainted nodes. */
  datatype Usage = Usage(cpu: real, memory: real) | Unbounded | DivisionByZero

  function Ceil(x: real): (r: int)
    ensures r as real - 1.0 < x <= r as real
  {
    0 - (0.0 - x).Floor
  }

  function MaxReal(a: real, b: real): real {
    if a >= b then a else b
  }

  function MaxInt(a: int, b: int): int {
    if a >= b then a else b
  }

  function MinInt(a: int, b: int): int {
    if a <= b then a else b
  }

  function Percent(request: int, capacity: int): real
    requires capacity != 0
  {
    request as real / capacity as real * 100.0
  }

  /** Quantity.MilliValue of a byte count. */
  function Milli(bytes: int): int {
    1000 * bytes
  }

  /** calcPercentUsage: requests against the capacity of the untainted nodes. */
  function CalcPercentUsage(cpuRequest: int, memRequest: int, cpuCapacity: int, memCapacity: int,
      untainted: int): Usage {
    if cpuRequest == 0 && Milli(memRequest) == 0 && cpuCapacity == 0 && Milli(memCapacity) == 0 && untainted == 0 then
      Usage(0.0, 0.0)
    else if cpuCapacity == 0 || Milli(memCapacity) == 0 then
      if untainted == 0 then Unbounded else DivisionByZero
    else
      Usage(Percent(cpuRequest, cpuCapacity), Percent(Milli(memRequest), Milli(memCapacity)))
  }

  datatype Delta = Delta(nodes: int) | NegativeDelta(nodes: int)

  /** Nodes needed from nothing, given the capacity of one node. */
  function FromZero(request: int, perNode: int, threshold: int): int
    requires perNode != 0 && threshold != 0
  {
    Ceil(request as real / perNode as real / threshold as real * 100.0)
  }

  /** Extra nodes needed to bring a percentage down to the threshold. */
  function ToAdd(nodeCount: int, percent: real, threshold: int): int
    requires threshold != 0
  {
    Ceil(nodeCount as real * ((percent - threshold as real) / threshold as real))
  }

  /** calcScaleUpDelta; `cachedCpu` and `cachedMemory` are the remembered size of one node. */
  function CalcScaleUpDelta(nodeCount: int, usage: Usage, cpuRequest: int, memRequest: int,
                            cachedCpu: int, cachedMemory: int, threshold: int): Delta
    requires threshold != 0 && !usage.DivisionByZero?
  {
    if usage.Unbounded? && (cachedCpu == 0 || cachedMemory == 0) then Delta(1)
    else
      var delta := if usage.Unbounded? then
                     MaxInt(FromZero(cpuRequest, cachedCpu, threshold),
                            FromZero(Milli(memRequest), Milli(cachedMemory), threshold))
                   else
                     MaxInt(ToAdd(nodeCount, usage.cpu, threshold), ToAdd(nodeCount, usage.memory, threshold));
      if delta < 0 then NegativeDelta(delta) else Delta(delta)
  }

  // ---------- the reference: integer inequalities, no division ----------

  /** `n` nodes of size `perNode` run `request` at no more than `threshold` percent. */
  predicate FitsOne(request: int, perNode: int, threshold: int, n: int) {
    100 * request <= threshold * (n * perNode)
  }

  predicate Fits(cpuRequest: int, memRequest: int, cpu: int, memory: int, threshold: int, n: int) {
    FitsOne(cpuRequest, cpu, threshold, n) && FitsOne(memRequest, memory, threshold, n)
  }

  lemma CeilAtMost(x: real, d: int)
    ensures Ceil(x) <= d <==> x <= d as real
  {
  }

  lemma DivideBound(a: real, b: real, c: real)
    requires b > 0.0
    ensures a / b <= c <==> a <= c * b
    ensures a / b < c <==> a < c * b
  {
    assert a == a / b * b;
    if a / b <= c {
      assert a / b * b <= c * b;
    } else {
      assert a / b * b > c * b;
    }
  }

  lemma PercentBound(request: int, n: int, perNode: int, t: int)
    requires n > 0 && perNode > 0
    ensures n * perNode > 0
    ensures Percent(request, n * perNode) <= t as real <==> 100 * request <= t * (n * perNode)
    ensures Percent(request, n * perNode) < t as real <==> 100 * request < t * (n * perNode)
  {
    var cap := n * perNode;
    DivideBound(100.0 * request as real, cap as real, t as real);
    assert Percent(request, cap) == 100.0 * request as real / cap as real;
    assert (t * cap) as real == t as real * cap as real;
  }

  lemma MilliCancels(request: int, capacity: int)
    requires capacity != 0
    ensures Percent(Milli(request), Milli(capacity)) == Percent(request, capacity)
  {
    var a, b := request as real, capacity as real;
    assert Milli(request) as real == 1000.0 * a && Milli(capacity) as real == 1000.0 * b;
    assert 1000.0 * a / (1000.0 * b) == a / b by {
      var q := a / b;
      assert a == q * b;
      assert 1000.0 * a == q * (1000.0 * b);
    }
  }

  lemma ScaleBound(x: real, d: real, k: real)
    requires k > 0.0
    ensures x <= d <==> x * k <= d * k
  {
    if x <= d {
      assert x * k <= d * k;
    } else {
      assert x * k > d * k;
    }
  }

  /** `count * ((p - t) / t)` with `p` the percentage of `r` in `cap`, cleared of its divisions. */
  lemma ClearDivisions(r: real, cap: real, t: real, count: real)
    requires cap > 0.0 && t > 0.0
    ensures count * ((r / cap * 100.0 - t) / t) * t * cap == count * (100.0 * r - t * cap)
  {
    var p := r / cap * 100.0;
    assert p * cap == 100.0 * r;
    var y := (p - t) / t;
    assert y * t == p - t;
    assert count * y * t * cap == count * (y * t) * cap;
    assert count * (p - t) * cap == count * ((p - t) * cap);
    assert (p - t) * cap == 100.0 * r - t * cap;
  }

  lemma CastBound(u: int, a: int, d: int, t: int, cap: int)
    ensures u as real * (a as real - t as real * cap as real) <= d as real * t as real * cap as real
            <==> u * (a - t * cap) <= d * t * cap
  {
    assert (t * cap) as real == t as real * cap as real;
    assert (u * (a - t * cap)) as real == u as real * (a - t * cap) as real;
    assert (d * t) as real == d as real * t as real;
    assert (d * t * cap) as real == (d * t) as real * cap as real;
  }

  lemma DropCount(u: int, a: int, d: int, t: int, perNode: int)
    requires u > 0
    ensures u * (a - t * (u * perNode)) <= d * t * (u * perNode) <==> a <= t * ((u + d) * perNode)
  {
    assert d * t * (u * perNode) == u * (d * t * perNode);
    CancelInt(u, a - t * (u * perNode), d * t * perNode);
    assert t * ((u + d) * perNode) == t * (u * perNode) + d * t * perNode;
  }

  lemma ToAddAsReals(request: int, cap: int, u: int, t: int, d: int)
    requires cap > 0 && t > 0
    ensures ToAdd(u, Percent(request, cap), t) <= d <==>
            u as real * (100.0 * request as real - t as real * cap as real) <= d as real * t as real * cap as real
  {
    var x := u as real * ((Percent(request, cap) - t as real) / t as real);
    CeilAtMost(x, d);
    ScaleBound(x, d as real, t as real);
    ScaleBound(x * t as real, d as real * t as real, cap as real);
    ClearDivisions(request as real, cap as real, t as real, u as real);
  }

  /** The percentage formula asks for `d` nodes or fewer exactly when `u + d` nodes fit. */
  lemma ToAddExact(request: int, perNode: int, u: int, t: int, d: int)
    requires u > 0 && perNode > 0 && t > 0
    ensures u * perNode > 0
    ensures ToAdd(u, Percent(request, u * perNode), t) <= d <==> FitsOne(request, perNode, t, u + d)
  {
    PercentBound(request, u, perNode, t);
    ToAddAsReals(request, u * perNode, u, t, d);
    CastBound(u, 100 * request, d, t, u * perNode);
    DropCount(u, 100 * request, d, t, perNode);
  }

  lemma CancelInt(k: int, a: int, b: int)
    requires k > 0
    ensures k * a <= k * b <==> a <= b
  {
    if a <= b {
      assert k * a <= k * b;
    } else {
      assert k * a > k * b;
    }
  }

  lemma FromZeroExact(request: int, perNode: int, t: int, d: int)
    requires perNode > 0 && t > 0
    ensures FromZero(request, perNode, t) <= d <==> FitsOne(request, perNode, t, d)
    ensures FromZero(Milli(request), Milli(perNode), t) == FromZero(request, perNode, t)
  {
    MilliCancels(request, perNode);
    var r, c, tr, dr := request as real, perNode as real, t as real, d as real;
    var x := r / c / tr * 100.0;
    CeilAtMost(x, d);
    assert x * (tr * c) == 100.0 * r by {
      assert r / c * c == r;
      assert r / c / tr * tr == r / c;
    }
    assert tr * c > 0.0;
    assert x <= dr <==> x * (tr * c) <= dr * (tr * c);
    assert (t * (d * perNode)) as real == dr * (tr * c);
  }
}
