/** The vector space F_q^n with the Hamming or the Lee metric: the weight of
    a symbol of Z_q, the largest and the average symbol weight (space.cpp),
    and the `VectorSpace` class of src/space.h, whose constructor and
    `SetMetric` check the metric while `SetAlphabetSize` stores any value.

    The capacity computation `SphereSurfArea` runs a conic solver and is not
    part of this module: the cost model takes it as a parameter. */
module Space {
  import opened Errors
  import opened Machine
  import Misc

  const InvalidMetricMessage := "Invalid metric (needs to be either Hamming or Lee)."
  const MetricNotOfferedMessage := "This metric is not offered. Allowed metrics are hamming and lee."

  /** The state of a `VectorSpace`: its metric and alphabet size q. */
  datatype SpaceValue = SpaceValue(metric: string, alphabetSize: uint32)

  /** std::min on unsigned values. */
  function MinNat(x: nat, y: nat): nat {
    if y < x then y else x
  }

  /** The residue of x modulo q lies in [0, q) and is its own residue. */
  lemma Residue(x: int, q: int)
    requires q > 0
    ensures 0 <= x % q < q
    ensures (x % q) % q == x % q
    ensures 0 <= x < q ==> x % q == x
  {
  }

  /** The weight of a symbol: the element is first reduced modulo q; Hamming
      weighs every non-zero residue 1, Lee weighs residue r by its circular
      distance min(r, q - r) to 0; any other metric throws. The alphabet
      size must be non-zero, as `%` by zero is undefined. */
  function Weight(space: SpaceValue, element: uint32): (r: Result<nat>)
    requires space.alphabetSize > 0
    ensures r.Ok? <==> Misc.MetricCheck(space.metric)
    ensures r.Err? ==> r.error == InvalidArgument(InvalidMetricMessage)
    ensures r.Ok? ==> 2 * r.value <= space.alphabetSize
    ensures r.Ok? ==> (r.value == 0 <==> element % space.alphabetSize == 0)
    ensures r.Ok? && space.metric == "hamming" ==> r.value <= 1
  {
    var q := space.alphabetSize;
    var e := element % q;
    Residue(element, q);
    if space.metric == "hamming" then
      Ok(if e != 0 then 1 else 0)
    else if space.metric == "lee" then
      Ok(MinNat(e % q, q - e % q))
    else
      Err(InvalidArgument(InvalidMetricMessage))
  }

  /** The weight depends only on the residue of the element modulo q. */
  lemma WeightOfResidue(space: SpaceValue, x: uint32, y: uint32)
    requires space.alphabetSize > 0
    requires x % space.alphabetSize == y % space.alphabetSize
    ensures Weight(space, x) == Weight(space, y)
  {
  }

  /** Under Lee, r and q - r weigh the same. */
  lemma LeeSymmetric(space: SpaceValue, r: uint32)
    requires space.metric == "lee" && 0 < r < space.alphabetSize
    ensures Weight(space, r) == Weight(space, space.alphabetSize - r)
  {
    Residue(r, space.alphabetSize);
    Residue(space.alphabetSize - r, space.alphabetSize);
  }

  /** The closed form of the largest symbol weight: 1 under Hamming (for
      q >= 2) and floor(q/2) under Lee. */
  function PeakWeight(space: SpaceValue): nat {
    var q := space.alphabetSize;
    if space.metric == "hamming" then (if q >= 2 then 1 else 0) else q / 2
  }

  /** A symbol of weight PeakWeight(space). */
  function PeakSymbol(space: SpaceValue): uint32 {
    var q := space.alphabetSize;
    if space.metric == "hamming" then (if q >= 2 then 1 else 0) else q / 2
  }

  /** PeakWeight is attained and bounds every symbol's weight. */
  lemma PeakWeightIsMaximum(space: SpaceValue)
    requires space.alphabetSize > 0 && Misc.MetricCheck(space.metric)
    ensures PeakSymbol(space) < space.alphabetSize
    ensures Weight(space, PeakSymbol(space)) == Ok(PeakWeight(space))
    ensures forall i: uint32 :: i < space.alphabetSize ==> Weight(space, i).value <= PeakWeight(space)
  {
    var q := space.alphabetSize;
    var p := PeakSymbol(space);
    Residue(p, q);
    forall i: uint32 | i < q
      ensures Weight(space, i).value <= PeakWeight(space)
    {
      Residue(i, q);
    }
  }

  /** MaxWeight: the weights of all q symbols are written into a vector,
      whose largest entry is returned. */
  method MaxWeight(space: SpaceValue) returns (r: Result<nat>)
    requires space.alphabetSize > 0
    ensures r.Ok? <==> Misc.MetricCheck(space.metric)
    ensures r.Err? ==> r.error == InvalidArgument(InvalidMetricMessage)
    ensures r.Ok? ==> exists i: uint32 :: i < space.alphabetSize && Weight(space, i) == Ok(r.value)
    ensures r.Ok? ==> forall i: uint32 :: i < space.alphabetSize ==> Weight(space, i).value <= r.value
    ensures r.Ok? ==> r.value == PeakWeight(space)
  {
    var q := space.alphabetSize;
    var weights := new nat[q];
    var i := 0;
    while i < q
      invariant 0 <= i <= q
      invariant forall j :: 0 <= j < i ==> Weight(space, j) == Ok(weights[j])
    {
      var w := Weight(space, i);
      if w.Err? {
        return Err(w.error);
      }
      weights[i] := w.value;
      i := i + 1;
    }
    var best := 0;
    var k := 1;
    while k < q
      invariant 1 <= k <= q && 0 <= best < k
      invariant forall j :: 0 <= j < k ==> weights[j] <= weights[best]
    {
      if weights[best] < weights[k] {
        best := k;
      }
      k := k + 1;
    }
    r := Ok(weights[best]);
    PeakWeightIsMaximum(space);
    assert weights[PeakSymbol(space)] == PeakWeight(space);
  }

  /** The sum of the weights of the symbols 0 .. n-1. */
  function WeightSum(space: SpaceValue, n: nat): nat
    requires space.alphabetSize > 0 && Misc.MetricCheck(space.metric)
    requires n <= space.alphabetSize
  {
    if n == 0 then 0 else WeightSum(space, n - 1) + Weight(space, n - 1).value
  }

  /** The average symbol weight, scaled by a length. */
  function AverageWeight(space: SpaceValue, length: real): real
    requires space.alphabetSize > 0 && Misc.MetricCheck(space.metric)
  {
    WeightSum(space, space.alphabetSize) as real / space.alphabetSize as real * length
  }

  /** AvgVectorWeight: the symbol weights are accumulated in a running sum,
      which is divided by q and multiplied by the length. */
  method AvgVectorWeight(space: SpaceValue, length: real) returns (r: Result<real>)
    requires space.alphabetSize > 0
    ensures r.Ok? <==> Misc.MetricCheck(space.metric)
    ensures r.Err? ==> r.error == InvalidArgument(InvalidMetricMessage)
    ensures r.Ok? ==> r.value == AverageWeight(space, length)
  {
    var q := space.alphabetSize;
    var avgWeight := 0.0;
    var i := 0;
    while i < q
      invariant 0 <= i <= q
      invariant Misc.MetricCheck(space.metric) ==> avgWeight == WeightSum(space, i) as real
      invariant i > 0 ==> Misc.MetricCheck(space.metric)
    {
      var w := Weight(space, i);
      if w.Err? {
        return Err(w.error);
      }
      avgWeight := avgWeight + w.value as real;
      i := i + 1;
    }
    r := Ok(avgWeight / q as real * length);
  }

  /** Under Hamming the symbols 0 .. n-1 weigh n - 1 in all. */
  lemma {:induction false} HammingWeightSum(space: SpaceValue, n: nat)
    requires space.metric == "hamming" && 0 < n <= space.alphabetSize
    ensures WeightSum(space, n) == n - 1
  {
    Residue(n - 1, space.alphabetSize);
    if n > 1 {
      HammingWeightSum(space, n - 1);
    }
  }

  /** Under Hamming the average weight is (q - 1) / q of the length. */
  lemma HammingAverageWeight(space: SpaceValue, length: real)
    requires space.metric == "hamming" && space.alphabetSize > 0
    ensures AverageWeight(space, length)
         == (space.alphabetSize - 1) as real / space.alphabetSize as real * length
  {
    HammingWeightSum(space, space.alphabetSize);
  }

  /** Every non-zero symbol weighs at least 1, the zero symbol 0, and none
      more than PeakWeight. */
  lemma {:induction false} WeightSumBounds(space: SpaceValue, n: nat)
    requires space.alphabetSize > 0 && Misc.MetricCheck(space.metric)
    requires 0 < n <= space.alphabetSize
    ensures n - 1 <= WeightSum(space, n) <= (n - 1) * PeakWeight(space)
  {
    PeakWeightIsMaximum(space);
    Residue(n - 1, space.alphabetSize);
    if n > 1 {
      WeightSumBounds(space, n - 1);
      var w, p := Weight(space, n - 1).value, PeakWeight(space);
      assert 1 <= w <= p;
      assert (n - 2) * p + p == (n - 1) * p;
    }
  }

  /** The ratio of the average to the largest symbol weight splits [0, 1]:
      for q >= 2 it lies strictly between 0 and 1, so both bisection brackets
      [0, split] and [split, 1] of the root search are proper. */
  lemma SplitPointInside(space: SpaceValue)
    requires space.alphabetSize >= 2 && Misc.MetricCheck(space.metric)
    ensures PeakWeight(space) >= 1
    ensures 0.0 < AverageWeight(space, 1.0) / PeakWeight(space) as real < 1.0
  {
    var q := space.alphabetSize;
    WeightSumBounds(space, q);
    var s, m := WeightSum(space, q), PeakWeight(space);
    assert s < q * m by {
      assert (q - 1) * m + m == q * m;
    }
    RatioBelowOne(s as real, q as real, m as real);
  }

  /** 0 < s < q m with q, m > 0 gives 0 < (s / q) / m < 1. */
  lemma RatioBelowOne(s: real, q: real, m: real)
    requires q > 0.0 && m > 0.0 && 0.0 < s < q * m
    ensures 0.0 < s / q * 1.0 / m < 1.0
  {
    var d := q * m;
    Misc.MulPositive(q, m);
    assert s / q * 1.0 / m == s / d;
    Misc.MulPositive(s, 1.0 / d);
    Misc.MulPositive(d - s, 1.0 / d);
    assert (d - s) * (1.0 / d) == 1.0 - s / d;
  }

  /** The throwing `MetricCheck` that src/space.h declares (the boolean one is Misc.MetricCheck). */
  function MetricCheck(m: string): (o: Outcome)
    ensures o.Pass? <==> Misc.MetricCheck(m)
    ensures o.Fail? ==> o.error == InvalidArgument(MetricNotOfferedMessage)
  {
    if Misc.MetricCheck(m) then Pass else Fail(InvalidArgument(MetricNotOfferedMessage))
  }

  /** `VectorSpace` of src/space.h: the metric is checked, the alphabet size
      is not. */
  class VectorSpace {
    var metric: string
    var alphabetSize: uint32

    function Value(): SpaceValue
      reads this
    {
      SpaceValue(metric, alphabetSize)
    }

    /** The constructor once its metric check has passed. */
    constructor Init(m: string, size: uint32)
      requires Misc.MetricCheck(m)
      ensures Value() == SpaceValue(m, size)
    {
      metric, alphabetSize := m, size;
    }

    /** The constructor: the metric is checked and stored; the alphabet size
        is stored unchecked. Defaults are "hamming" and 2. */
    static method Create(m: string := "hamming", size: uint32 := 2) returns (r: Result<VectorSpace>)
      ensures r.Ok? <==> Misc.MetricCheck(m)
      ensures r.Err? ==> r.error == InvalidArgument(MetricNotOfferedMessage)
      ensures r.Ok? ==> fresh(r.value) && r.value.Value() == SpaceValue(m, size)
    {
      var check := MetricCheck(m);
      if check.Fail? {
        return Err(check.error);
      }
      var vs := new VectorSpace.Init(m, size);
      r := Ok(vs);
    }

    /** The copy constructor. */
    constructor Copy(vs: VectorSpace)
      ensures Value() == vs.Value()
    {
      metric, alphabetSize := vs.metric, vs.alphabetSize;
    }

    /** `operator=`: both fields are copied; self-assignment changes
        nothing. */
    method Assign(vs: VectorSpace)
      modifies this
      ensures Value() == old(vs.Value())
    {
      if this == vs {
        return;
      }
      metric := vs.metric;
      alphabetSize := vs.alphabetSize;
    }

    function GetMetric(): string
      reads this
    {
      metric
    }

    function GetAlphabetSize(): uint32
      reads this
    {
      alphabetSize
    }

    /** Checks the metric, then stores it; the alphabet size is kept. */
    method SetMetric(m: string) returns (o: Outcome)
      modifies this
      ensures o.Pass? <==> Misc.MetricCheck(m)
      ensures o.Pass? ==> Value() == old(Value()).(metric := m)
      ensures o.Fail? ==> o.error == InvalidArgument(MetricNotOfferedMessage) && Value() == old(Value())
    {
      o := MetricCheck(m);
      if o.Pass? {
        metric := m;
      }
    }

    /** Stores any alphabet size, 0 and 1 included. */
    method SetAlphabetSize(size: uint32)
      modifies this
      ensures Value() == old(Value()).(alphabetSize := size)
    {
      alphabetSize := size;
    }
  }
}
