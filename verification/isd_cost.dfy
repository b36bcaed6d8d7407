/** The complexity model of information set decoding (isd.cpp), on a value
    snapshot of an `InformationSetDecoding` object: the clamping of the two
    relative distances, the two capacity ("surface") terms, the Wagner merge
    depth, and the cost formulas built from them. All quantities are
    exponents in bits per code length; `double` is modelled as `real`.

    The capacity `SphereSurfArea` is a parameter `cap`; it returns -1 when
    its solver finds no value. */
module IsdCost {
  import opened Errors
  import opened Machine
  import Misc
  import Space

  /** The terminating tolerance of the searches. */
  const Tol: real := 0.00001
  /** The tolerated computational error. */
  const Epsilon: real := 0.00001

  const Distance1Issue := "Numerical issue on parameter paramP / (codeRate + paramL)."
  const Distance2Issue := "Numerical issue on parameter (weight - paramP) / (1 - codeRate - paramL)."
  const Surface1Missing := "Surface area surface1 is not found."
  const Surface2Missing := "Surface area surface2 is not found."

  /** `VectorSpace::SphereSurfArea`: the capacity of a sphere of relative
      radius d in a space, or -1 when none is found. */
  type Capacity = (Space.SpaceValue, real) -> real

  /** The fields of an `InformationSetDecoding` object. `space` and
      `surfaceW` are computed by the constructor and cached. */
  datatype Instance = Instance(
    alphabetSize: uint32,
    codeRate: real,
    weight: real,
    surfaceW: real,
    metric: string,
    algorithm: string,
    space: Space.SpaceValue)

  /** The result of `RunTime`: the cost and the merge depth it chose. */
  datatype Timing = Timing(runTime: real, optLevelNum: nat)

  // ---------------------------------------------------------------------
  // The two relative distances and their capacities

  /** A relative distance num / den. A value in [0, 1] is kept, one in
      (1, 1 + Epsilon] is taken as exactly 1 (a rounding error), and any
      other value raises the runtime error `message`; so does a zero
      denominator, whose IEEE quotient (infinite or NaN) fails both tests. */
  function Clamp(num: real, den: real, message: string): (r: Result<real>)
    ensures r.Ok? <==> den != 0.0 && 0.0 <= num / den <= 1.0 + Epsilon
    ensures r.Ok? ==> Misc.ParamCheck(r.value) && r.value == Misc.Min(num / den, 1.0)
    ensures r.Err? ==> r.error == RuntimeError(message)
  {
    if den == 0.0 then
      Err(RuntimeError(message))
    else
      var distance := num / den;
      if Misc.ParamCheck(distance) then Ok(distance)
      else if distance >= 1.0 && distance <= 1.0 + Epsilon then Ok(1.0)
      else Err(RuntimeError(message))
  }

  /** The surface check the source evidently intends: a capacity of -1
      means the solver found none. */
  function Surface(scale: real, capacity: real, message: string): (r: Result<real>)
    ensures r.Err? <==> capacity == -1.0
    ensures r.Err? ==> r.error == InvalidArgument(message)
    ensures r.Ok? ==> r.value == scale * capacity
  {
    if capacity == -1.0 then Err(InvalidArgument(message)) else Ok(scale * capacity)
  }

  /** The surface check as isd.cpp writes it: the SCALED capacity is
      compared with -1. */
  function SurfaceAsWritten(scale: real, capacity: real, message: string): (r: Result<real>)
    ensures r.Err? <==> scale * capacity == -1.0
    ensures r.Err? ==> r.error == InvalidArgument(message)
    ensures r.Ok? ==> r.value == scale * capacity
  {
    var surface := scale * capacity;
    if surface == -1.0 then Err(InvalidArgument(message)) else Ok(surface)
  }

  /** A capacity that was not found passes the check as written whenever the
      scale codeRate + paramL is not 1, and the cost goes on with a negative
      surface. */
  lemma SurfaceCheckMissesNotFound()
    ensures Surface(0.5, -1.0, Surface1Missing).Err?
    ensures SurfaceAsWritten(0.5, -1.0, Surface1Missing) == Ok(-0.5)
  {
  }

  /** For a capacity that was found (non-negative) and a non-negative scale,
      the two checks agree. */
  lemma SurfaceChecksAgree(scale: real, capacity: real, message: string)
    requires scale >= 0.0 && capacity >= 0.0
    ensures SurfaceAsWritten(scale, capacity, message) == Surface(scale, capacity, message)
  {
    Misc.MulNonneg(scale, capacity);
  }

  /** The first distance paramP / (codeRate + paramL), clamped. */
  function Distance1(inst: Instance, paramL: real, paramP: real): (r: Result<real>)
    ensures r.Ok? <==>
      inst.codeRate + paramL != 0.0 && 0.0 <= paramP / (inst.codeRate + paramL) <= 1.0 + Epsilon
    ensures r.Ok? ==> Misc.ParamCheck(r.value) && r.value == Misc.Min(paramP / (inst.codeRate + paramL), 1.0)
    ensures r.Err? ==> r.error == RuntimeError(Distance1Issue)
  {
    Clamp(paramP, inst.codeRate + paramL, Distance1Issue)
  }

  /** The second distance (weight - paramP) / (1 - codeRate - paramL),
      clamped. */
  function Distance2(inst: Instance, paramL: real, paramP: real): (r: Result<real>)
    ensures r.Ok? <==>
      1.0 - inst.codeRate - paramL != 0.0 &&
      0.0 <= (inst.weight - paramP) / (1.0 - inst.codeRate - paramL) <= 1.0 + Epsilon
    ensures r.Ok? ==>
      Misc.ParamCheck(r.value) &&
      r.value == Misc.Min((inst.weight - paramP) / (1.0 - inst.codeRate - paramL), 1.0)
    ensures r.Err? ==> r.error == RuntimeError(Distance2Issue)
  {
    Clamp(inst.weight - paramP, 1.0 - inst.codeRate - paramL, Distance2Issue)
  }

  /** surface1 = (codeRate + paramL) * cap(distance1). */
  function Surface1(inst: Instance, cap: Capacity, paramL: real, paramP: real): (r: Result<real>)
    ensures r.Ok? <==>
      Distance1(inst, paramL, paramP).Ok? && cap(inst.space, Distance1(inst, paramL, paramP).value) != -1.0
    ensures r.Ok? ==>
      r.value == (inst.codeRate + paramL) * cap(inst.space, Distance1(inst, paramL, paramP).value)
    ensures r.Err? ==>
      r.error == if Distance1(inst, paramL, paramP).Err? then RuntimeError(Distance1Issue)
                 else InvalidArgument(Surface1Missing)
  {
    var distance1 :- Distance1(inst, paramL, paramP);
    Surface(inst.codeRate + paramL, cap(inst.space, distance1), Surface1Missing)
  }

  /** surface2 = (1 - codeRate - paramL) * cap(distance2). */
  function Surface2(inst: Instance, cap: Capacity, paramL: real, paramP: real): (r: Result<real>)
    ensures r.Ok? <==>
      Distance2(inst, paramL, paramP).Ok? && cap(inst.space, Distance2(inst, paramL, paramP).value) != -1.0
    ensures r.Ok? ==>
      r.value == (1.0 - inst.codeRate - paramL) * cap(inst.space, Distance2(inst, paramL, paramP).value)
    ensures r.Err? ==>
      r.error == if Distance2(inst, paramL, paramP).Err? then RuntimeError(Distance2Issue)
                 else InvalidArgument(Surface2Missing)
  {
    var distance2 :- Distance2(inst, paramL, paramP);
    Surface(1.0 - inst.codeRate - paramL, cap(inst.space, distance2), Surface2Missing)
  }

  // ---------------------------------------------------------------------
  // The search brackets and the absence of numerical issues inside them

  /** The lower end of the paramP bracket for a given paramL. */
  function PLow(inst: Instance, paramL: real): real {
    Misc.Max(0.0, inst.weight - (1.0 - inst.codeRate - paramL))
  }

  /** The upper end of the paramP bracket for a given paramL. */
  function PHigh(inst: Instance, paramL: real): real {
    Misc.Min(inst.weight, inst.codeRate + paramL)
  }

  /** For a normalised weight and a paramL inside [0, 1 - codeRate] the
      paramP bracket is not empty. */
  lemma BracketOrdered(inst: Instance, paramL: real)
    requires Misc.ParamCheck(inst.weight) && 0.0 <= inst.codeRate
    requires 0.0 <= paramL <= 1.0 - inst.codeRate
    ensures PLow(inst, paramL) <= PHigh(inst, paramL)
  {
  }

  /** 0 <= x <= d with d > 0 gives a quotient in [0, 1]. */
  lemma UnitQuotient(x: real, d: real)
    requires d > 0.0 && 0.0 <= x <= d
    ensures 0.0 <= x / d <= 1.0
  {
    var t := x / d;
    assert t * d == x;
    if t < 0.0 {
      Misc.MulNonneg(-t, d);
    }
    if t > 1.0 {
      Misc.MulNonneg(t - 1.0, d);
    }
  }

  /** Under exact arithmetic a paramP inside its bracket gives both
      distances in [0, 1], as long as both denominators codeRate + paramL and
      1 - codeRate - paramL are positive. */
  lemma BracketDistancesValid(inst: Instance, paramL: real, paramP: real)
    requires Misc.ParamCheck(inst.weight) && 0.0 <= inst.codeRate && 0.0 <= paramL
    requires 0.0 < inst.codeRate + paramL && paramL < 1.0 - inst.codeRate
    requires Misc.Between(paramP, PLow(inst, paramL), PHigh(inst, paramL))
    ensures Distance1(inst, paramL, paramP) == Ok(paramP / (inst.codeRate + paramL))
    ensures Distance2(inst, paramL, paramP) == Ok((inst.weight - paramP) / (1.0 - inst.codeRate - paramL))
  {
    BracketOrdered(inst, paramL);
    UnitQuotient(paramP, inst.codeRate + paramL);
    UnitQuotient(inst.weight - paramP, 1.0 - inst.codeRate - paramL);
  }

  // ---------------------------------------------------------------------
  // The Wagner merge depth

  function Pow2(k: nat): (r: real)
    ensures r >= 1.0
  {
    if k == 0 then 1.0 else 2.0 * Pow2(k - 1)
  }

  /** The condition of the level loop: depth k still pays,
      paramL <= k / 2^k * surface1. */
  predicate MergeCondition(paramL: real, surface1: real, k: nat) {
    paramL <= k as real / Pow2(k) * surface1
  }

  /** The level loop, started at depth 2, exits: paramL is positive (k / 2^k
      tends to 0), or the condition already fails at depth 2. */
  predicate LevelLoopExits(paramL: real, surface1: real) {
    paramL > 0.0 || !MergeCondition(paramL, surface1, 2)
  }

  /** A depth at which the condition certainly fails when the loop exits. */
  function LevelBound(paramL: real, surface1: real): nat {
    if paramL > 0.0 && surface1 > 0.0 then
      var n := (surface1 / paramL).Floor + 1;
      if n < 4 then 4 else n
    else 2
  }

  /** 2^k >= 2k for k >= 1. */
  lemma {:induction false} Pow2AtLeastDouble(k: nat)
    requires k >= 1
    ensures Pow2(k) >= 2.0 * k as real
  {
    if k > 1 {
      Pow2AtLeastDouble(k - 1);
    }
  }

  /** 2^k >= k^2 for k >= 4. */
  lemma {:induction false} Pow2AtLeastSquare(k: nat)
    requires k >= 4
    ensures Pow2(k) >= k as real * k as real
  {
    if k > 4 {
      var m := (k - 1) as real;
      assert k as real == m + 1.0;
      Pow2AtLeastSquare(k - 1);
      assert Pow2(k) >= 2.0 * (m * m);
      Misc.MulNonneg(m - 3.0, m + 1.0);
      assert (m - 3.0) * (m + 1.0) == m * m - 2.0 * m - 3.0;
      assert (m + 1.0) * (m + 1.0) == m * m + 2.0 * m + 1.0;
    } else {
      assert k as real == 4.0 && Pow2(4) == 16.0;
    }
  }

  /** k / p <= 1 / k when p >= k^2 > 0. */
  lemma RatioBelowReciprocal(kr: real, p: real)
    requires kr > 0.0 && p > 0.0 && p >= kr * kr
    ensures kr / p <= 1.0 / kr
  {
    var u, v, w := kr / p, 1.0 / kr, kr * p;
    Misc.MulPositive(kr, p);
    assert (v - u) * w == p - kr * kr by {
      assert v * kr == 1.0 && u * p == kr;
      assert v * w == (v * kr) * p && u * w == (u * p) * kr;
    }
    DivNonneg(p - kr * kr, w);
  }

  lemma DivNonneg(x: real, y: real)
    requires x >= 0.0 && y > 0.0
    ensures x / y >= 0.0
  {
  }

  /** k / 2^k * s <= s / k for s >= 0 and k >= 4. */
  lemma DepthFactorBelowReciprocal(s: real, k: nat)
    requires s >= 0.0 && k >= 4
    ensures k as real / Pow2(k) * s <= s / k as real
  {
    var kr := k as real;
    Pow2AtLeastSquare(k);
    RatioBelowReciprocal(kr, Pow2(k));
    Misc.MulNonneg(1.0 / kr - kr / Pow2(k), s);
    assert s / kr == 1.0 / kr * s;
  }

  /** The condition fails at LevelBound whenever the loop exits. */
  lemma FailsAtBound(paramL: real, surface1: real)
    requires LevelLoopExits(paramL, surface1)
    ensures !MergeCondition(paramL, surface1, LevelBound(paramL, surface1))
  {
    var k := LevelBound(paramL, surface1);
    if paramL > 0.0 && surface1 > 0.0 {
      var kr := k as real;
      assert kr > surface1 / paramL;
      DepthFactorBelowReciprocal(surface1, k);
      assert surface1 / kr < paramL by {
        assert kr * paramL > surface1 by {
          assert (surface1 / paramL) * paramL == surface1;
          Misc.MulNonneg(kr - surface1 / paramL, paramL);
          assert (kr - surface1 / paramL) * paramL > 0.0 by {
            Misc.MulPositive(kr - surface1 / paramL, paramL);
          }
        }
        assert (surface1 / kr) * kr == surface1;
        if surface1 / kr >= paramL {
          Misc.MulNonneg(surface1 / kr - paramL, kr);
        }
      }
    } else if paramL > 0.0 {
      assert k == 2;
      Misc.MulNonneg(2.0 / Pow2(2), -surface1);
    }
  }

  /** When the loop does not exit, the condition holds at every depth from 2
      on: the source's loop never ends. */
  lemma LevelLoopDiverges(paramL: real, surface1: real, k: nat)
    requires !LevelLoopExits(paramL, surface1) && k >= 2
    ensures MergeCondition(paramL, surface1, k)
  {
    var f := k as real / Pow2(k);
    Pow2AtLeastDouble(k);
    assert 0.0 < f <= 0.5 by {
      assert f * Pow2(k) == k as real;
      if f > 0.5 {
        Misc.MulNonneg(f - 0.5, Pow2(k));
      }
    }
    assert Pow2(2) == 4.0;
    if surface1 >= 0.0 {
      Misc.MulNonneg(f, surface1);
    } else {
      Misc.MulNonneg(0.5 - f, -surface1);
    }
  }

  /** The first depth from k on at which the condition fails. */
  function FirstFailure(paramL: real, surface1: real, k: nat): (r: nat)
    requires LevelLoopExits(paramL, surface1) && 2 <= k <= LevelBound(paramL, surface1)
    ensures k <= r <= LevelBound(paramL, surface1)
    ensures !MergeCondition(paramL, surface1, r)
    ensures forall j: nat :: k <= j < r ==> MergeCondition(paramL, surface1, j)
    decreases LevelBound(paramL, surface1) - k
  {
    if !MergeCondition(paramL, surface1, k) then
      k
    else
      FailsAtBound(paramL, surface1);
      FirstFailure(paramL, surface1, k + 1)
  }

  /** The merge depth `RunTime` chooses: 1 for Prange and Dumer/Stern; for
      any other algorithm the last depth from 2 on at which the condition
      still holds, or 1 when it fails at once. */
  function OptLevel(algorithm: string, paramL: real, surface1: real): (r: Result<nat>)
    ensures algorithm == "prange" || algorithm == "dumer" ==> r == Ok(1)
    ensures r.Err? <==> algorithm != "prange" && algorithm != "dumer" && !LevelLoopExits(paramL, surface1)
    ensures r.Err? ==> r.error == NoTermination
    ensures r.Ok? ==> r.value >= 1
    ensures r.Ok? && algorithm != "prange" && algorithm != "dumer" ==>
              (forall j: nat :: 2 <= j <= r.value ==> MergeCondition(paramL, surface1, j))
              && !MergeCondition(paramL, surface1, r.value + 1)
  {
    if algorithm == "prange" || algorithm == "dumer" then Ok(1)
    else if !LevelLoopExits(paramL, surface1) then Err(NoTermination)
    else Ok(FirstFailure(paramL, surface1, 2) - 1)
  }

  /** The level loop of `RunTime`: the depth starts at 2, grows while the
      condition holds, and is finally decreased by one. A loop that would
      never exit is reported as NoTermination before it starts. */
  method SelectOptLevel(algorithm: string, paramL: real, surface1: real) returns (r: Result<nat>)
    ensures r == OptLevel(algorithm, paramL, surface1)
  {
    if algorithm == "prange" || algorithm == "dumer" {
      return Ok(1);
    }
    if !LevelLoopExits(paramL, surface1) {
      return Err(NoTermination);
    }
    var optLevelNum: nat := 2;
    while MergeCondition(paramL, surface1, optLevelNum)
      invariant 2 <= optLevelNum <= LevelBound(paramL, surface1)
      invariant FirstFailure(paramL, surface1, optLevelNum) == FirstFailure(paramL, surface1, 2)
      decreases LevelBound(paramL, surface1) - optLevelNum
    {
      FailsAtBound(paramL, surface1);
      optLevelNum := optLevelNum + 1;
    }
    r := Ok(optLevelNum - 1);
  }

  // ---------------------------------------------------------------------
  // The cost formulas

  /** The size of the bottom lists of a depth-k merge tree. */
  function BottomListSize(quantum: bool, paramL: real, surface1: real, k: nat): (r: real)
    requires k >= 1
    ensures r <= paramL / k as real
    ensures r <= surface1 / (if quantum then Pow2(k) + 1.0 else Pow2(k))
    ensures r == paramL / k as real || r == surface1 / (if quantum then Pow2(k) + 1.0 else Pow2(k))
  {
    if quantum then
      Misc.Min(surface1 / (Pow2(k) + 1.0), paramL / k as real)
    else
      Misc.Min(surface1 / Pow2(k), paramL / k as real)
  }

  /** The part of paramL not consumed by the k - 1 merges. */
  function ParamM(paramL: real, k: nat, bottomListSize: real): (r: real)
    requires k >= 1
    ensures k == 1 ==> r == paramL
    ensures bottomListSize <= paramL / k as real ==> bottomListSize <= r
  {
    assert bottomListSize <= paramL / k as real ==> bottomListSize <= paramL - (k - 1) as real * bottomListSize by {
      if bottomListSize <= paramL / k as real {
        Misc.MulNonneg(k as real, paramL / k as real - bottomListSize);
      }
    }
    paramL - (k - 1) as real * bottomListSize
  }

  /** k copies of the bottom list never exceed paramL. */
  lemma BottomListsFit(quantum: bool, paramL: real, surface1: real, k: nat)
    requires k >= 1
    ensures k as real * BottomListSize(quantum, paramL, surface1, k) <= paramL
  {
    var b, kr := BottomListSize(quantum, paramL, surface1, k), k as real;
    assert b <= paramL / kr;
    Misc.MulNonneg(kr, paramL / kr - b);
  }

  /** `BDayDecCost`: the cost of birthday decoding at depth k, the smaller of
      the merged list size and paramL / k. */
  function BDayDecCost(inst: Instance, cap: Capacity, quantum: bool, paramL: real, paramP: real, k: nat): (r: Result<real>)
    requires k >= 1
    ensures r.Ok? <==> Surface1(inst, cap, paramL, paramP).Ok?
    ensures r.Err? ==> r.error == Surface1(inst, cap, paramL, paramP).error
    ensures r.Ok? ==> r.value <= paramL / k as real
    ensures r.Ok? && !quantum ==> r.value <= Surface1(inst, cap, paramL, paramP).value / Pow2(k)
    ensures r.Ok? && quantum ==> r.value <= Surface1(inst, cap, paramL, paramP).value / (Pow2(k) + 1.0)
    ensures r.Ok? ==> r.value == paramL / k as real
                      || r.value == Surface1(inst, cap, paramL, paramP).value / (if quantum then Pow2(k) + 1.0 else Pow2(k))
  {
    var surface1 :- Surface1(inst, cap, paramL, paramP);
    Ok(BottomListSize(quantum, paramL, surface1, k))
  }

  /** `IterCost`: the cost of one iteration; isd.cpp computes it exactly as
      `BDayDecCost`. */
  function IterCost(inst: Instance, cap: Capacity, quantum: bool, paramL: real, paramP: real, k: nat): (r: Result<real>)
    requires k >= 1
    ensures r.Ok? <==> Surface1(inst, cap, paramL, paramP).Ok?
    ensures r.Err? ==> r.error == Surface1(inst, cap, paramL, paramP).error
    ensures r.Ok? ==> r.value <= paramL / k as real
    ensures r.Ok? ==> r.value <= Surface1(inst, cap, paramL, paramP).value / (if quantum then Pow2(k) + 1.0 else Pow2(k))
    ensures r.Ok? ==> r.value == paramL / k as real
                      || r.value == Surface1(inst, cap, paramL, paramP).value / (if quantum then Pow2(k) + 1.0 else Pow2(k))
  {
    var surface1 :- Surface1(inst, cap, paramL, paramP);
    Ok(BottomListSize(quantum, paramL, surface1, k))
  }

  lemma BDayDecCostIsIterCost(inst: Instance, cap: Capacity, quantum: bool, paramL: real, paramP: real, k: nat)
    requires k >= 1
    ensures BDayDecCost(inst, cap, quantum, paramL, paramP, k) == IterCost(inst, cap, quantum, paramL, paramP, k)
  {
  }

  /** `SolsPerIter`: the number of solutions one iteration produces,
      2 (3 for quantum) bottom lists minus paramM. It is k + 1 (k + 2) bottom
      lists minus paramL, and never more than one (two) bottom lists. */
  function SolsPerIter(inst: Instance, cap: Capacity, quantum: bool, paramL: real, paramP: real, k: nat): (r: Result<real>)
    requires k >= 1
    ensures r.Ok? <==> IterCost(inst, cap, quantum, paramL, paramP, k).Ok?
    ensures r.Ok? ==> var b := IterCost(inst, cap, quantum, paramL, paramP, k).value;
              r.value == (k + (if quantum then 2 else 1)) as real * b - paramL
              && r.value <= (if quantum then 2.0 else 1.0) * b
  {
    var surface1 :- Surface1(inst, cap, paramL, paramP);
    var bottomListSize := BottomListSize(quantum, paramL, surface1, k);
    BottomListsFit(quantum, paramL, surface1, k);
    var paramM := ParamM(paramL, k, bottomListSize);
    if quantum then Ok(3.0 * bottomListSize - paramM) else Ok(2.0 * bottomListSize - paramM)
  }

  /** `SolsNum`: the expected number of solutions, max(surfaceW - (1 -
      codeRate), 0), from the cached surfaceW. */
  function SolsNum(inst: Instance): (r: real)
    ensures r >= 0.0 && r >= inst.surfaceW - (1.0 - inst.codeRate)
    ensures r == 0.0 <==> inst.surfaceW <= 1.0 - inst.codeRate
  {
    Misc.Max(inst.surfaceW - (1.0 - inst.codeRate), 0.0)
  }

  /** `PartSolProb`: the probability of finding a particular solution. */
  function PartSolProb(inst: Instance, cap: Capacity, paramL: real, paramP: real): (r: Result<real>)
    ensures r.Ok? <==> Surface2(inst, cap, paramL, paramP).Ok?
    ensures r.Err? ==> r.error == Surface2(inst, cap, paramL, paramP).error
  {
    var surface2 :- Surface2(inst, cap, paramL, paramP);
    Ok(surface2 - inst.surfaceW + paramL)
  }

  /** `AnySolProb`: the probability of finding any solution. It is the
      particular-solution probability times the number of solutions, capped
      at 1 (in exponents: a sum, capped at 0). */
  function AnySolProb(inst: Instance, cap: Capacity, paramL: real, paramP: real): (r: Result<real>)
    ensures r.Ok? <==> PartSolProb(inst, cap, paramL, paramP).Ok?
    ensures r.Err? ==> r.error == PartSolProb(inst, cap, paramL, paramP).error
    ensures r.Ok? ==> r.value <= 0.0
    ensures r.Ok? ==> r.value == Misc.Min(0.0, PartSolProb(inst, cap, paramL, paramP).value + SolsNum(inst))
    ensures r.Ok? ==> r.value >= Misc.Min(0.0, PartSolProb(inst, cap, paramL, paramP).value)
  {
    var surface2 :- Surface2(inst, cap, paramL, paramP);
    Ok(Misc.Min(0.0, surface2 + paramL - Misc.Min(1.0 - inst.codeRate, inst.surfaceW)))
  }

  /** With no more capacity than redundancy there is at most one solution,
      and finding any solution is as likely as finding the particular one. */
  lemma UniqueSolutionRegime(inst: Instance, cap: Capacity, paramL: real, paramP: real)
    requires inst.surfaceW <= 1.0 - inst.codeRate
    requires PartSolProb(inst, cap, paramL, paramP).Ok?
    ensures SolsNum(inst) == 0.0
    ensures AnySolProb(inst, cap, paramL, paramP) == Ok(Misc.Min(0.0, PartSolProb(inst, cap, paramL, paramP).value))
  {
  }

  /** `InformationSetDecoding::RunTime`: both distances are clamped and their
      surfaces computed, the merge depth is chosen, and the cost is the
      iteration cost minus the (non-positive) log-probability that an
      iteration yields a solution; the quantum variant halves that term. */
  function RunTime(inst: Instance, cap: Capacity, quantum: bool, paramL: real, paramP: real): (r: Result<Timing>)
    ensures r.Ok? ==> r.value.optLevelNum >= 1
    ensures r.Ok? && (inst.algorithm == "prange" || inst.algorithm == "dumer") ==> r.value.optLevelNum == 1
    ensures r.Err? && r.error.RuntimeError? ==>
              Distance1(inst, paramL, paramP).Err? || Distance2(inst, paramL, paramP).Err?
    ensures r.Err? && r.error == NoTermination ==>
              inst.algorithm != "prange" && inst.algorithm != "dumer" && paramL <= 0.0
    ensures r.Ok? ==> var b := IterCost(inst, cap, quantum, paramL, paramP, r.value.optLevelNum);
              b.Ok? && r.value.runTime >= b.value
    ensures r.Ok? ==> Surface1(inst, cap, paramL, paramP).Ok?
                      && OptLevel(inst.algorithm, paramL, Surface1(inst, cap, paramL, paramP).value) == Ok(r.value.optLevelNum)
  {
    var surface1 :- Surface1(inst, cap, paramL, paramP);
    var surface2 :- Surface2(inst, cap, paramL, paramP);
    var k :- OptLevel(inst.algorithm, paramL, surface1);
    Ok(Timing(Cost(inst, quantum, paramL, surface1, surface2, k), k))
  }

  /** The cost at merge depth k once both surfaces are known. */
  function Cost(inst: Instance, quantum: bool, paramL: real, surface1: real, surface2: real, k: nat): real
    requires k >= 1
  {
    var bottomListSize := BottomListSize(quantum, paramL, surface1, k);
    var paramM := ParamM(paramL, k, bottomListSize);
    var anySolProb := Misc.Min(0.0, surface2 + paramL - Misc.Min(1.0 - inst.codeRate, inst.surfaceW));
    if quantum then
      bottomListSize - 0.5 * Misc.Min(0.0, anySolProb + 3.0 * bottomListSize - paramM)
    else
      bottomListSize - Misc.Min(0.0, anySolProb + 2.0 * bottomListSize - paramM)
  }

  /** The cost `RunTime` computes is the one the separate member functions
      describe: iteration cost minus min(0, AnySolProb + SolsPerIter), the
      second term halved for quantum. */
  lemma RunTimeDecomposes(inst: Instance, cap: Capacity, quantum: bool, paramL: real, paramP: real)
    requires RunTime(inst, cap, quantum, paramL, paramP).Ok?
    ensures var t := RunTime(inst, cap, quantum, paramL, paramP).value;
            var iter := IterCost(inst, cap, quantum, paramL, paramP, t.optLevelNum);
            var any := AnySolProb(inst, cap, paramL, paramP);
            var sols := SolsPerIter(inst, cap, quantum, paramL, paramP, t.optLevelNum);
            iter.Ok? && any.Ok? && sols.Ok?
            && t.runTime == iter.value - (if quantum then 0.5 else 1.0) * Misc.Min(0.0, any.value + sols.value)
  {
  }

  /** Under exact arithmetic `RunTime` never raises the numerical-issue error
      at a paramP inside its bracket, when both denominators are positive. */
  lemma NoNumericalIssueInBracket(inst: Instance, cap: Capacity, quantum: bool, paramL: real, paramP: real)
    requires Misc.ParamCheck(inst.weight) && 0.0 <= inst.codeRate && 0.0 <= paramL
    requires 0.0 < inst.codeRate + paramL && paramL < 1.0 - inst.codeRate
    requires Misc.Between(paramP, PLow(inst, paramL), PHigh(inst, paramL))
    ensures RunTime(inst, cap, quantum, paramL, paramP).Err? ==>
              !RunTime(inst, cap, quantum, paramL, paramP).error.RuntimeError?
  {
    BracketDistancesValid(inst, paramL, paramP);
  }

  /** `RunTime` raises exception e at some paramP of the bracket for
      paramL. */
  ghost predicate FailsInBracket(inst: Instance, cap: Capacity, quantum: bool, paramL: real, e: Exception) {
    exists p :: Misc.Between(p, PLow(inst, paramL), PHigh(inst, paramL))
                && RunTime(inst, cap, quantum, paramL, p) == Err(e)
  }

  /** An exception raised inside the bracket is never the numerical-issue
      one, under the conditions of NoNumericalIssueInBracket. */
  lemma FailureIsNotNumerical(inst: Instance, cap: Capacity, quantum: bool, paramL: real, e: Exception)
    requires Misc.ParamCheck(inst.weight) && 0.0 <= inst.codeRate && 0.0 <= paramL
    requires 0.0 < inst.codeRate + paramL && paramL < 1.0 - inst.codeRate
    requires FailsInBracket(inst, cap, quantum, paramL, e)
    ensures !e.RuntimeError?
  {
    var p :| Misc.Between(p, PLow(inst, paramL), PHigh(inst, paramL))
             && RunTime(inst, cap, quantum, paramL, p) == Err(e);
    NoNumericalIssueInBracket(inst, cap, quantum, paramL, p);
  }

  /** `RunTime` as the objective of a search over paramP, for a fixed
      paramL. */
  function CostAt(inst: Instance, cap: Capacity, quantum: bool, paramL: real): real -> Result<real> {
    (p: real) => RunTimeValue(inst, cap, quantum, paramL, p)
  }

  /** The search objective fails exactly where `RunTime` does, with its
      exception. */
  lemma CostAtFails(inst: Instance, cap: Capacity, quantum: bool, paramL: real, paramP: real)
    ensures CostAt(inst, cap, quantum, paramL)(paramP).Err? <==> RunTime(inst, cap, quantum, paramL, paramP).Err?
    ensures CostAt(inst, cap, quantum, paramL)(paramP).Err? ==>
              RunTime(inst, cap, quantum, paramL, paramP) == Err(CostAt(inst, cap, quantum, paramL)(paramP).error)
  {
  }

  /** The cost alone. */
  function RunTimeValue(inst: Instance, cap: Capacity, quantum: bool, paramL: real, paramP: real): Result<real> {
    var t :- RunTime(inst, cap, quantum, paramL, paramP);
    Ok(t.runTime)
  }

  // ---------------------------------------------------------------------
  // What the two nested golden-section searches compute

  /** r is what the inner golden-section search of the cost at paramL
      returns: a paramP of the bracket [PLow, PHigh], or an exception of
      the cost. */
  ghost predicate InnerSearch(inst: Instance, cap: Capacity, quantum: bool, gr: real, paramL: real, r: Result<real>)
    requires gr != 0.0
  {
    Misc.Searched(PLow(inst, paramL), PHigh(inst, paramL), Tol, gr, CostAt(inst, cap, quantum, paramL), r)
  }

  /** One step of the outer search over paramL: optC and optD are what the
      inner searches at the probes c and d of the bracket return, the cost
      is defined at both, and the bracket keeps [a, d] when the cost at c is
      lower and [c, b] otherwise. */
  ghost predicate OuterStep(inst: Instance, cap: Capacity, quantum: bool, gr: real,
                            bracket: (real, real), optC: real, optD: real, next: (real, real))
    requires gr != 0.0
  {
    var c, d := Misc.LowerProbe(bracket.0, bracket.1, gr), Misc.UpperProbe(bracket.0, bracket.1, gr);
    var tc, td := RunTime(inst, cap, quantum, c, optC), RunTime(inst, cap, quantum, d, optD);
    && InnerSearch(inst, cap, quantum, gr, c, Ok(optC))
    && InnerSearch(inst, cap, quantum, gr, d, Ok(optD))
    && tc.Ok? && td.Ok?
    && next == (if tc.value.runTime < td.value.runTime then (bracket.0, d) else (c, bracket.1))
  }

  /** The comparison of the probes c and d raises e: the inner search at c
      fails, or it succeeds and the one at d fails, or both succeed and the
      cost at c, or else the cost at d, throws. */
  ghost predicate ProbesFail(inst: Instance, cap: Capacity, quantum: bool, gr: real, c: real, d: real, e: Exception)
    requires gr != 0.0
  {
    || InnerSearch(inst, cap, quantum, gr, c, Err(e))
    || exists optC :: InnerSearch(inst, cap, quantum, gr, c, Ok(optC)) && (
         || InnerSearch(inst, cap, quantum, gr, d, Err(e))
         || exists optD :: InnerSearch(inst, cap, quantum, gr, d, Ok(optD)) && (
              || RunTime(inst, cap, quantum, c, optC) == Err(e)
              || (RunTime(inst, cap, quantum, c, optC).Ok? && RunTime(inst, cap, quantum, d, optD) == Err(e))))
  }

  /** The outer search over paramL in [0, 1 - codeRate] visits the brackets
      of `trace`: each one but the last is unconverged and narrowed by an
      outer step whose inner results are recorded in optCs and optDs. */
  ghost predicate OuterRun(inst: Instance, cap: Capacity, quantum: bool, gr: real,
                           trace: seq<(real, real)>, optCs: seq<real>, optDs: seq<real>)
    requires gr != 0.0
  {
    && |trace| > 0
    && trace[0] == (0.0, 1.0 - inst.codeRate)
    && |optCs| == |optDs| == |trace| - 1
    && forall i :: 0 <= i < |trace| - 1 ==>
         && !Misc.Converged(trace[i].0, trace[i].1, Tol, gr)
         && OuterStep(inst, cap, quantum, gr, trace[i], optCs[i], optDs[i], trace[i + 1])
  }

  /** An outer step is determined by its bracket: the inner results and the
      next bracket are unique. */
  lemma OuterStepUnique(inst: Instance, cap: Capacity, quantum: bool, gr: real, bracket: (real, real),
                        optC1: real, optD1: real, next1: (real, real),
                        optC2: real, optD2: real, next2: (real, real))
    requires gr != 0.0
    requires OuterStep(inst, cap, quantum, gr, bracket, optC1, optD1, next1)
    requires OuterStep(inst, cap, quantum, gr, bracket, optC2, optD2, next2)
    ensures optC1 == optC2 && optD1 == optD2 && next1 == next2
  {
    var c, d := Misc.LowerProbe(bracket.0, bracket.1, gr), Misc.UpperProbe(bracket.0, bracket.1, gr);
    Misc.SearchedUnique(PLow(inst, c), PHigh(inst, c), Tol, gr, CostAt(inst, cap, quantum, c), Ok(optC1), Ok(optC2));
    Misc.SearchedUnique(PLow(inst, d), PHigh(inst, d), Tol, gr, CostAt(inst, cap, quantum, d), Ok(optD1), Ok(optD2));
  }

  /** An outer run grows by one outer step at its last bracket when that
      bracket has not converged. */
  lemma OuterRunExtended(inst: Instance, cap: Capacity, quantum: bool, gr: real,
                         trace: seq<(real, real)>, optCs: seq<real>, optDs: seq<real>,
                         optC: real, optD: real, next: (real, real))
    requires gr != 0.0 && OuterRun(inst, cap, quantum, gr, trace, optCs, optDs)
    requires !Misc.Converged(trace[|trace| - 1].0, trace[|trace| - 1].1, Tol, gr)
    requires OuterStep(inst, cap, quantum, gr, trace[|trace| - 1], optC, optD, next)
    ensures OuterRun(inst, cap, quantum, gr, trace + [next], optCs + [optC], optDs + [optD])
  {
    var t, cs, ds := trace + [next], optCs + [optC], optDs + [optD];
    forall i | 0 <= i < |t| - 1
      ensures !Misc.Converged(t[i].0, t[i].1, Tol, gr) && OuterStep(inst, cap, quantum, gr, t[i], cs[i], ds[i], t[i + 1])
    {
      if i < |trace| - 1 {
        assert t[i] == trace[i] && t[i + 1] == trace[i + 1] && cs[i] == optCs[i] && ds[i] == optDs[i];
      }
    }
  }

  /** paramL is what the outer search returns: the midpoint of the first
      converged bracket of an outer run. */
  ghost predicate OuterSearch(inst: Instance, cap: Capacity, quantum: bool, gr: real, paramL: real)
    requires gr != 0.0
  {
    exists trace: seq<(real, real)>, optCs: seq<real>, optDs: seq<real> ::
      && OuterRun(inst, cap, quantum, gr, trace, optCs, optDs)
      && Misc.Converged(trace[|trace| - 1].0, trace[|trace| - 1].1, Tol, gr)
      && paramL == (trace[|trace| - 1].0 + trace[|trace| - 1].1) / 2.0
  }

  /** An outer run that ends in a converged bracket yields its midpoint. */
  lemma OuterSearchOfRun(inst: Instance, cap: Capacity, quantum: bool, gr: real,
                         trace: seq<(real, real)>, optCs: seq<real>, optDs: seq<real>, lo: real, hi: real)
    requires gr != 0.0 && OuterRun(inst, cap, quantum, gr, trace, optCs, optDs)
    requires trace[|trace| - 1] == (lo, hi) && Misc.Converged(lo, hi, Tol, gr)
    ensures OuterSearch(inst, cap, quantum, gr, (lo + hi) / 2.0)
  {
  }

  /** Two outer runs visit the same brackets as long as both go on. */
  lemma {:induction false} OuterRunsAgree(inst: Instance, cap: Capacity, quantum: bool, gr: real,
                                          t1: seq<(real, real)>, cs1: seq<real>, ds1: seq<real>,
                                          t2: seq<(real, real)>, cs2: seq<real>, ds2: seq<real>, k: nat)
    requires gr != 0.0
    requires OuterRun(inst, cap, quantum, gr, t1, cs1, ds1) && OuterRun(inst, cap, quantum, gr, t2, cs2, ds2)
    requires k < |t1| && k < |t2|
    ensures t1[k] == t2[k]
  {
    if k > 0 {
      OuterRunsAgree(inst, cap, quantum, gr, t1, cs1, ds1, t2, cs2, ds2, k - 1);
      OuterStepUnique(inst, cap, quantum, gr, t1[k - 1], cs1[k - 1], ds1[k - 1], t1[k], cs2[k - 1], ds2[k - 1], t2[k]);
    }
  }

  /** The outer search has at most one result. */
  lemma OuterSearchUnique(inst: Instance, cap: Capacity, quantum: bool, gr: real, paramL1: real, paramL2: real)
    requires gr != 0.0
    requires OuterSearch(inst, cap, quantum, gr, paramL1) && OuterSearch(inst, cap, quantum, gr, paramL2)
    ensures paramL1 == paramL2
  {
    var t1: seq<(real, real)>, cs1: seq<real>, ds1: seq<real> :|
      && OuterRun(inst, cap, quantum, gr, t1, cs1, ds1)
      && Misc.Converged(t1[|t1| - 1].0, t1[|t1| - 1].1, Tol, gr)
      && paramL1 == (t1[|t1| - 1].0 + t1[|t1| - 1].1) / 2.0;
    var t2: seq<(real, real)>, cs2: seq<real>, ds2: seq<real> :|
      && OuterRun(inst, cap, quantum, gr, t2, cs2, ds2)
      && Misc.Converged(t2[|t2| - 1].0, t2[|t2| - 1].1, Tol, gr)
      && paramL2 == (t2[|t2| - 1].0 + t2[|t2| - 1].1) / 2.0;
    var n := if |t1| < |t2| then |t1| else |t2|;
    OuterRunsAgree(inst, cap, quantum, gr, t1, cs1, ds1, t2, cs2, ds2, n - 1);
    assert |t1| == |t2|;
  }


  // ---------------------------------------------------------------------
  // How the searches end

  /** The inner search at paramL = l, followed by the cost at its result,
      raises e. */
  ghost predicate FailsAt(inst: Instance, cap: Capacity, quantum: bool, gr: real, l: real, e: Exception)
    requires gr != 0.0
  {
    || InnerSearch(inst, cap, quantum, gr, l, Err(e))
    || exists p :: InnerSearch(inst, cap, quantum, gr, l, Ok(p)) && RunTime(inst, cap, quantum, l, p) == Err(e)
  }

  /** The inner search at paramL = l returns p, and the cost at p is
      defined. */
  ghost predicate SucceedsAt(inst: Instance, cap: Capacity, quantum: bool, gr: real, l: real, p: real)
    requires gr != 0.0
  {
    InnerSearch(inst, cap, quantum, gr, l, Ok(p)) && RunTime(inst, cap, quantum, l, p).Ok?
  }

  /** The outer loop stops at `bracket`: it has converged, or comparing its
      probes raises e. */
  ghost predicate Stops(inst: Instance, cap: Capacity, quantum: bool, gr: real, bracket: (real, real), e: Exception)
    requires gr != 0.0
  {
    || Misc.Converged(bracket.0, bracket.1, Tol, gr)
    || ProbesFail(inst, cap, quantum, gr, Misc.LowerProbe(bracket.0, bracket.1, gr), Misc.UpperProbe(bracket.0, bracket.1, gr), e)
  }

  /** The two-parameter search raises e at its last bracket: comparing the
      probes of an unconverged one fails, or the search at the midpoint of
      a converged one does. */
  ghost predicate FailsAtEnd(inst: Instance, cap: Capacity, quantum: bool, gr: real, last: (real, real), e: Exception)
    requires gr != 0.0
  {
    if Misc.Converged(last.0, last.1, Tol, gr) then
      FailsAt(inst, cap, quantum, gr, (last.0 + last.1) / 2.0, e)
    else
      ProbesFail(inst, cap, quantum, gr, Misc.LowerProbe(last.0, last.1, gr), Misc.UpperProbe(last.0, last.1, gr), e)
  }

  /** The two-parameter search raises e. */
  ghost predicate OuterFails(inst: Instance, cap: Capacity, quantum: bool, gr: real, e: Exception)
    requires gr != 0.0
  {
    exists trace: seq<(real, real)>, optCs: seq<real>, optDs: seq<real> ::
      && OuterRun(inst, cap, quantum, gr, trace, optCs, optDs)
      && FailsAtEnd(inst, cap, quantum, gr, trace[|trace| - 1], e)
  }

  /** The search the algorithm calls for raises e: Prange searches paramP
      at paramL = 0, Dumer/Stern and Wagner search both parameters. */
  ghost predicate SearchFails(inst: Instance, cap: Capacity, quantum: bool, gr: real, e: Exception)
    requires gr != 0.0
  {
    if inst.algorithm == "prange" then FailsAt(inst, cap, quantum, gr, 0.0, e)
    else OuterFails(inst, cap, quantum, gr, e)
  }

  /** The search the algorithm calls for returns (paramL, paramP), and the
      cost there is defined. */
  ghost predicate SearchSucceeds(inst: Instance, cap: Capacity, quantum: bool, gr: real, paramL: real, paramP: real)
    requires gr != 0.0
  {
    if inst.algorithm == "prange" then paramL == 0.0 && SucceedsAt(inst, cap, quantum, gr, 0.0, paramP)
    else OuterSearch(inst, cap, quantum, gr, paramL) && SucceedsAt(inst, cap, quantum, gr, paramL, paramP)
  }

  /** Every result of the inner search at l is r. */
  lemma InnerResultUnique(inst: Instance, cap: Capacity, quantum: bool, gr: real, l: real, r: Result<real>)
    requires gr != 0.0 && InnerSearch(inst, cap, quantum, gr, l, r)
    ensures forall r' :: InnerSearch(inst, cap, quantum, gr, l, r') ==> r' == r
  {
    forall r' | InnerSearch(inst, cap, quantum, gr, l, r')
      ensures r' == r
    {
      Misc.SearchedUnique(PLow(inst, l), PHigh(inst, l), Tol, gr, CostAt(inst, cap, quantum, l), r', r);
    }
  }

  /** The search at l raises at most one exception. */
  lemma FailsAtUnique(inst: Instance, cap: Capacity, quantum: bool, gr: real, l: real, e1: Exception, e2: Exception)
    requires gr != 0.0
    requires FailsAt(inst, cap, quantum, gr, l, e1) && FailsAt(inst, cap, quantum, gr, l, e2)
    ensures e1 == e2
  {
    if InnerSearch(inst, cap, quantum, gr, l, Err(e1)) {
      InnerResultUnique(inst, cap, quantum, gr, l, Err(e1));
    } else {
      var p :| InnerSearch(inst, cap, quantum, gr, l, Ok(p)) && RunTime(inst, cap, quantum, l, p) == Err(e1);
      InnerResultUnique(inst, cap, quantum, gr, l, Ok(p));
    }
  }

  /** A search at l that succeeds raises nothing. */
  lemma SucceedsAtExcludesFailure(inst: Instance, cap: Capacity, quantum: bool, gr: real, l: real, p: real, e: Exception)
    requires gr != 0.0 && SucceedsAt(inst, cap, quantum, gr, l, p)
    ensures !FailsAt(inst, cap, quantum, gr, l, e)
  {
    InnerResultUnique(inst, cap, quantum, gr, l, Ok(p));
  }

  /** Comparing the probes of a bracket raises at most one exception. */
  lemma ProbesFailUnique(inst: Instance, cap: Capacity, quantum: bool, gr: real, c: real, d: real, e1: Exception, e2: Exception)
    requires gr != 0.0
    requires ProbesFail(inst, cap, quantum, gr, c, d, e1) && ProbesFail(inst, cap, quantum, gr, c, d, e2)
    ensures e1 == e2
  {
    if InnerSearch(inst, cap, quantum, gr, c, Err(e1)) {
      InnerResultUnique(inst, cap, quantum, gr, c, Err(e1));
    } else {
      var optC :| InnerSearch(inst, cap, quantum, gr, c, Ok(optC)) && (
                   || InnerSearch(inst, cap, quantum, gr, d, Err(e1))
                   || exists optD :: InnerSearch(inst, cap, quantum, gr, d, Ok(optD)) && (
                        || RunTime(inst, cap, quantum, c, optC) == Err(e1)
                        || (RunTime(inst, cap, quantum, c, optC).Ok? && RunTime(inst, cap, quantum, d, optD) == Err(e1))));
      InnerResultUnique(inst, cap, quantum, gr, c, Ok(optC));
      if InnerSearch(inst, cap, quantum, gr, d, Err(e1)) {
        InnerResultUnique(inst, cap, quantum, gr, d, Err(e1));
      } else {
        var optD :| InnerSearch(inst, cap, quantum, gr, d, Ok(optD)) && (
                     || RunTime(inst, cap, quantum, c, optC) == Err(e1)
                     || (RunTime(inst, cap, quantum, c, optC).Ok? && RunTime(inst, cap, quantum, d, optD) == Err(e1)));
        InnerResultUnique(inst, cap, quantum, gr, d, Ok(optD));
      }
    }
  }

  /** A bracket that an outer step narrows is not one whose probes fail. */
  lemma StepExcludesProbesFail(inst: Instance, cap: Capacity, quantum: bool, gr: real, bracket: (real, real),
                               optC: real, optD: real, next: (real, real), e: Exception)
    requires gr != 0.0 && OuterStep(inst, cap, quantum, gr, bracket, optC, optD, next)
    ensures !ProbesFail(inst, cap, quantum, gr, Misc.LowerProbe(bracket.0, bracket.1, gr), Misc.UpperProbe(bracket.0, bracket.1, gr), e)
  {
    InnerResultUnique(inst, cap, quantum, gr, Misc.LowerProbe(bracket.0, bracket.1, gr), Ok(optC));
    InnerResultUnique(inst, cap, quantum, gr, Misc.UpperProbe(bracket.0, bracket.1, gr), Ok(optD));
  }

  /** In an outer run that stops at its last bracket, every earlier bracket
      is one where the loop does not stop. */
  lemma OuterRunStops(inst: Instance, cap: Capacity, quantum: bool, gr: real,
                      trace: seq<(real, real)>, optCs: seq<real>, optDs: seq<real>, e: Exception, k: nat)
    requires gr != 0.0 && OuterRun(inst, cap, quantum, gr, trace, optCs, optDs) && k < |trace|
    requires Stops(inst, cap, quantum, gr, trace[|trace| - 1], e)
    ensures k < |trace| - 1 ==>
              && !Misc.Converged(trace[k].0, trace[k].1, Tol, gr)
              && forall e' :: !ProbesFail(inst, cap, quantum, gr, Misc.LowerProbe(trace[k].0, trace[k].1, gr),
                                          Misc.UpperProbe(trace[k].0, trace[k].1, gr), e')
    ensures k == |trace| - 1 ==> Stops(inst, cap, quantum, gr, trace[k], e)
  {
    if k < |trace| - 1 {
      forall e': Exception
        ensures !ProbesFail(inst, cap, quantum, gr, Misc.LowerProbe(trace[k].0, trace[k].1, gr),
                            Misc.UpperProbe(trace[k].0, trace[k].1, gr), e')
      {
        StepExcludesProbesFail(inst, cap, quantum, gr, trace[k], optCs[k], optDs[k], trace[k + 1], e');
      }
    }
  }

  /** Two outer runs that both stop end at the same bracket. */
  lemma OuterRunsEndTogether(inst: Instance, cap: Capacity, quantum: bool, gr: real,
                             t1: seq<(real, real)>, cs1: seq<real>, ds1: seq<real>, e1: Exception,
                             t2: seq<(real, real)>, cs2: seq<real>, ds2: seq<real>, e2: Exception)
    requires gr != 0.0
    requires OuterRun(inst, cap, quantum, gr, t1, cs1, ds1) && Stops(inst, cap, quantum, gr, t1[|t1| - 1], e1)
    requires OuterRun(inst, cap, quantum, gr, t2, cs2, ds2) && Stops(inst, cap, quantum, gr, t2[|t2| - 1], e2)
    ensures t1[|t1| - 1] == t2[|t2| - 1]
  {
    var n := if |t1| < |t2| then |t1| else |t2|;
    OuterRunsAgree(inst, cap, quantum, gr, t1, cs1, ds1, t2, cs2, ds2, n - 1);
    OuterRunStops(inst, cap, quantum, gr, t1, cs1, ds1, e1, n - 1);
    OuterRunStops(inst, cap, quantum, gr, t2, cs2, ds2, e2, n - 1);
    assert |t1| == |t2|;
  }

  /** The two-parameter search raises at most one exception. */
  lemma OuterFailsUnique(inst: Instance, cap: Capacity, quantum: bool, gr: real, e1: Exception, e2: Exception)
    requires gr != 0.0
    requires OuterFails(inst, cap, quantum, gr, e1) && OuterFails(inst, cap, quantum, gr, e2)
    ensures e1 == e2
  {
    var t1, cs1, ds1 := FailingRun(inst, cap, quantum, gr, e1);
    var t2, cs2, ds2 := FailingRun(inst, cap, quantum, gr, e2);
    OuterRunsEndTogether(inst, cap, quantum, gr, t1, cs1, ds1, e1, t2, cs2, ds2, e2);
    var last := t1[|t1| - 1];
    assert FailsAtEnd(inst, cap, quantum, gr, last, e1) && FailsAtEnd(inst, cap, quantum, gr, last, e2);
    FailsAtEndUnique(inst, cap, quantum, gr, last, e1, e2);
  }

  /** A bracket at which the two-parameter search ends raises at most one
      exception. */
  lemma FailsAtEndUnique(inst: Instance, cap: Capacity, quantum: bool, gr: real, last: (real, real), e1: Exception, e2: Exception)
    requires gr != 0.0
    requires FailsAtEnd(inst, cap, quantum, gr, last, e1) && FailsAtEnd(inst, cap, quantum, gr, last, e2)
    ensures e1 == e2
  {
    if Misc.Converged(last.0, last.1, Tol, gr) {
      FailsAtUnique(inst, cap, quantum, gr, (last.0 + last.1) / 2.0, e1, e2);
    } else {
      ProbesFailUnique(inst, cap, quantum, gr, Misc.LowerProbe(last.0, last.1, gr), Misc.UpperProbe(last.0, last.1, gr), e1, e2);
    }
  }

  /** The outer run behind a failure of the two-parameter search; it stops
      at its last bracket. */
  lemma FailingRun(inst: Instance, cap: Capacity, quantum: bool, gr: real, e: Exception)
      returns (trace: seq<(real, real)>, optCs: seq<real>, optDs: seq<real>)
    requires gr != 0.0 && OuterFails(inst, cap, quantum, gr, e)
    ensures OuterRun(inst, cap, quantum, gr, trace, optCs, optDs)
    ensures FailsAtEnd(inst, cap, quantum, gr, trace[|trace| - 1], e)
    ensures Stops(inst, cap, quantum, gr, trace[|trace| - 1], e)
  {
    trace, optCs, optDs :| OuterRun(inst, cap, quantum, gr, trace, optCs, optDs)
                           && FailsAtEnd(inst, cap, quantum, gr, trace[|trace| - 1], e);
  }

  /** A two-parameter search that succeeds raises nothing. */
  lemma OuterSuccessExcludesFailure(inst: Instance, cap: Capacity, quantum: bool, gr: real, paramL: real, paramP: real, e: Exception)
    requires gr != 0.0
    requires OuterSearch(inst, cap, quantum, gr, paramL) && SucceedsAt(inst, cap, quantum, gr, paramL, paramP)
    ensures !OuterFails(inst, cap, quantum, gr, e)
  {
    var t1: seq<(real, real)>, cs1: seq<real>, ds1: seq<real> :|
      && OuterRun(inst, cap, quantum, gr, t1, cs1, ds1)
      && Misc.Converged(t1[|t1| - 1].0, t1[|t1| - 1].1, Tol, gr)
      && paramL == (t1[|t1| - 1].0 + t1[|t1| - 1].1) / 2.0;
    SucceedsAtExcludesFailure(inst, cap, quantum, gr, paramL, paramP, e);
    forall t: seq<(real, real)>, cs: seq<real>, ds: seq<real> | OuterRun(inst, cap, quantum, gr, t, cs, ds)
      ensures !FailsAtEnd(inst, cap, quantum, gr, t[|t| - 1], e)
    {
      if Stops(inst, cap, quantum, gr, t[|t| - 1], e) {
        OuterRunsEndTogether(inst, cap, quantum, gr, t1, cs1, ds1, e, t, cs, ds, e);
      }
    }
  }

  /** The search raises at most one exception. */
  lemma SearchFailsUnique(inst: Instance, cap: Capacity, quantum: bool, gr: real, e1: Exception, e2: Exception)
    requires gr != 0.0
    requires SearchFails(inst, cap, quantum, gr, e1) && SearchFails(inst, cap, quantum, gr, e2)
    ensures e1 == e2
  {
    if inst.algorithm == "prange" {
      FailsAtUnique(inst, cap, quantum, gr, 0.0, e1, e2);
    } else {
      OuterFailsUnique(inst, cap, quantum, gr, e1, e2);
    }
  }

  /** A search that succeeds raises nothing. */
  lemma SearchSuccessExcludesFailure(inst: Instance, cap: Capacity, quantum: bool, gr: real, paramL: real, paramP: real, e: Exception)
    requires gr != 0.0 && SearchSucceeds(inst, cap, quantum, gr, paramL, paramP)
    ensures !SearchFails(inst, cap, quantum, gr, e)
  {
    if inst.algorithm == "prange" {
      SucceedsAtExcludesFailure(inst, cap, quantum, gr, 0.0, paramP, e);
    } else {
      OuterSuccessExcludesFailure(inst, cap, quantum, gr, paramL, paramP, e);
    }
  }

  /** The search succeeds with at most one pair (paramL, paramP). */
  lemma SearchSucceedsUnique(inst: Instance, cap: Capacity, quantum: bool, gr: real,
                             paramL1: real, paramP1: real, paramL2: real, paramP2: real)
    requires gr != 0.0
    requires SearchSucceeds(inst, cap, quantum, gr, paramL1, paramP1)
    requires SearchSucceeds(inst, cap, quantum, gr, paramL2, paramP2)
    ensures paramL1 == paramL2 && paramP1 == paramP2
  {
    if inst.algorithm != "prange" {
      OuterSearchUnique(inst, cap, quantum, gr, paramL1, paramL2);
    }
    InnerResultUnique(inst, cap, quantum, gr, paramL1, Ok(paramP1));
  }

  /** An outer run whose last bracket fails yields the failure of the
      two-parameter search. */
  lemma OuterFailsOfRun(inst: Instance, cap: Capacity, quantum: bool, gr: real,
                        trace: seq<(real, real)>, optCs: seq<real>, optDs: seq<real>, e: Exception)
    requires gr != 0.0 && OuterRun(inst, cap, quantum, gr, trace, optCs, optDs)
    requires FailsAtEnd(inst, cap, quantum, gr, trace[|trace| - 1], e)
    ensures OuterFails(inst, cap, quantum, gr, e)
  {
  }
}
