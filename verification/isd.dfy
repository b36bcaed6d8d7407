/** The information set decoding instance of isd.cpp / isd.h: the throwing
    validators, the `InformationSetDecoding` class with its cached capacity
    `surfaceW`, the two golden-section searches over its parameters, the
    roots of the average number of solutions, and the driver `RunTime`.

    Oracles: `cap` is `VectorSpace::SphereSurfArea` (-1 when not found),
    `log2` is the logarithm applied to the `int` alphabet size, `bisect` is
    Boost's bisection, and `gr` is the golden ratio. */
module Isd {
  import opened Errors
  import opened Machine
  import Misc
  import Space
  import opened IsdCost

  const NormalizedMessage := "Normalized value needs to be in the interval [0,1]."
  const AlgorithmMessage := "This algorithm is not offered. Allowed algorithms are prange, dumer and wagner."
  const AlphabetSizeMessage := "Alphabet size needs to be greater or equal to 2."
  const SurfaceWMissing := "Surface area surfaceW is not found."

  // ---------------------------------------------------------------------
  // The throwing validators of isd.cpp

  /** Passes a value in [0, 1]; otherwise throws invalid_argument. */
  function ParamCheck(p: real): (o: Outcome)
    ensures o.Pass? <==> 0.0 <= p <= 1.0
    ensures o.Fail? ==> o.error == InvalidArgument(NormalizedMessage)
  {
    if Misc.ParamCheck(p) then Pass else Fail(InvalidArgument(NormalizedMessage))
  }

  /** Passes "prange", "dumer" and "wagner"; otherwise throws
      invalid_argument. */
  function AlgCheck(a: string): (o: Outcome)
    ensures o.Pass? <==> a in Misc.Algorithms
    ensures o.Fail? ==> o.error == InvalidArgument(AlgorithmMessage)
  {
    if Misc.AlgCheck(a) then Pass else Fail(InvalidArgument(AlgorithmMessage))
  }

  /** Passes an alphabet size of at least 2; otherwise throws
      invalid_argument. */
  function AlphabetSizeCheck(alphabetSize: int): (o: Outcome)
    ensures o.Pass? <==> alphabetSize >= 2
    ensures o.Fail? ==> o.error == InvalidArgument(AlphabetSizeMessage)
  {
    if Misc.AlphabetSizeCheck(alphabetSize) then Pass else Fail(InvalidArgument(AlphabetSizeMessage))
  }

  /** A cost per symbol converted to bits: multiplied by log2 of the
      alphabet size, taken as an `int`. */
  function InBits(log2: int -> real, alphabetSize: uint32, cost: real): real {
    log2(AsSigned(alphabetSize)) * cost
  }

  // ---------------------------------------------------------------------
  // Construction and the cached capacity

  /** The cached fields agree with the others: `space` is the space of the
      metric and alphabet size, and `surfaceW` its capacity at `weight`. */
  predicate CacheFresh(inst: Instance, cap: Capacity) {
    inst.space == Space.SpaceValue(inst.metric, inst.alphabetSize)
    && inst.surfaceW == cap(inst.space, inst.weight)
  }

  /** The checks every constructor and validating setter enforce. The
      alphabet size is not among them: nothing here checks it. */
  predicate Validated(inst: Instance) {
    Misc.ParamCheck(inst.codeRate) && Misc.ParamCheck(inst.weight)
    && Misc.MetricCheck(inst.metric) && Misc.AlgCheck(inst.algorithm)
  }

  /** What the constructor builds, or the first exception it throws: the
      metric is checked, then the code rate, the weight and the algorithm,
      and last the capacity at the weight must have been found. */
  function Construct(size: uint32, cr: real, w: real, m: string, a: string, cap: Capacity): (r: Result<Instance>)
    ensures r.Ok? <==> Misc.MetricCheck(m) && Misc.ParamCheck(cr) && Misc.ParamCheck(w) && Misc.AlgCheck(a)
                       && cap(Space.SpaceValue(m, size), w) != -1.0
    ensures r.Ok? ==> CacheFresh(r.value, cap) && Validated(r.value)
                      && r.value.alphabetSize == size && r.value.codeRate == cr && r.value.weight == w
                      && r.value.metric == m && r.value.algorithm == a
    ensures !Misc.MetricCheck(m) ==> r == Err(InvalidArgument(Space.MetricNotOfferedMessage))
    ensures Misc.MetricCheck(m) && !(Misc.ParamCheck(cr) && Misc.ParamCheck(w)) ==> r == Err(InvalidArgument(NormalizedMessage))
    ensures Misc.MetricCheck(m) && Misc.ParamCheck(cr) && Misc.ParamCheck(w) && !Misc.AlgCheck(a) ==>
              r == Err(InvalidArgument(AlgorithmMessage))
    ensures r.Err? && Misc.MetricCheck(m) && Misc.ParamCheck(cr) && Misc.ParamCheck(w) && Misc.AlgCheck(a) ==>
              r == Err(InvalidArgument(SurfaceWMissing))
  {
    if Space.MetricCheck(m).Fail? then Err(Space.MetricCheck(m).error)
    else if ParamCheck(cr).Fail? then Err(ParamCheck(cr).error)
    else if ParamCheck(w).Fail? then Err(ParamCheck(w).error)
    else if AlgCheck(a).Fail? then Err(AlgCheck(a).error)
    else
      var space := Space.SpaceValue(m, size);
      var surfaceW := cap(space, w);
      if surfaceW == -1.0 then Err(InvalidArgument(SurfaceWMissing))
      else Ok(Instance(size, cr, w, surfaceW, m, a, space))
  }

  /** The setters update one field and refresh neither `space` nor
      `surfaceW`: a new code rate keeps the cache fresh, while a new weight,
      metric or alphabet size leaves it stale whenever the capacity or the
      space it describes differs. */
  lemma SettersAndCache(inst: Instance, cap: Capacity, cr: real, w: real, m: string, size: uint32)
    requires CacheFresh(inst, cap)
    ensures CacheFresh(inst.(codeRate := cr), cap)
    ensures cap(inst.space, w) != inst.surfaceW ==> !CacheFresh(inst.(weight := w), cap)
    ensures m != inst.metric ==> !CacheFresh(inst.(metric := m), cap)
    ensures size != inst.alphabetSize ==> !CacheFresh(inst.(alphabetSize := size), cap)
  {
  }

  /** The expected number of solutions reads the cached capacity, so after
      a change of weight it is still the one of the old weight. */
  lemma SolsNumIgnoresWeight(inst: Instance, w: real)
    ensures SolsNum(inst.(weight := w)) == SolsNum(inst)
  {
  }

  /** `InformationSetDecoding`. `alphabetSize` is an `int` field in the
      source; every value stored in it comes from an `unsigned int` and goes
      back to one, so it is kept here as that `unsigned int`. The
      `VectorSpace` member is held by value. */
  class InformationSetDecoding {
    var alphabetSize: uint32
    var codeRate: real
    var weight: real
    var surfaceW: real
    var metric: string
    var algorithm: string
    var space: Space.SpaceValue

    function Value(): Instance
      reads this
    {
      Instance(alphabetSize, codeRate, weight, surfaceW, metric, algorithm, space)
    }

    /** The state the checks guarantee: `Create` establishes it, and the
        copy, the assignment and the validating setters keep it. */
    predicate Valid()
      reads this
    {
      Validated(Value())
    }

    /** Stores a complete set of field values. */
    constructor Init(inst: Instance)
      ensures Value() == inst
    {
      alphabetSize, codeRate, weight, surfaceW := inst.alphabetSize, inst.codeRate, inst.weight, inst.surfaceW;
      metric, algorithm, space := inst.metric, inst.algorithm, inst.space;
    }

    /** The constructor, with the defaults (2, 0.5, 0.5, "hamming",
        "prange"): the fields are checked and stored one by one, then the
        space is built and its capacity at the weight cached. */
    static method Create(cap: Capacity, size: uint32 := 2, cr: real := 0.5, w: real := 0.5,
                         m: string := "hamming", a: string := "prange")
      returns (r: Result<InformationSetDecoding>)
      ensures r.Ok? <==> Construct(size, cr, w, m, a, cap).Ok?
      ensures r.Err? ==> r.error == Construct(size, cr, w, m, a, cap).error
      ensures r.Ok? ==> fresh(r.value) && r.value.Value() == Construct(size, cr, w, m, a, cap).value
      ensures r.Ok? ==> r.value.Valid()
    {
      var check := Space.MetricCheck(m);
      if check.Fail? {
        return Err(check.error);
      }
      check := ParamCheck(cr);
      if check.Fail? {
        return Err(check.error);
      }
      check := ParamCheck(w);
      if check.Fail? {
        return Err(check.error);
      }
      check := AlgCheck(a);
      if check.Fail? {
        return Err(check.error);
      }
      var space := Space.SpaceValue(m, size);
      var surfaceW := cap(space, w);
      if surfaceW == -1.0 {
        return Err(InvalidArgument(SurfaceWMissing));
      }
      var isd := new InformationSetDecoding.Init(Instance(size, cr, w, surfaceW, m, a, space));
      r := Ok(isd);
    }

    /** The copy constructor copies all seven fields. */
    constructor Copy(isd: InformationSetDecoding)
      ensures Value() == isd.Value()
      ensures isd.Valid() ==> Valid()
    {
      alphabetSize, codeRate, weight, surfaceW := isd.alphabetSize, isd.codeRate, isd.weight, isd.surfaceW;
      metric, algorithm, space := isd.metric, isd.algorithm, isd.space;
    }

    /** `operator=`: all seven fields are copied; self-assignment changes
        nothing. */
    method Assign(isd: InformationSetDecoding)
      modifies this
      ensures Value() == old(isd.Value())
      ensures old(isd.Valid()) ==> Valid()
    {
      if this == isd {
        return;
      }
      alphabetSize, codeRate, weight, surfaceW := isd.alphabetSize, isd.codeRate, isd.weight, isd.surfaceW;
      metric, algorithm, space := isd.metric, isd.algorithm, isd.space;
    }

    function GetAlphaSize(): uint32
      reads this
    {
      alphabetSize
    }

    function GetCodeRate(): real
      reads this
    {
      codeRate
    }

    function GetWeight(): real
      reads this
    {
      weight
    }

    function GetMetric(): string
      reads this
    {
      metric
    }

    function GetAlg(): string
      reads this
    {
      algorithm
    }

    function GetSurfaceW(): real
      reads this
    {
      surfaceW
    }

    function GetSpace(): Space.SpaceValue
      reads this
    {
      space
    }

    /** Stores any alphabet size; `space` and `surfaceW` keep the old one. */
    method SetAlphaSize(size: uint32)
      modifies this
      ensures Value() == old(Value()).(alphabetSize := size)
      ensures old(Valid()) ==> Valid()
    {
      alphabetSize := size;
    }

    /** Stores a code rate in [0, 1]; any other throws and changes nothing. */
    method SetCodeRate(cr: real) returns (o: Outcome)
      modifies this
      ensures o.Pass? <==> Misc.ParamCheck(cr)
      ensures o.Pass? ==> Value() == old(Value()).(codeRate := cr)
      ensures o.Fail? ==> o.error == InvalidArgument(NormalizedMessage) && Value() == old(Value())
      ensures old(Valid()) ==> Valid()
    {
      if !Misc.ParamCheck(cr) {
        return Fail(InvalidArgument(NormalizedMessage));
      }
      codeRate := cr;
      o := Pass;
    }

    /** Stores a weight in [0, 1]; any other throws and changes nothing. The
        cached capacity `surfaceW` is not recomputed. */
    method SetWeight(w: real) returns (o: Outcome)
      modifies this
      ensures o.Pass? <==> Misc.ParamCheck(w)
      ensures o.Pass? ==> Value() == old(Value()).(weight := w)
      ensures o.Fail? ==> o.error == InvalidArgument(NormalizedMessage) && Value() == old(Value())
      ensures old(Valid()) ==> Valid()
    {
      if !Misc.ParamCheck(w) {
        return Fail(InvalidArgument(NormalizedMessage));
      }
      weight := w;
      o := Pass;
    }

    /** Stores an offered metric; any other throws and changes nothing. The
        space is not rebuilt. */
    method SetMetric(m: string) returns (o: Outcome)
      modifies this
      ensures o.Pass? <==> Misc.MetricCheck(m)
      ensures o.Pass? ==> Value() == old(Value()).(metric := m)
      ensures o.Fail? ==> o.error == InvalidArgument(Space.InvalidMetricMessage) && Value() == old(Value())
      ensures old(Valid()) ==> Valid()
    {
      if !Misc.MetricCheck(m) {
        return Fail(InvalidArgument(Space.InvalidMetricMessage));
      }
      metric := m;
      o := Pass;
    }

    /** Stores an offered algorithm; any other throws and changes nothing. */
    method SetAlg(a: string) returns (o: Outcome)
      modifies this
      ensures o.Pass? <==> Misc.AlgCheck(a)
      ensures o.Pass? ==> Value() == old(Value()).(algorithm := a)
      ensures o.Fail? ==> o.error == InvalidArgument(AlgorithmMessage) && Value() == old(Value())
      ensures old(Valid()) ==> Valid()
    {
      if !Misc.AlgCheck(a) {
        return Fail(InvalidArgument(AlgorithmMessage));
      }
      algorithm := a;
      o := Pass;
    }

    /** `RunTime(paramL, paramP, optLevelNum)`: the distances are clamped,
        the surfaces computed, the merge depth selected by the level loop,
        and the cost assembled; the depth is written to `optLevelNum`. */
    method RunTime(cap: Capacity, quantum: bool, paramL: real, paramP: real)
      returns (r: Result<real>, optLevelNum: nat)
      ensures r.Ok? ==> IsdCost.RunTime(Value(), cap, quantum, paramL, paramP) == Ok(Timing(r.value, optLevelNum))
      ensures r.Err? ==> IsdCost.RunTime(Value(), cap, quantum, paramL, paramP) == Err(r.error)
    {
      var inst := Value();
      var surface1 := Surface1(inst, cap, paramL, paramP);
      if surface1.Err? {
        return Err(surface1.error), 1;
      }
      var surface2 := Surface2(inst, cap, paramL, paramP);
      if surface2.Err? {
        return Err(surface2.error), 1;
      }
      var level := SelectOptLevel(algorithm, paramL, surface1.value);
      if level.Err? {
        return Err(level.error), 1;
      }
      optLevelNum := level.value;
      r := Ok(IsdCost.Cost(inst, quantum, paramL, surface1.value, surface2.value, optLevelNum));
    }

    /** The search over paramP for paramL = 0 (Prange): a golden-section
        search of the cost over [max(0, weight - (1 - codeRate)),
        min(weight, codeRate)], then the cost at the point found, scaled by
        log2 of the alphabet size. An exception from the cost leaves the
        search; under exact arithmetic the numerical-issue exception cannot
        occur when 0 < codeRate < 1 and the weight is normalised. */
    method GoldenSectionSearchP(cap: Capacity, log2: int -> real, quantum: bool, gr: real)
      returns (r: Result<real>, paramP: real, optLevelNum: nat)
      requires Misc.IsGoldenRatio(gr)
      ensures r.Ok? ==> Misc.Between(paramP, PLow(Value(), 0.0), PHigh(Value(), 0.0))
      ensures r.Ok? ==> var t := IsdCost.RunTime(Value(), cap, quantum, 0.0, paramP);
                t.Ok? && t.value.optLevelNum == optLevelNum
                && r.value == InBits(log2, alphabetSize, t.value.runTime)
      ensures r.Ok? ==> InnerSearch(Value(), cap, quantum, gr, 0.0, Ok(paramP))
      ensures r.Err? ==> InnerSearch(Value(), cap, quantum, gr, 0.0, Err(r.error))
                         || (InnerSearch(Value(), cap, quantum, gr, 0.0, Ok(paramP))
                             && IsdCost.RunTime(Value(), cap, quantum, 0.0, paramP) == Err(r.error))
      ensures r.Ok? ==> SucceedsAt(Value(), cap, quantum, gr, 0.0, paramP)
      ensures r.Err? ==> FailsAt(Value(), cap, quantum, gr, 0.0, r.error)
      ensures r.Err? ==> FailsInBracket(Value(), cap, quantum, 0.0, r.error)
      ensures 0.0 < codeRate < 1.0 && Misc.ParamCheck(weight) && r.Err? ==> !r.error.RuntimeError?
    {
      r, paramP, optLevelNum := SearchedCostAt(cap, log2, quantum, gr, 0.0);
      if r.Err? && 0.0 < codeRate < 1.0 && Misc.ParamCheck(weight) {
        FailureIsNotNumerical(Value(), cap, quantum, 0.0, r.error);
      }
    }

    /** The inner search over paramP for a fixed paramL = l: the cost at l
        is minimised over [max(0, weight - (1 - codeRate - l)),
        min(weight, codeRate + l)]. */
    method SearchP(cap: Capacity, quantum: bool, gr: real, l: real) returns (r: Result<real>)
      requires Misc.IsGoldenRatio(gr)
      ensures InnerSearch(Value(), cap, quantum, gr, l, r)
      ensures r.Ok? ==> Misc.Between(r.value, PLow(Value(), l), PHigh(Value(), l))
      ensures r.Err? ==> FailsInBracket(Value(), cap, quantum, l, r.error)
    {
      var inst := Value();
      ghost var lo, hi, steps, trace;
      r, lo, hi, steps, trace := Misc.GoldenSectionSearch(PLow(inst, l), PHigh(inst, l), Tol, gr, CostAt(inst, cap, quantum, l));
      assert Misc.Run(PLow(inst, l), PHigh(inst, l), Tol, gr, CostAt(inst, cap, quantum, l), trace, r);
      if r.Err? {
        ghost var p :| Misc.Between(p, PLow(inst, l), PHigh(inst, l)) && CostAt(inst, cap, quantum, l)(p) == r;
        CostAtFails(inst, cap, quantum, l, p);
        assert Misc.Between(p, PLow(Value(), l), PHigh(Value(), l)) && IsdCost.RunTime(Value(), cap, quantum, l, p) == Err(r.error);
      }
    }

    /** The last step of both searches: paramP is searched for the given
        paramL = l, and the cost there, scaled by log2 of the alphabet size,
        is the result. */
    method SearchedCostAt(cap: Capacity, log2: int -> real, quantum: bool, gr: real, l: real)
      returns (r: Result<real>, paramP: real, optLevelNum: nat)
      requires Misc.IsGoldenRatio(gr)
      ensures r.Ok? ==> Misc.Between(paramP, PLow(Value(), l), PHigh(Value(), l))
      ensures r.Ok? ==> var t := IsdCost.RunTime(Value(), cap, quantum, l, paramP);
                t.Ok? && t.value.optLevelNum == optLevelNum
                && r.value == InBits(log2, alphabetSize, t.value.runTime)
      ensures r.Ok? ==> InnerSearch(Value(), cap, quantum, gr, l, Ok(paramP))
      ensures r.Err? ==> InnerSearch(Value(), cap, quantum, gr, l, Err(r.error))
                         || (InnerSearch(Value(), cap, quantum, gr, l, Ok(paramP))
                             && IsdCost.RunTime(Value(), cap, quantum, l, paramP) == Err(r.error))
      ensures r.Err? ==> FailsInBracket(Value(), cap, quantum, l, r.error)
    {
      var found := SearchP(cap, quantum, gr, l);
      if found.Err? {
        return Err(found.error), 0.0, 1;
      }
      paramP := found.value;
      var t;
      t, optLevelNum := RunTime(cap, quantum, l, paramP);
      if t.Err? {
        assert Misc.Between(paramP, PLow(Value(), l), PHigh(Value(), l))
               && IsdCost.RunTime(Value(), cap, quantum, l, paramP) == Err(t.error);
        return Err(t.error), paramP, optLevelNum;
      }
      r := Ok(InBits(log2, alphabetSize, t.value));
    }

    /** One comparison of the outer search: paramP is searched at both
        probes c and d, and the result says whether the cost at c (with its
        paramP) is below the cost at d (with its paramP). The cost at c is
        evaluated first. */
    method CompareProbes(cap: Capacity, quantum: bool, gr: real, c: real, d: real)
      returns (r: Result<bool>, optC: real, optD: real)
      requires Misc.IsGoldenRatio(gr)
      ensures r.Ok? ==> Misc.Between(optC, PLow(Value(), c), PHigh(Value(), c))
                        && Misc.Between(optD, PLow(Value(), d), PHigh(Value(), d))
      ensures r.Ok? ==> var tc := IsdCost.RunTime(Value(), cap, quantum, c, optC);
                        var td := IsdCost.RunTime(Value(), cap, quantum, d, optD);
                        tc.Ok? && td.Ok? && (r.value <==> tc.value.runTime < td.value.runTime)
      ensures r.Ok? ==> InnerSearch(Value(), cap, quantum, gr, c, Ok(optC))
                        && InnerSearch(Value(), cap, quantum, gr, d, Ok(optD))
      ensures r.Err? ==> ProbesFail(Value(), cap, quantum, gr, c, d, r.error)
      ensures r.Err? ==> FailsInBracket(Value(), cap, quantum, c, r.error)
                         || FailsInBracket(Value(), cap, quantum, d, r.error)
    {
      var searchedC := SearchP(cap, quantum, gr, c);
      if searchedC.Err? {
        return Err(searchedC.error), 0.0, 0.0;
      }
      optC := searchedC.value;
      var searchedD := SearchP(cap, quantum, gr, d);
      if searchedD.Err? {
        assert InnerSearch(Value(), cap, quantum, gr, c, Ok(optC));
        return Err(searchedD.error), optC, 0.0;
      }
      optD := searchedD.value;
      var costC, levelC := RunTime(cap, quantum, c, optC);
      if costC.Err? {
        assert Misc.Between(optC, PLow(Value(), c), PHigh(Value(), c))
               && IsdCost.RunTime(Value(), cap, quantum, c, optC) == Err(costC.error);
        assert InnerSearch(Value(), cap, quantum, gr, c, Ok(optC)) && InnerSearch(Value(), cap, quantum, gr, d, Ok(optD));
        return Err(costC.error), optC, optD;
      }
      var costD, levelD := RunTime(cap, quantum, d, optD);
      if costD.Err? {
        assert Misc.Between(optD, PLow(Value(), d), PHigh(Value(), d))
               && IsdCost.RunTime(Value(), cap, quantum, d, optD) == Err(costD.error);
        assert InnerSearch(Value(), cap, quantum, gr, c, Ok(optC)) && InnerSearch(Value(), cap, quantum, gr, d, Ok(optD));
        return Err(costD.error), optC, optD;
      }
      r := Ok(costC.value < costD.value);
    }

    /** The search over (paramL, paramP) (Dumer/Stern and Wagner): an outer
        golden-section loop over paramL in [0, 1 - codeRate] that compares,
        at both probes, the cost at the best paramP an inner search finds;
        then paramL is the midpoint of the final bracket, paramP is found by
        one more inner search, and the cost there is scaled by log2 of the
        alphabet size. Under exact arithmetic the numerical-issue exception
        cannot occur when 0 <= codeRate < 1 and the weight is normalised:
        every paramL tried lies strictly inside (0, 1 - codeRate). */
    method GoldenSectionSearchLP(cap: Capacity, log2: int -> real, quantum: bool, gr: real)
      returns (r: Result<real>, paramL: real, paramP: real, optLevelNum: nat, ghost lo: real, ghost hi: real,
               ghost trace: seq<(real, real)>, ghost optCs: seq<real>, ghost optDs: seq<real>)
      requires Misc.IsGoldenRatio(gr)
      ensures OuterRun(Value(), cap, quantum, gr, trace, optCs, optDs) && trace[|trace| - 1] == (lo, hi)
      ensures Misc.Nested(lo, hi, 0.0, 1.0 - codeRate)
      ensures r.Ok? ==> Misc.Converged(lo, hi, Tol, gr) && paramL == (lo + hi) / 2.0
      ensures r.Ok? ==> OuterSearch(Value(), cap, quantum, gr, paramL)
                        && InnerSearch(Value(), cap, quantum, gr, paramL, Ok(paramP))
      ensures r.Err? && !Misc.Converged(lo, hi, Tol, gr) ==>
                ProbesFail(Value(), cap, quantum, gr, Misc.LowerProbe(lo, hi, gr), Misc.UpperProbe(lo, hi, gr), r.error)
      ensures r.Err? && Misc.Converged(lo, hi, Tol, gr) ==>
                paramL == (lo + hi) / 2.0
                && (InnerSearch(Value(), cap, quantum, gr, paramL, Err(r.error))
                    || (InnerSearch(Value(), cap, quantum, gr, paramL, Ok(paramP))
                        && IsdCost.RunTime(Value(), cap, quantum, paramL, paramP) == Err(r.error)))
      ensures r.Ok? ==> Misc.Between(paramL, 0.0, 1.0 - codeRate)
                        && Misc.Between(paramP, PLow(Value(), paramL), PHigh(Value(), paramL))
      ensures r.Ok? ==> var t := IsdCost.RunTime(Value(), cap, quantum, paramL, paramP);
                t.Ok? && t.value.optLevelNum == optLevelNum
                && r.value == InBits(log2, alphabetSize, t.value.runTime)
      ensures r.Ok? ==> SucceedsAt(Value(), cap, quantum, gr, paramL, paramP)
      ensures r.Err? ==> OuterFails(Value(), cap, quantum, gr, r.error)
      ensures r.Err? ==> exists l :: Misc.Between(l, 0.0, 1.0 - codeRate)
                                    && FailsInBracket(Value(), cap, quantum, l, r.error)
      ensures 0.0 <= codeRate < 1.0 && Misc.ParamCheck(weight) && r.Err? ==> !r.error.RuntimeError?
    {
      var narrowed;
      ghost var steps;
      narrowed, lo, hi, steps, trace, optCs, optDs := NarrowToTolerance(cap, quantum, gr);
      if narrowed.Err? {
        r, paramL, paramP, optLevelNum := Err(narrowed.error), 0.0, 0.0, 1;
        OuterFailsOfRun(Value(), cap, quantum, gr, trace, optCs, optDs, r.error);
        return;
      }
      OuterSearchOfRun(Value(), cap, quantum, gr, trace, optCs, optDs, lo, hi);
      var a, b := narrowed.value.0, narrowed.value.1;
      r, paramL, paramP, optLevelNum := SearchAtMidpoint(cap, log2, quantum, gr, a, b, steps);
      if r.Err? {
        OuterFailsOfRun(Value(), cap, quantum, gr, trace, optCs, optDs, r.error);
      }
    }

    /** The outer loop: outer steps from [0, 1 - codeRate] until the probes
        are within tol, or until one of them raises an exception. */
    method NarrowToTolerance(cap: Capacity, quantum: bool, gr: real)
      returns (r: Result<(real, real)>, ghost lo: real, ghost hi: real, ghost steps: nat,
               ghost trace: seq<(real, real)>, ghost optCs: seq<real>, ghost optDs: seq<real>)
      requires Misc.IsGoldenRatio(gr)
      ensures OuterRun(Value(), cap, quantum, gr, trace, optCs, optDs) && trace[|trace| - 1] == (lo, hi)
      ensures Misc.Nested(lo, hi, 0.0, 1.0 - codeRate) && Misc.ShrunkBy(lo, hi, 0.0, 1.0 - codeRate, gr, steps)
      ensures r.Ok? <==> Misc.Converged(lo, hi, Tol, gr)
      ensures r.Ok? ==> r.value == (lo, hi)
      ensures r.Err? ==>
                ProbesFail(Value(), cap, quantum, gr, Misc.LowerProbe(lo, hi, gr), Misc.UpperProbe(lo, hi, gr), r.error)
      ensures r.Err? ==> exists l :: Misc.Between(l, 0.0, 1.0 - codeRate)
                                    && FailsInBracket(Value(), cap, quantum, l, r.error)
      ensures 0.0 <= codeRate < 1.0 && Misc.ParamCheck(weight) && r.Err? ==> !r.error.RuntimeError?
    {
      Misc.GoldenRatioFacts(gr);
      var a, b := 0.0, 1.0 - codeRate;
      steps := 0;
      ghost var bound := Misc.StepBound(b - a, Tol, gr);
      trace, optCs, optDs := [(a, b)], [], [];
      while !Misc.Converged(a, b, Tol, gr)
        invariant OuterRun(Value(), cap, quantum, gr, trace, optCs, optDs) && trace[|trace| - 1] == (a, b)
        invariant Misc.Nested(a, b, 0.0, 1.0 - codeRate)
        invariant Misc.ShrunkBy(a, b, 0.0, 1.0 - codeRate, gr, steps)
        invariant Misc.Unconverged(1.0 - codeRate - 0.0, Tol, gr, steps)
        invariant steps <= bound
        decreases bound - steps
      {
        Misc.IterationAllowed(a, b, 0.0, 1.0 - codeRate, Tol, gr, steps);
        var narrowed, optC, optD := NarrowBracket(cap, quantum, gr, a, b, steps);
        if narrowed.Err? {
          r, lo, hi := Err(narrowed.error), a, b;
          return;
        }
        OuterRunExtended(Value(), cap, quantum, gr, trace, optCs, optDs, optC, optD, narrowed.value);
        trace, optCs, optDs := trace + [narrowed.value], optCs + [optC], optDs + [optD];
        a, b := narrowed.value.0, narrowed.value.1;
        steps := steps + 1;
      }
      r, lo, hi := Ok((a, b)), a, b;
    }

    /** The last step of the outer search: paramL is the midpoint of the
        final bracket [a, b] and the inner search runs once more there. */
    method SearchAtMidpoint(cap: Capacity, log2: int -> real, quantum: bool, gr: real, a: real, b: real, ghost steps: nat)
      returns (r: Result<real>, paramL: real, paramP: real, optLevelNum: nat)
      requires Misc.IsGoldenRatio(gr)
      requires Misc.Nested(a, b, 0.0, 1.0 - codeRate) && Misc.ShrunkBy(a, b, 0.0, 1.0 - codeRate, gr, steps)
      ensures paramL == (a + b) / 2.0 && Misc.Between(paramL, 0.0, 1.0 - codeRate)
      ensures r.Ok? ==> Misc.Between(paramP, PLow(Value(), paramL), PHigh(Value(), paramL))
      ensures r.Ok? ==> var t := IsdCost.RunTime(Value(), cap, quantum, paramL, paramP);
                t.Ok? && t.value.optLevelNum == optLevelNum
                && r.value == InBits(log2, alphabetSize, t.value.runTime)
      ensures r.Ok? ==> InnerSearch(Value(), cap, quantum, gr, paramL, Ok(paramP))
      ensures r.Err? ==> InnerSearch(Value(), cap, quantum, gr, paramL, Err(r.error))
                         || (InnerSearch(Value(), cap, quantum, gr, paramL, Ok(paramP))
                             && IsdCost.RunTime(Value(), cap, quantum, paramL, paramP) == Err(r.error))
      ensures r.Err? ==> FailsInBracket(Value(), cap, quantum, paramL, r.error)
      ensures 0.0 <= codeRate < 1.0 && Misc.ParamCheck(weight) && r.Err? ==> !r.error.RuntimeError?
    {
      Misc.GoldenRatioFacts(gr);
      paramL := (a + b) / 2.0;
      Misc.ProbesBetween(a, b, 0.0, 1.0 - codeRate, gr);
      ghost var exact := 0.0 <= codeRate < 1.0 && Misc.ParamCheck(weight);
      if exact {
        Misc.ProbesInside(a, b, 0.0, 1.0 - codeRate, gr, steps);
      }
      r, paramP, optLevelNum := SearchedCostAt(cap, log2, quantum, gr, paramL);
      if r.Err? && exact {
        FailureIsNotNumerical(Value(), cap, quantum, paramL, r.error);
      }
    }

    /** One iteration of the outer search: the costs at the probes c and d
        of [a, b] are compared, and the bracket keeps the probe side with
        the lower cost, [a, d] when c is cheaper and [c, b] otherwise. */
    method NarrowBracket(cap: Capacity, quantum: bool, gr: real, a: real, b: real, ghost steps: nat)
      returns (r: Result<(real, real)>, optC: real, optD: real)
      requires Misc.IsGoldenRatio(gr)
      requires Misc.Nested(a, b, 0.0, 1.0 - codeRate) && Misc.ShrunkBy(a, b, 0.0, 1.0 - codeRate, gr, steps)
      ensures r.Ok? ==> OuterStep(Value(), cap, quantum, gr, (a, b), optC, optD, r.value)
      ensures r.Err? ==> ProbesFail(Value(), cap, quantum, gr, Misc.LowerProbe(a, b, gr), Misc.UpperProbe(a, b, gr), r.error)
      ensures r.Ok? ==> Misc.Nested(r.value.0, r.value.1, 0.0, 1.0 - codeRate)
                        && Misc.ShrunkBy(r.value.0, r.value.1, 0.0, 1.0 - codeRate, gr, steps + 1)
      ensures r.Err? ==> exists l :: Misc.Between(l, 0.0, 1.0 - codeRate)
                                    && FailsInBracket(Value(), cap, quantum, l, r.error)
      ensures 0.0 <= codeRate < 1.0 && Misc.ParamCheck(weight) && r.Err? ==> !r.error.RuntimeError?
    {
      Misc.GoldenRatioFacts(gr);
      var c, d := Misc.LowerProbe(a, b, gr), Misc.UpperProbe(a, b, gr);
      Misc.ProbesBetween(a, b, 0.0, 1.0 - codeRate, gr);
      var cheaperAtC;
      cheaperAtC, optC, optD := CompareProbes(cap, quantum, gr, c, d);
      if cheaperAtC.Err? {
        ProbeFailure(cap, quantum, a, b, c, d, gr, steps, cheaperAtC.error);
        return Err(cheaperAtC.error), optC, optD;
      }
      if cheaperAtC.value {
        Misc.StepShrinks(a, b, a, d, 0.0, 1.0 - codeRate, gr, steps);
        r := Ok((a, d));
      } else {
        Misc.StepShrinks(a, b, c, b, 0.0, 1.0 - codeRate, gr, steps);
        r := Ok((c, b));
      }
    }

    /** An exception at one of the probes c, d of a bracket inside
        [0, 1 - codeRate] is raised at a paramL of that interval, and it is
        not the numerical-issue one when 0 <= codeRate < 1 and the weight is
        normalised. */
    lemma ProbeFailure(cap: Capacity, quantum: bool, a: real, b: real, c: real, d: real, gr: real, steps: nat, e: Exception)
      requires 1.0 < gr < 2.0
      requires Misc.Nested(a, b, 0.0, 1.0 - codeRate) && Misc.ShrunkBy(a, b, 0.0, 1.0 - codeRate, gr, steps)
      requires c == Misc.LowerProbe(a, b, gr) && d == Misc.UpperProbe(a, b, gr)
      requires FailsInBracket(Value(), cap, quantum, c, e) || FailsInBracket(Value(), cap, quantum, d, e)
      ensures exists l :: Misc.Between(l, 0.0, 1.0 - codeRate) && FailsInBracket(Value(), cap, quantum, l, e)
      ensures 0.0 <= codeRate < 1.0 && Misc.ParamCheck(weight) ==> !e.RuntimeError?
    {
      Misc.ProbesBetween(a, b, 0.0, 1.0 - codeRate, gr);
      var l := if FailsInBracket(Value(), cap, quantum, c, e) then c else d;
      assert Misc.Between(l, 0.0, 1.0 - codeRate) && FailsInBracket(Value(), cap, quantum, l, e);
      if 0.0 <= codeRate < 1.0 && Misc.ParamCheck(weight) {
        Misc.ProbesInside(a, b, 0.0, 1.0 - codeRate, gr, steps);
        FailureIsNotNumerical(Value(), cap, quantum, l, e);
      }
    }
  }

  // ---------------------------------------------------------------------
  // The roots of the average number of solutions

  /** `boost::math::tools::bisect`: a function, a bracket, and the bracket
      it narrows down to, or the exception it raises. */
  type Bisector = (real -> real, real, real) -> Result<(real, real)>

  /** A bisection result is a sub-bracket of [lo, hi]. */
  predicate SubBracket(r: Result<(real, real)>, lo: real, hi: real) {
    r.Ok? ==> lo <= r.value.0 <= r.value.1 <= hi
  }

  /** What the model assumes of the bisection routine. */
  ghost predicate IsBisector(bisect: Bisector) {
    forall f, lo: real, hi: real :: lo <= hi ==> SubBracket(bisect(f, lo, hi), lo, hi)
  }

  function Midpoint(bracket: (real, real)): real {
    (bracket.0 + bracket.1) / 2.0
  }

  lemma MidpointInside(bracket: (real, real), lo: real, hi: real)
    requires SubBracket(Ok(bracket), lo, hi)
    ensures lo <= Midpoint(bracket) <= hi
  {
  }

  /** The average number of solutions per iteration: the capacity at the
      weight minus the redundancy 1 - codeRate. */
  function AvgSolsNum(space: Space.SpaceValue, cap: Capacity, w: real, cr: real): (r: real)
    ensures r > 0.0 <==> cap(space, w) > 1.0 - cr
    ensures r == 0.0 <==> cap(space, w) == 1.0 - cr
    ensures cr <= 1.0 ==> r <= cap(space, w)
  {
    cap(space, w) - (1.0 - cr)
  }

  /** The expected number of solutions of a fresh instance is the average
      number of solutions, cut off at 0. */
  lemma SolsNumIsClippedAverage(inst: Instance, cap: Capacity)
    requires CacheFresh(inst, cap)
    ensures SolsNum(inst) == Misc.Max(AvgSolsNum(inst.space, cap, inst.weight, inst.codeRate), 0.0)
  {
  }

  /** The average number of solutions at weight 1 - epsilon, as a function
      of the code rate. */
  function RateObjective(space: Space.SpaceValue, cap: Capacity): real -> real {
    (cr: real) => AvgSolsNum(space, cap, 1.0 - Epsilon, cr)
  }

  /** The average number of solutions at a code rate, as a function of the
      weight. */
  function WeightObjective(space: Space.SpaceValue, cap: Capacity, cr: real): real -> real {
    (w: real) => AvgSolsNum(space, cap, w, cr)
  }

  /** The average symbol weight over the largest one, which splits [0, 1]
      into the brackets of the two roots. */
  function SplitPoint(space: Space.SpaceValue): (r: real)
    requires space.alphabetSize >= 2 && Misc.MetricCheck(space.metric)
    ensures 0.0 < r < 1.0
  {
    Space.SplitPointInside(space);
    Space.AverageWeight(space, 1.0) / Space.PeakWeight(space) as real
  }

  /** The highest code rate for which weight 1 - epsilon still has
      solutions: the midpoint of the bisected bracket in [0, 1]. */
  function HighestCodeRate(space: Space.SpaceValue, cap: Capacity, bisect: Bisector): (r: Result<real>)
    requires IsBisector(bisect)
    ensures r.Ok? ==> 0.0 <= r.value <= 1.0
  {
    var bracket :- bisect(RateObjective(space, cap), 0.0, 1.0);
    MidpointInside(bracket, 0.0, 1.0);
    Ok(Midpoint(bracket))
  }

  /** `UpperRoot`: the space is built (which checks the metric); a code
      rate above the highest one gives 1, otherwise the root is bisected
      in [split point, 1]. */
  function UpperRoot(metric: string, q: uint32, cr: real, cap: Capacity, bisect: Bisector): (r: Result<real>)
    requires q >= 2 && IsBisector(bisect)
    ensures !Misc.MetricCheck(metric) ==> r == Err(InvalidArgument(Space.MetricNotOfferedMessage))
    ensures r.Ok? ==> Misc.MetricCheck(metric) && SplitPoint(Space.SpaceValue(metric, q)) <= r.value <= 1.0
    ensures (Misc.MetricCheck(metric) && HighestCodeRate(Space.SpaceValue(metric, q), cap, bisect).Ok?
             && cr > HighestCodeRate(Space.SpaceValue(metric, q), cap, bisect).value) ==> r == Ok(1.0)
  {
    var check := Space.MetricCheck(metric);
    if check.Fail? then Err(check.error)
    else
      var space := Space.SpaceValue(metric, q);
      var highestCodeRate :- HighestCodeRate(space, cap, bisect);
      if cr > highestCodeRate then Ok(1.0)
      else
        var split := SplitPoint(space);
        var bracket :- bisect(WeightObjective(space, cap, cr), split, 1.0);
        MidpointInside(bracket, split, 1.0);
        Ok(Midpoint(bracket))
  }

  /** `LowerRoot`: the space is built (which checks the metric) and the root
      is bisected in [0, split point]. */
  function LowerRoot(metric: string, q: uint32, cr: real, cap: Capacity, bisect: Bisector): (r: Result<real>)
    requires q >= 2 && IsBisector(bisect)
    ensures !Misc.MetricCheck(metric) ==> r == Err(InvalidArgument(Space.MetricNotOfferedMessage))
    ensures r.Ok? ==> Misc.MetricCheck(metric) && 0.0 <= r.value <= SplitPoint(Space.SpaceValue(metric, q))
  {
    var check := Space.MetricCheck(metric);
    if check.Fail? then Err(check.error)
    else
      var space := Space.SpaceValue(metric, q);
      var split := SplitPoint(space);
      var bracket :- bisect(WeightObjective(space, cap, cr), 0.0, split);
      MidpointInside(bracket, 0.0, split);
      Ok(Midpoint(bracket))
  }

  /** The root the driver starts from: the lower one for Hamming over any
      alphabet but the ternary one, the upper one otherwise. It is a
      normalised weight on the side of the split point its choice says. */
  function Root(metric: string, q: uint32, cr: real, cap: Capacity, bisect: Bisector): (r: Result<real>)
    requires q >= 2 && IsBisector(bisect)
    ensures r.Ok? ==> Misc.MetricCheck(metric) && 0.0 <= r.value <= 1.0
    ensures r.Ok? && metric == "hamming" && q != 3 ==> r.value <= SplitPoint(Space.SpaceValue(metric, q))
    ensures r.Ok? && !(metric == "hamming" && q != 3) ==> r.value >= SplitPoint(Space.SpaceValue(metric, q))
    ensures !Misc.MetricCheck(metric) ==> r == Err(InvalidArgument(Space.MetricNotOfferedMessage))
  {
    if metric == "hamming" && q != 3 then LowerRoot(metric, q, cr, cap, bisect)
    else UpperRoot(metric, q, cr, cap, bisect)
  }

  // ---------------------------------------------------------------------
  // The driver

  /** The driver `RunTime(metric, algorithm, alphabetSize, codeRate, weight,
      paramL, paramP, optLevelNum)`. The weight is the chosen root minus
      epsilon; an instance is constructed; Prange searches paramP with
      paramL = 0, Dumer/Stern and Wagner search both. A runtime_error
      raised by the search is caught and gives -1 (`caught` records that
      branch); otherwise the negated cost is returned. Exceptions of the
      root finding and of the constructor are not caught: an unknown
      algorithm is refused by the constructor before the driver's own test
      of the algorithm is reached. */
  method RunTime(metric: string, algorithm: string, alphabetSize: uint32, codeRate: real,
                 cap: Capacity, log2: int -> real, bisect: Bisector, quantum: bool, gr: real)
    returns (r: Result<real>, weight: real, paramL: real, paramP: real, optLevelNum: nat, ghost caught: bool)
    requires alphabetSize >= 2 && IsBisector(bisect) && Misc.IsGoldenRatio(gr)
    ensures Root(metric, alphabetSize, codeRate, cap, bisect).Err? ==>
              r == Err(Root(metric, alphabetSize, codeRate, cap, bisect).error)
    ensures Root(metric, alphabetSize, codeRate, cap, bisect).Ok? ==>
              weight == Root(metric, alphabetSize, codeRate, cap, bisect).value - Epsilon
    ensures r.Err? && r.error.RuntimeError? ==> Root(metric, alphabetSize, codeRate, cap, bisect).Err?
    ensures !Misc.AlgCheck(algorithm) ==> r.Err?
    ensures Root(metric, alphabetSize, codeRate, cap, bisect).Ok?
            && Construct(alphabetSize, codeRate, weight, metric, algorithm, cap).Err? ==>
              r == Err(Construct(alphabetSize, codeRate, weight, metric, algorithm, cap).error)
    ensures caught ==> r == Ok(-1.0) && (codeRate == 1.0 || (algorithm == "prange" && codeRate == 0.0))
    ensures r.Ok? && !caught ==>
              var inst := Construct(alphabetSize, codeRate, weight, metric, algorithm, cap);
              var t := IsdCost.RunTime(inst.value, cap, quantum, paramL, paramP);
              inst.Ok? && t.Ok? && t.value.optLevelNum == optLevelNum
              && r.value == -InBits(log2, alphabetSize, t.value.runTime)
              && Misc.Between(paramL, 0.0, 1.0 - codeRate)
              && Misc.Between(paramP, PLow(inst.value, paramL), PHigh(inst.value, paramL))
              && (algorithm == "prange" ==> paramL == 0.0 && InnerSearch(inst.value, cap, quantum, gr, 0.0, Ok(paramP)))
              && (algorithm != "prange" ==> OuterSearch(inst.value, cap, quantum, gr, paramL)
                                            && InnerSearch(inst.value, cap, quantum, gr, paramL, Ok(paramP)))
    ensures r.Ok? && !caught ==>
              SearchSucceeds(Construct(alphabetSize, codeRate, weight, metric, algorithm, cap).value,
                             cap, quantum, gr, paramL, paramP)
    ensures Root(metric, alphabetSize, codeRate, cap, bisect).Ok?
            && Construct(alphabetSize, codeRate, weight, metric, algorithm, cap).Ok? && r.Err? ==>
              && !r.error.RuntimeError?
              && SearchFails(Construct(alphabetSize, codeRate, weight, metric, algorithm, cap).value,
                             cap, quantum, gr, r.error)
    ensures Root(metric, alphabetSize, codeRate, cap, bisect).Ok?
            && Construct(alphabetSize, codeRate, weight, metric, algorithm, cap).Ok? ==>
              (caught <==> (exists e: Exception ::
                              && e.RuntimeError?
                              && SearchFails(Construct(alphabetSize, codeRate, weight, metric, algorithm, cap).value,
                                             cap, quantum, gr, e)))
  {
    caught := false;
    var root := Root(metric, alphabetSize, codeRate, cap, bisect);
    if root.Err? {
      return Err(root.error), 0.0, 0.0, 0.0, 1, false;
    }
    weight := root.value - Epsilon;
    var created := InformationSetDecoding.Create(cap, alphabetSize, codeRate, weight, metric, algorithm);
    if created.Err? {
      return Err(created.error), weight, 0.0, 0.0, 1, false;
    }
    var isd := created.value;
    var runTime: real;
    if algorithm == "prange" {
      paramL := 0.0;
      var searched;
      searched, paramP, optLevelNum := isd.GoldenSectionSearchP(cap, log2, quantum, gr);
      if searched.Err? && searched.error.RuntimeError? {
        assert SearchFails(isd.Value(), cap, quantum, gr, searched.error);
        return Ok(-1.0), weight, paramL, paramP, optLevelNum, true;
      }
      if searched.Err? {
        OnlyFailure(isd.Value(), cap, quantum, gr, searched.error);
        return Err(searched.error), weight, paramL, paramP, optLevelNum, false;
      }
      runTime := searched.value;
    } else if algorithm == "dumer" || algorithm == "wagner" {
      var searched;
      ghost var lo, hi, trace, optCs, optDs;
      searched, paramL, paramP, optLevelNum, lo, hi, trace, optCs, optDs := isd.GoldenSectionSearchLP(cap, log2, quantum, gr);
      if searched.Err? && searched.error.RuntimeError? {
        assert SearchFails(isd.Value(), cap, quantum, gr, searched.error);
        return Ok(-1.0), weight, paramL, paramP, optLevelNum, true;
      }
      if searched.Err? {
        OnlyFailure(isd.Value(), cap, quantum, gr, searched.error);
        return Err(searched.error), weight, paramL, paramP, optLevelNum, false;
      }
      runTime := searched.value;
    } else {
      assert false;
    }
    NoFailure(isd.Value(), cap, quantum, gr, paramL, paramP);
    r := Ok(-runTime);
  }

  /** A search that raises e raises nothing else. */
  lemma OnlyFailure(inst: Instance, cap: Capacity, quantum: bool, gr: real, e: Exception)
    requires gr != 0.0 && SearchFails(inst, cap, quantum, gr, e)
    ensures forall e' :: SearchFails(inst, cap, quantum, gr, e') ==> e' == e
  {
    forall e' | SearchFails(inst, cap, quantum, gr, e')
      ensures e' == e
    {
      SearchFailsUnique(inst, cap, quantum, gr, e', e);
    }
  }

  /** A search that succeeds raises nothing. */
  lemma NoFailure(inst: Instance, cap: Capacity, quantum: bool, gr: real, paramL: real, paramP: real)
    requires gr != 0.0 && SearchSucceeds(inst, cap, quantum, gr, paramL, paramP)
    ensures forall e :: !SearchFails(inst, cap, quantum, gr, e)
  {
    forall e: Exception
      ensures !SearchFails(inst, cap, quantum, gr, e)
    {
      SearchSuccessExcludesFailure(inst, cap, quantum, gr, paramL, paramP, e);
    }
  }
}
