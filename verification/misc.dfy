/** The validators and the golden-section line search of misc.cpp.

    The validators are the boolean forms; the throwing forms used by the
    decoding instance live in module Isd. `double` is modelled as `real`.
    The golden ratio is not computed from a square root: it is a parameter
    `gr` that the caller promises satisfies gr > 1 and gr * gr == gr + 1. */
module Misc {
  import opened Errors

  /** The metrics the analysis offers. */
  const Metrics: set<string> := {"hamming", "lee"}

  /** The algorithms the analysis compares. */
  const Algorithms: set<string> := {"prange", "dumer", "wagner"}

  /** A metric is offered when it is "hamming" or "lee". */
  predicate MetricCheck(m: string): (ok: bool)
    ensures ok <==> m in Metrics
  {
    m == "hamming" || m == "lee"
  }

  /** A normalised value lies in [0,1]: clamping it into [0,1] leaves it
      unchanged. */
  predicate ParamCheck(p: real): (ok: bool)
    ensures ok <==> Min(Max(p, 0.0), 1.0) == p
  {
    0.0 <= p <= 1.0
  }

  /** An algorithm is offered when it is "prange", "dumer" or "wagner". */
  predicate AlgCheck(a: string): (ok: bool)
    ensures ok <==> a in Algorithms
  {
    a == "prange" || a == "dumer" || a == "wagner"
  }

  /** An alphabet has at least two symbols. */
  predicate AlphabetSizeCheck(alphabetSize: int): (ok: bool)
    ensures ok <==> alphabetSize >= 2
  {
    alphabetSize >= 2
  }

  function Abs(x: real): real {
    if x < 0.0 then -x else x
  }

  /** std::min(x, y): y when y < x, otherwise x. */
  function Min(x: real, y: real): real {
    if y < x then y else x
  }

  /** std::max(x, y): y when x < y, otherwise x. */
  function Max(x: real, y: real): real {
    if x < y then y else x
  }

  function Pow(x: real, n: nat): real {
    if n == 0 then 1.0 else x * Pow(x, n - 1)
  }

  /** What the code relies on about (sqrt(5) + 1) / 2. */
  predicate IsGoldenRatio(gr: real) {
    gr > 1.0 && gr * gr == gr + 1.0
  }

  /** The left probe c = b - (b - a) / gr. */
  function LowerProbe(a: real, b: real, gr: real): real
    requires gr != 0.0
  {
    b - (b - a) / gr
  }

  /** The right probe d = a + (b - a) / gr. */
  function UpperProbe(a: real, b: real, gr: real): real
    requires gr != 0.0
  {
    a + (b - a) / gr
  }

  /** The gap d - c between the probes is (b - a) times this factor. */
  function GapFactor(gr: real): real
    requires gr != 0.0
  {
    2.0 / gr - 1.0
  }

  /** The loop exit test: |c - d| <= tol. */
  predicate Converged(a: real, b: real, tol: real, gr: real)
    requires gr != 0.0
  {
    Abs(LowerProbe(a, b, gr) - UpperProbe(a, b, gr)) <= tol
  }

  /** x lies between a and b, whichever of the two is smaller. */
  predicate Between(x: real, a: real, b: real) {
    if a <= b then a <= x <= b else b <= x <= a
  }

  /** The bracket (a, b) lies inside (a0, b0) and is oriented the same way. */
  predicate Nested(a: real, b: real, a0: real, b0: real) {
    if a0 <= b0 then a0 <= a <= b <= b0 else b0 <= b <= a <= a0
  }

  lemma GoldenRatioFacts(gr: real)
    requires IsGoldenRatio(gr)
    ensures 1.0 < gr < 2.0
  {
  }

  lemma GapFactorBounds(gr: real)
    requires 1.0 < gr < 2.0
    ensures 0.0 < GapFactor(gr) < 1.0
  {
    assert 2.0 / gr * gr == 2.0;
  }

  lemma MulNonneg(x: real, y: real)
    requires x >= 0.0 && y >= 0.0
    ensures x * y >= 0.0
  {
  }

  lemma DivBounds(len: real, gr: real)
    requires 1.0 < gr < 2.0
    ensures len >= 0.0 ==> len / 2.0 <= len / gr <= len
    ensures len < 0.0 ==> len <= len / gr <= len / 2.0
  {
    var t := len / gr;
    assert t * gr == len;
    assert len - t == t * (gr - 1.0);
    assert 2.0 * t - len == t * (2.0 - gr);
    if len >= 0.0 {
      assert t >= 0.0;
      MulNonneg(t, gr - 1.0);
      MulNonneg(t, 2.0 - gr);
    } else {
      assert t < 0.0;
      MulNonneg(-t, gr - 1.0);
      MulNonneg(-t, 2.0 - gr);
    }
  }

  /** Where the two probes lie, how far apart they are, and how long the
      bracket is after either choice of the loop. */
  lemma ProbeFacts(a: real, b: real, gr: real)
    requires 1.0 < gr < 2.0
    ensures UpperProbe(a, b, gr) - LowerProbe(a, b, gr) == (b - a) * GapFactor(gr)
    ensures UpperProbe(a, b, gr) - a == (b - a) / gr
    ensures b - LowerProbe(a, b, gr) == (b - a) / gr
    ensures Nested(LowerProbe(a, b, gr), UpperProbe(a, b, gr), a, b)
    ensures Nested(a, UpperProbe(a, b, gr), a, b)
    ensures Nested(LowerProbe(a, b, gr), b, a, b)
  {
    DivBounds(b - a, gr);
    assert (b - a) * GapFactor(gr) == 2.0 * ((b - a) / gr) - (b - a);
  }

  lemma NestedTrans(a2: real, b2: real, a1: real, b1: real, a0: real, b0: real)
    requires Nested(a2, b2, a1, b1) && Nested(a1, b1, a0, b0)
    ensures Nested(a2, b2, a0, b0)
  {
  }

  lemma PowPositive(x: real, n: nat)
    requires x > 0.0
    ensures Pow(x, n) > 0.0
  {
    if n > 0 {
      PowPositive(x, n - 1);
      assert x * Pow(x, n - 1) > 0.0;
    }
  }

  /** Bernoulli's inequality: gr^n >= 1 + n (gr - 1). */
  lemma {:induction false} Bernoulli(gr: real, n: nat)
    requires gr >= 1.0
    ensures Pow(gr, n) >= 1.0 + (n as real) * (gr - 1.0)
  {
    if n > 0 {
      Bernoulli(gr, n - 1);
      var p := Pow(gr, n - 1);
      var k := (n - 1) as real;
      MulNonneg(k, gr - 1.0);
      assert p >= 1.0;
      assert Pow(gr, n) == gr * p;
      assert gr * p == p + (gr - 1.0) * p;
      MulNonneg(gr - 1.0, p - 1.0);
      assert (gr - 1.0) * p >= gr - 1.0;
      assert (n as real) * (gr - 1.0) == k * (gr - 1.0) + (gr - 1.0);
    }
  }

  /** A number of iterations after which a bracket of length len0 has
      certainly converged: gr^n grows without bound, the tolerance is fixed. */
  function StepBound(len0: real, tol: real, gr: real): nat
    requires tol > 0.0 && 1.0 < gr < 2.0
  {
    var x := Abs(len0) * GapFactor(gr) / (tol * (gr - 1.0));
    var n := x.Floor + 1;
    if n < 0 then 0 else n
  }

  /** Past x = g / e, n copies of e exceed g. */
  lemma PastQuotient(g: real, e: real, n: real)
    requires e > 0.0 && n > g / e
    ensures n * e > g
  {
    assert (g / e) * e == g;
    assert (n - g / e) * e > 0.0;
  }

  /** Scaling Bernoulli's bound by tol. */
  lemma ScaleBernoulli(p: real, n: real, tol: real, gm1: real)
    requires tol > 0.0 && p >= 1.0 + n * gm1
    ensures tol * p >= tol + n * (tol * gm1)
  {
    MulNonneg(tol, p - (1.0 + n * gm1));
    assert tol * (1.0 + n * gm1) == tol + n * (tol * gm1);
  }

  lemma {:induction false} ConvergedAfterBound(len0: real, tol: real, gr: real, n: nat)
    requires tol > 0.0 && 1.0 < gr < 2.0
    requires n >= StepBound(len0, tol, gr)
    ensures Abs(len0) * GapFactor(gr) <= tol * Pow(gr, n)
  {
    Bernoulli(gr, n);
    var g := Abs(len0) * GapFactor(gr);
    var e := tol * (gr - 1.0);
    assert e > 0.0;
    assert (n as real) > g / e;
    PastQuotient(g, e, n as real);
    ScaleBernoulli(Pow(gr, n), n as real, tol, gr - 1.0);
  }

  /** A bracket of length len whose probes are more than tol apart is the
      original bracket len0 = len * p shrunk by p = gr^n: scaled back up,
      the original gap exceeds tol * p. */
  lemma ScaleGap(len: real, p: real, len0: real, gap: real, tol: real)
    requires p > 0.0 && gap > 0.0 && len * p == len0
    requires Abs(len) * gap > tol
    ensures Abs(len0) * gap > tol * p
  {
    var x := Abs(len) * gap;
    if len < 0.0 {
      assert Abs(len0) == (-len) * p;
    } else {
      assert Abs(len0) == len * p;
    }
    assert Abs(len0) * gap == x * p;
    assert (x - tol) * p > 0.0;
  }

  lemma ShrinkStep(len: real, gr: real, p: real)
    requires gr != 0.0
    ensures (len / gr) * (gr * p) == len * p
  {
    assert (len / gr) * gr == len;
  }

  /** While the probes are more than tol apart, the original bracket's gap
      exceeds tol * gr^steps. */
  lemma GapExceeds(a: real, b: real, a0: real, b0: real, tol: real, gr: real, steps: nat)
    requires tol > 0.0 && 1.0 < gr < 2.0
    requires (b - a) * Pow(gr, steps) == b0 - a0
    requires Abs(LowerProbe(a, b, gr) - UpperProbe(a, b, gr)) > tol
    ensures Abs(b0 - a0) * GapFactor(gr) > tol * Pow(gr, steps)
  {
    var c, d, g, p := LowerProbe(a, b, gr), UpperProbe(a, b, gr), GapFactor(gr), Pow(gr, steps);
    assert d - c == (b - a) * g && g > 0.0 by {
      GapFactorBounds(gr);
      ProbeFacts(a, b, gr);
    }
    PowPositive(gr, steps);
    AbsGap(b - a, g, c, d);
    ScaleGap(b - a, p, b0 - a0, g, tol);
  }

  /** A gap that still exceeds tol * gr^steps means fewer than StepBound
      iterations have run. */
  lemma BelowBound(len0: real, tol: real, gr: real, steps: nat)
    requires tol > 0.0 && 1.0 < gr < 2.0
    requires Abs(len0) * GapFactor(gr) > tol * Pow(gr, steps)
    ensures steps < StepBound(len0, tol, gr)
  {
    if steps >= StepBound(len0, tol, gr) {
      ConvergedAfterBound(len0, tol, gr, steps);
    }
  }

  /** An unconverged iteration: the original gap exceeds tol * gr^steps and
      fewer than StepBound iterations have run. */
  lemma IterationAllowed(a: real, b: real, a0: real, b0: real, tol: real, gr: real, steps: nat)
    requires tol > 0.0 && 1.0 < gr < 2.0
    requires ShrunkBy(a, b, a0, b0, gr, steps)
    requires !Converged(a, b, tol, gr)
    ensures ApartAt(b0 - a0, tol, gr, steps)
    ensures steps < StepBound(b0 - a0, tol, gr)
  {
    GapExceeds(a, b, a0, b0, tol, gr, steps);
    BelowBound(b0 - a0, tol, gr, steps);
  }

  /** Both probes of a bracket inside [a0, b0] lie in [a0, b0]. */
  lemma ProbesBetween(a: real, b: real, a0: real, b0: real, gr: real)
    requires 1.0 < gr < 2.0
    requires Nested(a, b, a0, b0)
    ensures Between(LowerProbe(a, b, gr), a0, b0) && Between(UpperProbe(a, b, gr), a0, b0)
  {
    ProbeFacts(a, b, gr);
    NestedTrans(LowerProbe(a, b, gr), UpperProbe(a, b, gr), a, b, a0, b0);
  }

  /** When [a0, b0] has positive length, so has every bracket shrunk from
      it, and its probes and midpoint lie strictly inside [a0, b0]. */
  lemma ProbesInside(a: real, b: real, a0: real, b0: real, gr: real, steps: nat)
    requires 1.0 < gr < 2.0 && a0 < b0
    requires Nested(a, b, a0, b0) && ShrunkBy(a, b, a0, b0, gr, steps)
    ensures a0 < LowerProbe(a, b, gr) < b0 && a0 < UpperProbe(a, b, gr) < b0
    ensures a0 < (a + b) / 2.0 < b0
  {
    PowPositive(gr, steps);
    if b - a <= 0.0 {
      MulNonneg(a - b, Pow(gr, steps));
    }
    ProbeFacts(a, b, gr);
    var g := (b - a) / gr;
    assert g * gr == b - a;
    if g <= 0.0 {
      MulNonneg(-g, gr);
    }
    assert b - a - g == g * (gr - 1.0) by {
      assert g * (gr - 1.0) == g * gr - g;
    }
    MulPositive(g, gr - 1.0);
  }

  lemma MulPositive(x: real, y: real)
    requires x > 0.0 && y > 0.0
    ensures x * y > 0.0
  {
  }

  lemma AbsGap(len: real, g: real, c: real, d: real)
    requires g > 0.0 && d - c == len * g
    ensures Abs(c - d) == Abs(len) * g
  {
    if len < 0.0 {
      assert (-len) * g > 0.0;
    } else {
      MulNonneg(len, g);
    }
  }

  /** The bracket [a, b] is the original one shrunk `steps` times by gr. */
  predicate ShrunkBy(a: real, b: real, a0: real, b0: real, gr: real, steps: nat) {
    (b - a) * Pow(gr, steps) == b0 - a0
  }

  /** The probes were more than tol apart in each of the first `steps`
      iterations. */
  predicate Unconverged(len0: real, tol: real, gr: real, steps: nat)
    requires gr != 0.0
  {
    steps == 0 || (Unconverged(len0, tol, gr, steps - 1) && ApartAt(len0, tol, gr, steps - 1))
  }

  /** In iteration m the probes of the shrunk bracket are more than tol apart. */
  predicate ApartAt(len0: real, tol: real, gr: real, m: nat)
    requires gr != 0.0
  {
    Abs(len0) * GapFactor(gr) > tol * Pow(gr, m)
  }

  /** Either choice of an iteration keeps the bracket inside [a0, b0] and
      divides its length by gr. */
  lemma {:induction false} StepShrinks(a: real, b: real, a1: real, b1: real, a0: real, b0: real, gr: real, steps: nat)
    requires 1.0 < gr < 2.0
    requires Nested(a, b, a0, b0) && ShrunkBy(a, b, a0, b0, gr, steps)
    requires (a1 == a && b1 == UpperProbe(a, b, gr)) || (a1 == LowerProbe(a, b, gr) && b1 == b)
    ensures Nested(a1, b1, a0, b0) && ShrunkBy(a1, b1, a0, b0, gr, steps + 1)
  {
    ProbeFacts(a, b, gr);
    ShrinkStep(b - a, gr, Pow(gr, steps));
    if a1 == a && b1 == UpperProbe(a, b, gr) {
      NestedTrans(a, UpperProbe(a, b, gr), a, b, a0, b0);
    } else {
      NestedTrans(LowerProbe(a, b, gr), b, a, b, a0, b0);
    }
  }

  /** One iteration of the search on the bracket (a, b): f is evaluated at
      the probe c and then at the probe d; the bracket [a, d] is kept when
      f(c) < f(d) and [c, b] otherwise, so a tie keeps [c, b]. An exception
      of f ends the iteration. */
  function Step(bracket: (real, real), gr: real, f: real -> Result<real>): Result<(real, real)>
    requires gr != 0.0
  {
    var a, b := bracket.0, bracket.1;
    var c, d := LowerProbe(a, b, gr), UpperProbe(a, b, gr);
    var fc :- f(c);
    var fd :- f(d);
    Ok(if fc < fd then (a, d) else (c, b))
  }

  /** Each bracket of the trace is the iteration of f on the one before. */
  ghost predicate Follows(trace: seq<(real, real)>, gr: real, f: real -> Result<real>)
    requires gr != 0.0
  {
    forall i :: 0 <= i < |trace| - 1 ==> Step(trace[i], gr, f) == Ok(trace[i + 1])
  }

  /** The golden-section minimiser of misc.cpp (also in isd.cpp), with the
      objective returning a Result so that an exception it raises leaves the
      search, as it does in C++. f(c) is evaluated before f(d).

      The ghost outputs describe the final bracket (lo, hi), the number of
      iterations and the trace of brackets, each obtained from the one before
      by an iteration of f. The bracket stays inside [a0, b0] (in either orientation),
      each iteration multiplies its length by exactly 1/gr, the loop stops at
      the first iteration whose probes are within tol of each other, and the
      result is the midpoint of the final bracket. An error is the error of
      f at a point inside [a0, b0]. */
  method GoldenSectionSearch(a0: real, b0: real, tol: real, gr: real, f: real -> Result<real>)
    returns (r: Result<real>, ghost lo: real, ghost hi: real, ghost steps: nat, ghost trace: seq<(real, real)>)
    requires tol > 0.0 && IsGoldenRatio(gr)
    ensures |trace| == steps + 1 && trace[steps] == (lo, hi)
    ensures Run(a0, b0, tol, gr, f, trace, r)
    ensures Nested(lo, hi, a0, b0)
    ensures ShrunkBy(lo, hi, a0, b0, gr, steps)
    ensures Unconverged(b0 - a0, tol, gr, steps)
    ensures r.Ok? ==> Converged(lo, hi, tol, gr) && r.value == (lo + hi) / 2.0
    ensures r.Ok? ==> Between(r.value, a0, b0)
    ensures r.Err? ==> exists x :: Between(x, a0, b0) && f(x) == r
  {
    GoldenRatioFacts(gr);
    var a, b := a0, b0;
    var c := LowerProbe(a, b, gr);
    var d := UpperProbe(a, b, gr);
    steps := 0;
    trace := [(a0, b0)];
    ghost var bound := StepBound(b0 - a0, tol, gr);
    while !Converged(a, b, tol, gr)
      invariant |trace| == steps + 1 && trace[0] == (a0, b0) && trace[steps] == (a, b)
      invariant Follows(trace, gr, f)
      invariant forall i :: 0 <= i < steps ==> !Converged(trace[i].0, trace[i].1, tol, gr)
      invariant Nested(a, b, a0, b0)
      invariant c == LowerProbe(a, b, gr) && d == UpperProbe(a, b, gr)
      invariant ShrunkBy(a, b, a0, b0, gr, steps)
      invariant Unconverged(b0 - a0, tol, gr, steps)
      invariant steps <= bound
      decreases bound - steps
    {
      IterationAllowed(a, b, a0, b0, tol, gr, steps);
      ProbesBetween(a, b, a0, b0, gr);
      var fc := f(c);
      if fc.Err? {
        r, lo, hi := fc, a, b;
        return;
      }
      var fd := f(d);
      if fd.Err? {
        r, lo, hi := fd, a, b;
        return;
      }
      if fc.value < fd.value {
        StepShrinks(a, b, a, d, a0, b0, gr, steps);
        b := d;
      } else {
        StepShrinks(a, b, c, b, a0, b0, gr, steps);
        a := c;
      }
      FollowsExtended(trace, (a, b), gr, f);
      trace := trace + [(a, b)];
      c := LowerProbe(a, b, gr);
      d := UpperProbe(a, b, gr);
      steps := steps + 1;
    }
    r, lo, hi := Ok((b + a) / 2.0), a, b;
  }

  /** A trace stays a trace when the iteration of its last bracket is
      appended. */
  lemma FollowsExtended(trace: seq<(real, real)>, next: (real, real), gr: real, f: real -> Result<real>)
    requires gr != 0.0 && |trace| > 0
    requires Follows(trace, gr, f) && Step(trace[|trace| - 1], gr, f) == Ok(next)
    ensures Follows(trace + [next], gr, f)
  {
    var t := trace + [next];
    forall i | 0 <= i < |t| - 1
      ensures Step(t[i], gr, f) == Ok(t[i + 1])
    {
      assert t[i] == trace[i];
    }
  }

  /** The golden-section search of f over [a0, b0] visits the brackets of
      `trace` and returns r: each bracket but the last is unconverged and
      narrowed by Step; at the last one r is the midpoint when it has
      converged, and otherwise the error of f at its probes. */
  ghost predicate Run(a0: real, b0: real, tol: real, gr: real, f: real -> Result<real>,
                      trace: seq<(real, real)>, r: Result<real>)
    requires gr != 0.0
  {
    && |trace| > 0
    && trace[0] == (a0, b0)
    && Follows(trace, gr, f)
    && (forall i :: 0 <= i < |trace| - 1 ==> !Converged(trace[i].0, trace[i].1, tol, gr))
    && var last := trace[|trace| - 1];
       && (r.Ok? ==> Converged(last.0, last.1, tol, gr) && r.value == (last.0 + last.1) / 2.0)
       && (r.Err? ==> !Converged(last.0, last.1, tol, gr) && Step(last, gr, f) == Err(r.error))
  }

  /** r is what the golden-section search of f over [a0, b0] returns. */
  ghost predicate Searched(a0: real, b0: real, tol: real, gr: real, f: real -> Result<real>, r: Result<real>)
    requires gr != 0.0
  {
    exists trace :: Run(a0, b0, tol, gr, f, trace, r)
  }

  /** A bracket of a run is followed by another exactly when it has not
      converged and f is defined at both its probes. */
  lemma RunContinues(a0: real, b0: real, tol: real, gr: real, f: real -> Result<real>,
                     trace: seq<(real, real)>, r: Result<real>, k: nat)
    requires gr != 0.0 && Run(a0, b0, tol, gr, f, trace, r) && k < |trace|
    ensures k < |trace| - 1 <==> !Converged(trace[k].0, trace[k].1, tol, gr) && Step(trace[k], gr, f).Ok?
  {
    if k < |trace| - 1 {
      assert Step(trace[k], gr, f) == Ok(trace[k + 1]);
    } else if r.Err? {
      assert Step(trace[k], gr, f) == Err(r.error);
    }
  }

  /** Two runs of the same search visit the same brackets as long as both
      go on. */
  lemma {:induction false} RunsAgree(a0: real, b0: real, tol: real, gr: real, f: real -> Result<real>,
                                     t1: seq<(real, real)>, r1: Result<real>,
                                     t2: seq<(real, real)>, r2: Result<real>, k: nat)
    requires gr != 0.0 && Run(a0, b0, tol, gr, f, t1, r1) && Run(a0, b0, tol, gr, f, t2, r2)
    requires k < |t1| && k < |t2|
    ensures t1[k] == t2[k]
  {
    if k > 0 {
      RunsAgree(a0, b0, tol, gr, f, t1, r1, t2, r2, k - 1);
      assert Step(t1[k - 1], gr, f) == Ok(t1[k]);
      assert Step(t2[k - 1], gr, f) == Ok(t2[k]);
    }
  }

  /** The search is deterministic: a run and its result are determined by
      the bracket, the tolerance, the ratio and f. */
  lemma RunUnique(a0: real, b0: real, tol: real, gr: real, f: real -> Result<real>,
                  t1: seq<(real, real)>, r1: Result<real>, t2: seq<(real, real)>, r2: Result<real>)
    requires gr != 0.0 && Run(a0, b0, tol, gr, f, t1, r1) && Run(a0, b0, tol, gr, f, t2, r2)
    ensures t1 == t2 && r1 == r2
  {
    var n := if |t1| < |t2| then |t1| else |t2|;
    RunsAgree(a0, b0, tol, gr, f, t1, r1, t2, r2, n - 1);
    RunContinues(a0, b0, tol, gr, f, t1, r1, n - 1);
    RunContinues(a0, b0, tol, gr, f, t2, r2, n - 1);
    assert |t1| == |t2| == n;
    forall k | 0 <= k < n
      ensures t1[k] == t2[k]
    {
      RunsAgree(a0, b0, tol, gr, f, t1, r1, t2, r2, k);
    }
  }

  /** The search has at most one result. */
  lemma SearchedUnique(a0: real, b0: real, tol: real, gr: real, f: real -> Result<real>, r1: Result<real>, r2: Result<real>)
    requires gr != 0.0 && Searched(a0, b0, tol, gr, f, r1) && Searched(a0, b0, tol, gr, f, r2)
    ensures r1 == r2
  {
    var t1 :| Run(a0, b0, tol, gr, f, t1, r1);
    var t2 :| Run(a0, b0, tol, gr, f, t2, r2);
    RunUnique(a0, b0, tol, gr, f, t1, r1, t2, r2);
  }
}
