# Information set decoding cost analysis, modelled in Dafny

This project models the core of a tool that estimates the asymptotic cost of
information set decoding (ISD) attacks on random linear codes over an
alphabet of size q, under the Hamming or the Lee metric. It covers these
algorithms: Prange's, Dumer/Stern's and Wagner's, each in a classical and a
quantum variant. The core has four parts:

- **Vector spaces** (`Space`, `MacSpace`): the weight of a symbol, the largest
  symbol weight, the average weight of a vector, and the `VectorSpace` class.
  The class comes in two builds: the general one checks only the metric; the
  macOS one also checks the alphabet size.
- **Validators and the golden-section search** (`Misc`): the boolean checks
  for metric, normalised value, algorithm and alphabet size, and the
  golden-section minimiser. The model proves the minimiser stays inside its
  starting bracket, shrinks it by the golden ratio each step, and terminates
  within a step bound.
- **Cost formulas** (`IsdCost`): each distance ratio is clamped into [0, 1]
  with a tolerance, and the surfaces are computed from the capacity oracle.
  The merge depth comes from the Wagner level loop. The formulas cover the
  birthday-decoding cost, solutions per iteration, iteration cost, number of
  solutions, and the probability of finding a particular solution or any
  solution. The running time per symbol combines them.
- **The ISD instance and the driver** (`Isd`): the throwing validators; the
  `InformationSetDecoding` class with its constructor, copy, assignment,
  getters, setters and cached capacity `surfaceW`; the one-parameter and
  two-parameter searches; the upper and lower roots of the average number of
  solutions; and the driver `RunTime`, which chooses the weight and returns
  the negated cost in bits.

Floating-point `double` is modelled as `real`. Three outside routines become
parameters of the model:

- `cap`: the convex capacity solver `VectorSpace::SphereSurfArea`. It returns
  -1 when no optimum is found.
- `bisect`: Boost's bisection. The model assumes only that it returns a
  sub-bracket of its input, or an exception.
- `log2`: the logarithm of the alphabet size.

The golden ratio `gr` is also a parameter; the model requires `gr > 1` and
`gr * gr == gr + 1`.

Exceptions become `Errors.Exception`:

- `InvalidArgument(message)` and `RuntimeError(message)` carry the source's
  messages.
- `NoTermination` stands for the Wagner level loop, which never exits when
  `paramL <= 0` and the merge condition holds at depth 2.

The sources do not build as one program: the validators are declared
`bool` in one header and defined `void` (throwing) in isd.cpp. The model
follows these readings:

- The `InformationSetDecoding` constructor uses the throwing validators of
  isd.cpp and the throwing `MetricCheck` declared in src/space.h.
- The setters declared in isd.h use the boolean validators of src/misc.cpp.
- The instance holds the `VectorSpace` of src/space.h. The stricter
  `VectorSpace` of Mac/src/space.h is modelled separately, as `MacSpace`.

A consequence is that the driver's own "algorithm not offered → -1" branch
cannot be reached: the constructor has already thrown `invalid_argument` for
an unknown algorithm. The model keeps that branch as unreachable and proves
so.

Where the three golden-section search copies (src/misc.cpp, Linux/src/misc.cpp
and src/isd.cpp:367-388) agree, one Dafny method models them.

## Model

| member | source | states |
|---|---|---|
| Space.Weight | src/space.cpp:51-69 | Succeeds exactly for Hamming and Lee and otherwise throws the "Invalid metric" invalid_argument; a weight is at most q/2, is zero exactly for the symbol 0 mod q, and is at most 1 under Hamming |
| Space.WeightOfResidue | src/space.cpp:53 | Symbols congruent mod q have the same weight |
| Space.LeeSymmetric | src/space.cpp:62 | Under Lee, symbol r and symbol q - r have the same weight |
| Space.PeakWeightIsMaximum | src/space.cpp:79 | The peak weight is attained by a symbol below q and bounds the weight of every symbol below q |
| Space.MaxWeight | src/space.cpp:71-80 | Loop over the q symbols: fails exactly on an unknown metric; otherwise returns a weight attained by some symbol that bounds all others, i.e. the peak weight |
| Space.AvgVectorWeight | src/space.cpp:82-91 | Loop summing the symbol weights: fails exactly on an unknown metric; otherwise returns (sum of weights) / q * length |
| Space.HammingWeightSum | src/space.cpp:58 | Under Hamming, the symbols 0 .. n-1 weigh n - 1 in total |
| Space.HammingAverageWeight | src/space.cpp:90 | Under Hamming the average weight is (q-1)/q of the length |
| Space.WeightSumBounds | src/space.cpp:85-88 | The weights of symbols 0 .. n-1 sum to at least n - 1 and at most (n - 1) times the peak weight |
| Space.SplitPointInside | src/isd.cpp:481 | For q >= 2 the peak weight is at least 1, and average weight / peak weight lies strictly between 0 and 1 |
| Space.MetricCheck | src/space.h:10 | The throwing metric check passes exactly "hamming" and "lee" and otherwise throws invalid_argument |
| Space.VectorSpace.Create | src/space.h:18-22 | Succeeds exactly for an offered metric (any alphabet size is kept); the new object holds the given metric and size |
| Space.VectorSpace.Copy | src/space.h:23-26 | The copy holds the same metric and alphabet size |
| Space.VectorSpace.Assign | src/space.h:27-36 | After assignment, including self-assignment, the object holds the source's old metric and size |
| Space.VectorSpace.SetMetric | src/space.h:38-42 | Stores an offered metric; any other throws and leaves the object unchanged |
| Space.VectorSpace.SetAlphabetSize | src/space.h:44 | Stores any alphabet size and changes nothing else |
| MacSpace.SizeAccepted | Linux/src/misc.cpp:22-26 | The unsigned size passed to the `int` check is accepted exactly for 2 <= size < 2^31 |
| MacSpace.VectorSpace.Default | Mac/src/space.h:17 | The default object is valid: "hamming" over 2 symbols |
| MacSpace.VectorSpace.Create | Mac/src/space.h:17-28 | Succeeds exactly when size and metric are accepted; the size error comes first, then the metric error; the result is valid and holds the arguments |
| MacSpace.VectorSpace.Copy | Mac/src/space.h:29 | The copy of a valid object is valid and equal to it |
| MacSpace.VectorSpace.Assign | Mac/src/space.h:30-39 | Assignment keeps validity and copies the source's old fields |
| MacSpace.VectorSpace.SetMetric | Mac/src/space.h:41-47 | Stores an offered metric or throws, leaving the object unchanged; validity is kept |
| MacSpace.VectorSpace.SetAlphabetSize | Mac/src/space.h:49-55 | Stores an accepted size or throws, leaving the object unchanged; validity is kept |
| Misc.MetricCheck | src/misc.cpp:3-8 | True exactly for "hamming" and "lee" |
| Misc.ParamCheck | src/misc.cpp:10-15 | True exactly for the values that clamping into [0, 1] leaves unchanged |
| Misc.AlgCheck | src/misc.cpp:17-23 | True exactly for "prange", "dumer" and "wagner" |
| Misc.AlphabetSizeCheck | src/misc.cpp:25-30 | True exactly for sizes of at least 2 |
| Misc.GoldenRatioFacts | src/misc.cpp:34 | (sqrt 5 + 1) / 2, characterised by gr^2 = gr + 1 and gr > 1, lies strictly between 1 and 2 |
| Misc.GoldenSectionSearch | src/misc.cpp:32-52 | The search terminates, and its ghost trace and result form a run of the search (`Run`). A run starts at [a, b]. Every bracket but the last is unconverged, and the next one follows the selection rule: with f defined at both probes c < d, the next bracket is [a, d] when f(c) < f(d) and [c, b] otherwise, so ties keep the right part. At the last bracket the result is its midpoint when it has converged; otherwise it is the error f raises at a probe. The final bracket lies inside [a, b] and is the start length divided by gr^steps, and on success the midpoint lies in [a, b] |
| Misc.RunContinues | src/misc.cpp:37-48 | A bracket of a run is followed by another exactly when it is unconverged and f is defined at both its probes |
| Misc.RunUnique | src/misc.cpp:32-52 | The search is deterministic: two runs over the same bracket, tolerance, ratio and f have the same brackets and the same result |
| Misc.SearchedUnique | src/misc.cpp:32-52 | The search has at most one result, so `Searched` names the value the search returns |
| Misc.ProbeFacts | Linux/src/misc.cpp:31-32 | The probes c and d lie in the bracket, d - c is the length times (2/gr - 1), and d - a = b - c = length / gr |
| Misc.StepShrinks | Linux/src/misc.cpp:35-44 | Either choice ([a, d] or [c, b]) keeps the bracket inside the start bracket and divides its length by gr once more |
| Misc.IterationAllowed | Linux/src/misc.cpp:33 | While the probes are more than tol apart, the step count is below the step bound, which gives termination |
| Misc.ConvergedAfterBound | src/isd.cpp:373 | After the step bound the probes of any shrunk bracket are within tol |
| Misc.ProbesBetween | src/isd.cpp:371-372 | The probes of any bracket inside [a0, b0] lie in [a0, b0] |
| Misc.ProbesInside | src/isd.cpp:431-433 | For a start bracket of positive length, the probes and the midpoint of every shrunk bracket lie strictly inside it |
| IsdCost.Clamp | src/isd.cpp:278-294 | The ratio passes exactly when the divisor is non-zero and the ratio lies in [0, 1 + epsilon]; the value is then min(ratio, 1), a normalised value. Otherwise the numerical-issue runtime_error is thrown |
| IsdCost.Distance1 | src/isd.cpp:278-294 | paramP / (codeRate + paramL) passes exactly when the divisor is non-zero and the ratio lies in [0, 1 + epsilon], and is then the ratio capped at 1; otherwise the numerical-issue runtime_error for that ratio |
| IsdCost.Distance2 | src/isd.cpp:302-318 | The same for (weight - paramP) / (1 - codeRate - paramL), with its own runtime_error |
| IsdCost.Surface | src/isd.cpp:296-300 | Throws the "not found" invalid_argument exactly when the capacity is -1; otherwise the surface is scale times capacity |
| IsdCost.SurfaceAsWritten | src/isd.cpp:296-300 | The check as written throws the "not found" invalid_argument exactly when the scaled capacity equals -1; otherwise the surface is that product |
| IsdCost.Surface1 | src/isd.cpp:278-300 | The first distance's runtime_error if it fails; otherwise the "surface1 is not found" invalid_argument exactly when the capacity at that distance is -1, and else (codeRate + paramL) times that capacity |
| IsdCost.Surface2 | src/isd.cpp:302-324 | The same for the second distance, with the scale 1 - codeRate - paramL and the "surface2" message |
| IsdCost.SurfaceCheckMissesNotFound | src/isd.cpp:320-324 | The check as written lets a not-found capacity (-1) through when the scale is 0.5 and returns -0.5, whereas the corrected check throws |
| IsdCost.SurfaceChecksAgree | src/isd.cpp:108-112 | With non-negative scale and capacity the check as written and the corrected check agree |
| IsdCost.BracketOrdered | src/isd.cpp:394-395 | The paramP bracket [max(0, w - (1 - cr - L)), min(w, cr + L)] is ordered for a normalised weight and 0 <= L <= 1 - cr |
| IsdCost.BracketDistancesValid | src/isd.cpp:302-318 | For paramP in its bracket and 0 <= L < 1 - cr with cr + L > 0, both distance ratios pass unclamped |
| IsdCost.NoNumericalIssueInBracket | src/isd.cpp:414-419 | Under those conditions the running time never throws the numerical-issue runtime_error |
| IsdCost.FailureIsNotNumerical | src/isd.cpp:396-397 | An exception raised anywhere in the paramP bracket under those conditions is not a runtime_error |
| IsdCost.CostAtFails | src/isd.cpp:396 | The function handed to the inner search fails exactly where the running time throws, with the same exception |
| IsdCost.FailsAtBound | src/isd.cpp:338 | When the level loop can exit, the merge condition fails at a computable depth bound |
| IsdCost.LevelLoopDiverges | src/isd.cpp:326-329 | When paramL <= 0 and the condition holds at depth 2, it holds at every depth >= 2, so the loop never exits |
| IsdCost.FirstFailure | src/isd.cpp:339-341 | The first depth from k on where the merge condition fails: it lies within the bound, and the condition holds at all depths before it |
| IsdCost.OptLevel | src/isd.cpp:331-343 | Depth 1 for Prange and Dumer. For Wagner, the depth before the first failing one; the condition holds from depth 2 up to it and fails just after it. Non-termination occurs exactly when the loop cannot exit. The depth is always >= 1 |
| IsdCost.SelectOptLevel | src/isd.cpp:336-342 | The imperative level loop computes OptLevel |
| IsdCost.BottomListSize | src/isd.cpp:345-353 | The bottom list size is the smaller of surface1 / 2^k (surface1 / (2^k + 1) under quantum) and paramL / k: at most both, and equal to one of them |
| IsdCost.ParamM | src/isd.cpp:355 | paramM is paramL at depth 1, and never below a bottom list size of at most paramL / k |
| IsdCost.BottomListsFit | src/isd.cpp:345-355 | k bottom lists of the chosen size fit in paramL |
| IsdCost.BDayDecCost | src/isd.cpp:88-122 | Succeeds exactly when surface1 does, with the same exception otherwise. The value is the smaller of L/k and surface1/2^k (surface1/(2^k + 1) under quantum): at most both and equal to one of them |
| IsdCost.IterCost | src/isd.cpp:173-207 | Succeeds exactly when surface1 does, with the same exception otherwise. The iteration cost is the smaller of paramL/k and surface1/2^k (surface1/(2^k + 1) under quantum): at most both and equal to one of them |
| IsdCost.BDayDecCostIsIterCost | src/isd.cpp:114-121 | Birthday-decoding cost and iteration cost are the same function of their arguments |
| IsdCost.SolsPerIter | src/isd.cpp:125-170 | Fails exactly when the iteration cost does; otherwise the value is (k+1) b - L, or (k+2) b - L under quantum, and at most b, or 2b under quantum, where b is the bottom-list size |
| IsdCost.SolsNum | src/isd.cpp:210-213 | Non-negative, at least surfaceW - (1 - codeRate), and zero exactly when surfaceW <= 1 - codeRate |
| IsdCost.PartSolProb | src/isd.cpp:216-243 | Fails exactly when surface2 does, with the same exception |
| IsdCost.AnySolProb | src/isd.cpp:246-273 | Fails exactly when PartSolProb does. Otherwise the value equals min(0, PartSolProb + SolsNum), lies between min(0, PartSolProb) and 0, and so is a log-probability |
| IsdCost.UniqueSolutionRegime | src/isd.cpp:272 | When surfaceW <= 1 - codeRate there are no extra solutions, and AnySolProb is min(0, PartSolProb) |
| IsdCost.RunTime | src/isd.cpp:276-364 | On success the depth is >= 1, and exactly 1 for Prange and Dumer; it is the depth OptLevel picks from surface1, and the time is at least the iteration cost. A runtime_error comes only from a distance clamp; non-termination only for Wagner with paramL <= 0 |
| IsdCost.RunTimeDecomposes | src/isd.cpp:356-363 | The running time is the iteration cost b minus (1/2 under quantum) min(0, AnySolProb + SolsPerIter) |
| IsdCost.OuterStepUnique | src/isd.cpp:413-434 | One outer step is determined by its bracket: the inner-search results at the probes and the next bracket are unique |
| IsdCost.OuterSearchUnique | src/isd.cpp:404-436 | The outer search over paramL has at most one result |
| IsdCost.InnerResultUnique | src/isd.cpp:394-397 | Every result of the inner search at a paramL is the same one |
| IsdCost.FailsAtUnique | src/isd.cpp:394-399 | The inner search at a paramL followed by the time at its result (`FailsAt`) raises at most one exception |
| IsdCost.SucceedsAtExcludesFailure | src/isd.cpp:394-399 | When the inner search at a paramL and the time at its result succeed (`SucceedsAt`), no exception is raised there |
| IsdCost.ProbesFailUnique | src/isd.cpp:415-425 | Comparing the probes of a bracket raises at most one exception |
| IsdCost.StepExcludesProbesFail | src/isd.cpp:413-434 | A bracket the outer loop narrows is not one whose probes raise |
| IsdCost.OuterRunStops | src/isd.cpp:413-434 | In an outer run that stops at its last bracket (`Stops`: converged, or its probes raise), no earlier bracket is converged or has probes that raise |
| IsdCost.OuterRunsEndTogether | src/isd.cpp:413-434 | Two outer runs that both stop end at the same bracket |
| IsdCost.FailsAtEndUnique | src/isd.cpp:413-442 | A final bracket of the outer loop raises at most one exception (`FailsAtEnd`: from its probes if unconverged, from the search and time at its midpoint if converged) |
| IsdCost.FailingRun | src/isd.cpp:404-443 | A failure of the two-parameter search has an outer run that stops at its last bracket |
| IsdCost.OuterFailsUnique | src/isd.cpp:404-443 | The two-parameter search raises at most one exception (`OuterFails`) |
| IsdCost.OuterSuccessExcludesFailure | src/isd.cpp:404-443 | A two-parameter search that succeeds raises no exception |
| IsdCost.OuterFailsOfRun | src/isd.cpp:404-443 | An outer run whose last bracket raises e makes the two-parameter search raise e |
| IsdCost.SearchFailsUnique | src/isd.cpp:500-524 | The search the algorithm calls for (`SearchFails`) raises at most one exception |
| IsdCost.SearchSuccessExcludesFailure | src/isd.cpp:500-524 | A search that succeeds (`SearchSucceeds`) raises no exception |
| IsdCost.SearchSucceedsUnique | src/isd.cpp:500-524 | A search succeeds with at most one pair (paramL, paramP) |
| Isd.ParamCheck | src/isd.cpp:21-27 | Passes exactly the values in [0, 1]; otherwise throws the "Normalized value" invalid_argument |
| Isd.AlgCheck | src/isd.cpp:30-36 | Passes exactly the three algorithms; otherwise throws the "not offered" invalid_argument |
| Isd.AlphabetSizeCheck | src/isd.cpp:39-44 | Passes exactly sizes >= 2; otherwise throws invalid_argument |
| Isd.Construct | src/isd.cpp:47-69 | Succeeds exactly when metric, code rate, weight and algorithm pass and the capacity is found. Each failure throws the exception of the first failing check, in source order. A success stores the arguments, keeps the space and surfaceW consistent, and is validated |
| Isd.SettersAndCache | src/isd.h:39-45 | A new code rate keeps the cached space and surfaceW consistent; a new weight (whose capacity differs), metric or alphabet size leaves them stale |
| Isd.SolsNumIgnoresWeight | src/isd.cpp:212 | SolsNum reads the cached surfaceW, so changing the weight does not change it |
| Isd.InformationSetDecoding.Create | src/isd.h:21-22 | The constructor with its defaults agrees with Construct: the same success, the same exception, the same fields; a new object is valid |
| Isd.InformationSetDecoding.Copy | src/isd.h:23-26 | The copy holds all seven fields of the original and is valid when it is |
| Isd.InformationSetDecoding.Assign | src/isd.cpp:71-85 | After assignment, including self-assignment, the object holds the source's old fields, and validity is carried over |
| Isd.InformationSetDecoding.SetAlphaSize | src/isd.h:29 | Stores any size; nothing else changes; validity is kept |
| Isd.InformationSetDecoding.SetCodeRate | src/isd.h:31-37 | Stores a normalised code rate or throws with nothing changed; validity is kept |
| Isd.InformationSetDecoding.SetWeight | src/isd.h:39-45 | Stores a normalised weight or throws with nothing changed; surfaceW is not recomputed |
| Isd.InformationSetDecoding.SetMetric | src/isd.h:47-53 | Stores an offered metric or throws the "Invalid metric" invalid_argument with nothing changed; the space is not rebuilt |
| Isd.InformationSetDecoding.SetAlg | src/isd.h:55-61 | Stores an offered algorithm or throws with nothing changed |
| Isd.InformationSetDecoding.RunTime | src/isd.h:70 | The imperative running time returns exactly IsdCost.RunTime's time and depth, or its exception |
| Isd.InformationSetDecoding.SearchP | src/isd.cpp:394-397 | The result is what the golden-section search of the cost at paramL = l over [PLow, PHigh] returns (`InnerSearch`): a paramP inside that bracket, or an exception that RunTime raises at some paramP of it |
| Isd.InformationSetDecoding.SearchedCostAt | src/isd.cpp:436-442 | For the final paramL, paramP is the inner search's result and lies in its bracket. RunTime succeeds there, and the result is log2(q) times that time, with the matching depth. Otherwise the inner search failed with the exception, or RunTime threw it at the paramP the search found |
| Isd.InformationSetDecoding.GoldenSectionSearchP | src/isd.cpp:392-400 | The Prange search. On success, paramP is the inner search's result at paramL = 0 and lies in its bracket; the time succeeds there, and the result is log2(q) times it. On failure, the inner search failed with the exception, or the time at its result threw it. Together these say the search at paramL = 0 succeeds there (`SucceedsAt`) or raises the exception (`FailsAt`). For 0 < cr < 1 with a normalised weight the exception is never the numerical-issue runtime_error |
| Isd.InformationSetDecoding.CompareProbes | src/isd.cpp:415-425 | optC and optD are the inner searches' results at c and d, and the result is true exactly when the time at c is below the time at d. An exception comes, in this order, from the search at c, the search at d, the time at c or the time at d (`ProbesFail`) |
| Isd.InformationSetDecoding.NarrowBracket | src/isd.cpp:413-434 | One outer step (`OuterStep`): optC and optD are the inner searches' results at the probes, and the bracket keeps [a, d] when the time at c is lower and [c, b] otherwise. The new bracket stays inside [0, 1 - cr] and is shorter by a factor gr. An exception is the one `ProbesFail` describes, raised at some paramL of [0, 1 - cr] |
| Isd.InformationSetDecoding.ProbeFailure | src/isd.cpp:410-419 | An exception at a probe was raised at a paramL of [0, 1 - cr]. For 0 <= cr < 1 and a normalised weight it is not a runtime_error |
| Isd.InformationSetDecoding.GoldenSectionSearchLP | src/isd.cpp:404-443 | The two-parameter search terminates. Its ghost trace is an outer run from [0, 1 - cr] (`OuterRun`): every bracket but the last is unconverged and followed by its outer step. On success the last bracket has converged, and paramL is its midpoint, the outer search's result (`OuterSearch`), in [0, 1 - cr]. paramP is the inner search's result there, and the result is log2(q) times the time. On failure the exception comes from the probes of the last, unconverged bracket, or from the search or the time at the midpoint, so the two-parameter search raises it (`OuterFails`). For 0 <= cr < 1 with a normalised weight it is never the numerical-issue runtime_error |
| Isd.InformationSetDecoding.NarrowToTolerance | src/isd.cpp:406-434 | The outer loop terminates with an outer run from [0, 1 - cr] whose last bracket lies inside [0, 1 - cr], shrunk by gr per step. It succeeds exactly when that bracket has converged and then returns it. Otherwise the exception is the one `ProbesFail` describes at its probes, raised at a paramL of [0, 1 - cr], and never the numerical-issue one for 0 <= cr < 1 with a normalised weight |
| Isd.InformationSetDecoding.SearchAtMidpoint | src/isd.cpp:436-442 | paramL is the midpoint of the final bracket and lies in [0, 1 - codeRate]. On success paramP is the inner search's result there, and the scaled time at (paramL, paramP) is returned. Otherwise the exception comes from that search or from the time at its result. It is never the numerical-issue one for 0 <= codeRate < 1 and a normalised weight |
| Isd.MidpointInside | src/isd.cpp:464 | The midpoint of a sub-bracket lies in the bracket |
| Isd.AvgSolsNum | src/isd.cpp:453-456 | The average number of solutions is positive exactly when the capacity at the weight exceeds 1 - codeRate, zero exactly when it equals it, and never above the capacity for codeRate <= 1 |
| Isd.SolsNumIsClippedAverage | src/isd.cpp:453-456 | The number of solutions of a consistent instance is the average number of solutions at its weight, cut off at 0 |
| Isd.SplitPoint | src/isd.cpp:471 | Average weight / peak weight lies strictly between 0 and 1 |
| Isd.HighestCodeRate | src/isd.cpp:462-464 | The highest code rate is in [0, 1] |
| Isd.UpperRoot | src/isd.cpp:459-474 | An unknown metric throws. A code rate above the highest one gives 1. Otherwise the root lies in [split point, 1] |
| Isd.LowerRoot | src/isd.cpp:477-483 | An unknown metric throws; otherwise the root lies in [0, split point] |
| Isd.Root | src/isd.cpp:490-497 | Hamming with q != 3 takes the lower root, on or below the split point; everything else takes the upper root, on or above it. Either root is in [0, 1] |
| Isd.RunTime | src/isd.cpp:486-531 | Details follow this table |
| Isd.OnlyFailure | src/isd.cpp:500-524 | Every exception the search raises is the given one |
| Isd.NoFailure | src/isd.cpp:500-524 | A search that succeeds raises no exception at all |

`Isd.RunTime` (src/isd.cpp:486-531) states:

- Root and constructor exceptions propagate, and the weight is root - epsilon.
- An unknown algorithm is refused.
- A runtime_error is caught and gives -1. This happens only when codeRate is 1, or for Prange with codeRate 0.
- Otherwise the result is minus log2(q) times the running time at the returned (paramL, paramP), both of them in their brackets. For Prange, paramL = 0 and paramP is the inner search's result there. For Dumer/Stern and Wagner, paramL is the outer search's result and paramP the inner search's result at it. Either way the search succeeds there (`SearchSucceeds`).
- Once the root and the constructor succeed, the runtime_error branch is taken exactly when the search raises a runtime_error (`SearchFails`). Any other exception of the result is the one the search raises, and it is not a runtime_error.
- Since the search's outcome is unique (IsdCost.SearchFailsUnique, IsdCost.SearchSuccessExcludesFailure, IsdCost.SearchSucceedsUnique), these clauses fix the driver's result.

## Left out

- Floating-point behaviour is not modelled: NaN, infinities, rounding, and the division by zero in the distance ratios. A zero divisor is modelled as the numerical-issue runtime_error, which is what IEEE arithmetic leads to there.
- Misc.GoldenSectionSearch: `abs` is read as the absolute value of a `double`. In src/misc.cpp and src/isd.cpp the unqualified `abs` may resolve to the `int` overload, depending on the standard library; the Linux copy calls `std::abs`. The model follows the Linux copy.
- The capacity solver (`SphereSurfArea`, `LinConstrs`, `ExpConicConstrs`, the MOSEK model) is not modelled. It is the oracle `cap`; nothing is assumed of it beyond -1 meaning "not found".
- Boost's `bisect` and `TerminationCondition` are not modelled. `bisect` is an oracle that returns a sub-bracket or an exception; `TerminationCondition` is not modelled.
- `log2` is an oracle, applied to the alphabet size converted to `int`, as in the source.
- Console output is not modelled: `std::cout` of the failing ratio and of the caught message.
- The command-line front end (main.cpp) is not part of this model.
- The globals `tol`, `epsilon` and `quantum` of misc.h are not modelled as globals: `tol` and `epsilon` are constants (1e-5), and `quantum` is a parameter.
- Isd.RunTime: where the source throws before writing an out-parameter, the model returns 0 instead of the caller's value. That is weight when the root finding throws, and paramL and paramP when the constructor throws.
- Isd.InformationSetDecoding.GoldenSectionSearchP: when the inner search throws, paramP is 0 instead of the caller's value. When the final time throws, paramP is the inner search's result, as the source assigns it first (src/isd.cpp:397-399).
- Isd.InformationSetDecoding.GoldenSectionSearchLP: when the outer loop throws, paramL and paramP are 0 instead of the caller's values. When the final search or time throws, paramL is the midpoint (src/isd.cpp:437). paramP is 0 if the final inner search throws, and that search's result if the final time throws (src/isd.cpp:439-442).
- Isd.InformationSetDecoding.RunTime: on an exception optLevelNum is returned as 1. In the source the by-reference depth keeps the value stored by the last evaluation that reached it (src/isd.cpp:333-342), through the lambdas at src/isd.cpp:396, 417, 422 and 438. The same placeholder is returned by SearchedCostAt, SearchAtMidpoint, GoldenSectionSearchP, GoldenSectionSearchLP and Isd.RunTime. On success the depth is the final evaluation's, as in the source.
- Isd.RunTime: requires q >= 2 (as do Isd.UpperRoot, Isd.LowerRoot and Isd.Root). The source builds a `VectorSpace` from any size, and for q < 2 the roots divide by zero in floating point.
- IsdCost.BDayDecCost: the depth `optLevelNum` is a `double` parameter in this function and in `SolsPerIter` and `IterCost`. None of the three, and neither `PartSolProb` nor `AnySolProb`, has a caller in the source: they are only declared at src/isd.h:64-69. The model takes the depth as a natural number >= 1, the range `RunTime` chooses its depth from.
- Misc.GoldenSectionSearch: the order in which f(c) and f(d) are evaluated in `f(c) < f(d)` is unspecified in C++ (src/misc.cpp:39, Linux/src/misc.cpp:35, src/isd.cpp:375). The model evaluates f(c) first; only which exception is reported when both fail depends on this order.
- Space.Weight: requires a positive alphabet size, and so do Space.MaxWeight and Space.AvgVectorWeight. src/space.h:18 and 44 accept a size of 0, and `element %= alphabetSize` (src/space.cpp:53) is then undefined behaviour, which is not modelled.
- Space.MaxWeight: see Space.Weight.
- Space.AvgVectorWeight: see Space.Weight.
- IsdCost.OptLevel: the depth is unbounded. `pow(2, k)` overflowing to infinity, and the wrap-around of the `unsigned int` depth, are not modelled.
- Isd.InformationSetDecoding.CompareProbes: the order in which the two running times of the comparison are evaluated is unspecified in C++. The model evaluates c first; only which exception is reported depends on this order.
- Isd.InformationSetDecoding.RunTime: the depth written through the by-reference lambda capture is the one of the last running-time evaluation. The model returns that depth from the final evaluation only.
- The `int alphabetSize` field of `InformationSetDecoding` is kept as the `unsigned int` every constructor argument and getter uses.
- The getters carry no contract of their own: each returns its field.
- IsdCost.Surface1: uses the corrected surface check of the finding below. As written, the source (src/isd.cpp:296-300) throws only when the scaled surface is -1; when the capacity is -1 and codeRate + paramL is not 1, it goes on with the negative surface -(codeRate + paramL), where the model throws the "not found" invalid_argument. The members below depend on this check and differ from the source in the same way.
- IsdCost.Surface2: the same at src/isd.cpp:320-324, with the scale 1 - codeRate - paramL.
- IsdCost.BDayDecCost: the same for surface1 at src/isd.cpp:108-112.
- IsdCost.SolsPerIter: the same for surface1 at src/isd.cpp:145-149.
- IsdCost.IterCost: the same for surface1 at src/isd.cpp:193-197.
- IsdCost.PartSolProb: the same for surface2 at src/isd.cpp:236-240.
- IsdCost.AnySolProb: the same for surface2 at src/isd.cpp:266-270.
- IsdCost.RunTime: the same for both surfaces at src/isd.cpp:296-300 and 320-324, and so Isd.InformationSetDecoding.RunTime, the searches Isd.InformationSetDecoding.GoldenSectionSearchP and Isd.InformationSetDecoding.GoldenSectionSearchLP (with SearchP, CompareProbes, NarrowBracket, NarrowToTolerance, SearchedCostAt and SearchAtMidpoint), and the driver Isd.RunTime.
- Isd.InformationSetDecoding.RunTime: see IsdCost.RunTime.
- Isd.InformationSetDecoding.GoldenSectionSearchP: see IsdCost.RunTime.
- Isd.InformationSetDecoding.GoldenSectionSearchLP: see IsdCost.RunTime.
- Isd.RunTime: see IsdCost.RunTime.
- The exception message of the throwing `MetricCheck` is not given with its declaration in src/space.h. The model uses the metric message of the commented-out line in src/misc.cpp.

## Findings

| source | as written | input that shows it | evidently intended | confidence | as-written member | corrected member |
|---|---|---|---|---|---|---|
| src/isd.cpp:296-300 | The "surface not found" test compares the scaled surface `(codeRate + paramL) * SphereSurfArea(...)` with -1, and the same applies to surface2 at lines 320-324 and in the other five cost functions. A capacity of -1 passes whenever the scale is not 1 | scale 0.5 (codeRate + paramL = 0.5), capacity -1: the check lets the surface -0.5 through | Throw when the capacity itself is -1 | not executed | IsdCost.SurfaceCheckMissesNotFound | IsdCost.Surface |
