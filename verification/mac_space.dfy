/** The validating `VectorSpace` of the macOS build (Mac/src/space.h): the
    constructor and both setters check their argument, so every object keeps
    an alphabet of at least two symbols and an offered metric. */
module MacSpace {
  import opened Errors
  import opened Machine
  import Misc
  import Space

  const AlphabetSizeMessage := "Alphabet size needs to be greater or equal to 2."

  /** The alphabet-size check as this class calls it: the `unsigned int` is
      passed to `AlphabetSizeCheck(int)`, so sizes from 2^31 on arrive
      negative and are refused. */
  predicate SizeAccepted(size: uint32): (ok: bool)
    ensures ok <==> 2 <= size < 0x8000_0000
  {
    Misc.AlphabetSizeCheck(AsSigned(size))
  }

  class VectorSpace {
    var metric: string
    var alphabetSize: uint32

    function Value(): Space.SpaceValue
      reads this
    {
      Space.SpaceValue(metric, alphabetSize)
    }

    /** The class invariant the checks maintain. */
    predicate Valid()
      reads this
    {
      SizeAccepted(alphabetSize) && Misc.MetricCheck(metric)
    }

    /** The default constructor: "hamming" over two symbols. */
    constructor Default()
      ensures Valid() && Value() == Space.SpaceValue("hamming", 2)
    {
      metric, alphabetSize := "hamming", 2;
    }

    /** The constructor once both of its checks have passed. */
    constructor Init(m: string, size: uint32)
      requires SizeAccepted(size) && Misc.MetricCheck(m)
      ensures Valid() && Value() == Space.SpaceValue(m, size)
    {
      metric, alphabetSize := m, size;
    }

    /** The constructor: the alphabet size is checked first, then the
        metric; either failure throws invalid_argument. */
    static method Create(m: string := "hamming", size: uint32 := 2) returns (r: Result<VectorSpace>)
      ensures r.Ok? <==> SizeAccepted(size) && Misc.MetricCheck(m)
      ensures r.Err? && !SizeAccepted(size) ==> r.error == InvalidArgument(AlphabetSizeMessage)
      ensures r.Err? && SizeAccepted(size) ==> r.error == InvalidArgument(Space.MetricNotOfferedMessage)
      ensures r.Ok? ==> fresh(r.value) && r.value.Valid() && r.value.Value() == Space.SpaceValue(m, size)
    {
      if !SizeAccepted(size) {
        return Err(InvalidArgument(AlphabetSizeMessage));
      }
      if !Misc.MetricCheck(m) {
        return Err(InvalidArgument(Space.MetricNotOfferedMessage));
      }
      var vs := new VectorSpace.Init(m, size);
      r := Ok(vs);
    }

    /** The copy constructor. */
    constructor Copy(vs: VectorSpace)
      requires vs.Valid()
      ensures Valid() && Value() == vs.Value()
    {
      metric, alphabetSize := vs.metric, vs.alphabetSize;
    }

    /** `operator=`: both fields are copied; self-assignment changes
        nothing. */
    method Assign(vs: VectorSpace)
      requires Valid() && vs.Valid()
      modifies this
      ensures Valid() && Value() == old(vs.Value())
    {
      if this == vs {
        return;
      }
      metric := vs.metric;
      alphabetSize := vs.alphabetSize;
    }

    function GetMetric(): string
      reads this
    {
      metric
    }

    function GetAlphabetSize(): uint32
      reads this
    {
      alphabetSize
    }

    /** Stores an offered metric; any other throws and changes nothing. */
    method SetMetric(m: string) returns (o: Outcome)
      requires Valid()
      modifies this
      ensures Valid()
      ensures o.Pass? <==> Misc.MetricCheck(m)
      ensures o.Pass? ==> Value() == old(Value()).(metric := m)
      ensures o.Fail? ==> o.error == InvalidArgument(Space.MetricNotOfferedMessage) && Value() == old(Value())
    {
      if Misc.MetricCheck(m) {
        metric := m;
        o := Pass;
      } else {
        o := Fail(InvalidArgument(Space.MetricNotOfferedMessage));
      }
    }

    /** Stores an accepted alphabet size; any other throws and changes
        nothing. */
    method SetAlphabetSize(size: uint32) returns (o: Outcome)
      requires Valid()
      modifies this
      ensures Valid()
      ensures o.Pass? <==> SizeAccepted(size)
      ensures o.Pass? ==> Value() == old(Value()).(alphabetSize := size)
      ensures o.Fail? ==> o.error == InvalidArgument(AlphabetSizeMessage) && Value() == old(Value())
    {
      if SizeAccepted(size) {
        alphabetSize := size;
        o := Pass;
      } else {
        o := Fail(InvalidArgument(AlphabetSizeMessage));
      }
    }
  }
}
