/**
 * One render of the page's processing: the parsed input either stops the
 * page with an error, or is sent through the channel and summarised by the
 * two dashboard figures (app.py, "Signal Processing", "Add noise" and
 * "Stats Dashboard").
 *
 * `Run` takes the outcome of parsing, so that `Run(Parse(input), ...)` is
 * the page as written and `Run(ParseBinary(input), ...)` the page with the
 * stricter parse its error message describes.
 */
module App {

  import opened Signal
  import opened Channel
  import opened Stats

  /** What the page shows: nothing past the error, or both signals and both figures. */
  datatype Outcome =
    | Stopped
    | Shown(signal: seq<int>, corrupted: seq<int>, errorRate: ErrorRate, survivors: Survivors)

  /**
   * The draws are the ones NumPy generates after parsing, one per symbol, so
   * a caller supplies exactly as many as the parsed signal is long.
   */
  function Run(parsed: ParseResult, p: real, draws: seq<real>): (o: Outcome)
    requires parsed.Parsed? ==> |draws| == |parsed.signal|
    ensures o.Stopped? <==> parsed.Rejected?
    ensures o.Shown? ==> o.signal == parsed.signal && o.corrupted == Corrupt(parsed.signal, draws, p)
    ensures o.Shown? ==> o.errorRate == ErrorRate(CountTrue(Mask(draws, p)), |o.signal|)
    ensures o.Shown? ==> o.survivors == Survivors(CountOnes(o.corrupted), CountOnes(o.signal))
    ensures o.Shown? ==> o.survivors.surviving <= |o.signal| && o.survivors.original <= |o.signal|
  {
    match parsed
    case Rejected => Stopped
    case Parsed(signal) =>
      var corrupted := Corrupt(signal, draws, p);
      ErrorRateOfCorrupt(signal, draws, p);
      Shown(signal, corrupted, ErrorRateOf(signal, corrupted), SurvivorsOf(signal, corrupted))
  }

  /**
   * With the stricter parse, the page stops exactly on non-binary input, and
   * otherwise both signals it shows are spike trains of the input's length.
   */
  lemma RunBinaryInput(input: string, p: real, draws: seq<real>)
    requires |draws| == |input|
    ensures Run(ParseBinary(input), p, draws).Stopped? <==> !IsBinaryString(input)
    ensures Run(ParseBinary(input), p, draws).Shown? ==>
      var o := Run(ParseBinary(input), p, draws);
      |o.signal| == |input| && IsBinary(o.signal) && IsBinary(o.corrupted)
  {
    var r := ParseBinary(input);
    if r.Parsed? {
      FlipPreservesBinary(r.signal, Mask(draws, p));
    }
  }

  /**
   * As written, the input "2" is accepted and, at full noise, reaches the
   * dashboard as the symbol -1, which is neither a spike nor a silence.
   */
  lemma RunAsWrittenEmitsNonBinary(draws: seq<real>)
    requires |draws| == 1 && InUnitInterval(draws)
    ensures Run(Parse("2"), 1.0, draws) == Shown([2], [-1], ErrorRate(1, 1), Survivors(0, 0))
  {
    var s: seq<int>, c: seq<int> := [2], [-1];
    assert Parse("2") == Parsed(s);
    assert Corrupt(s, draws, 1.0) == c;
    assert s[1..] == [] && c[1..] == [];
    assert Mismatches(s, c) == 1;
    assert CountOnes(s) == 0 && CountOnes(c) == 0;
  }

  /** With the stricter parse, the same input stops the page instead. */
  lemma RunCorrectedStopsNonBinary(p: real, draws: seq<real>)
    requires |draws| == 1
    ensures Run(ParseBinary("2"), p, draws) == Stopped
  {
    assert !IsBinaryChar("2"[0]);
  }

  /** "1010" at noise level 0: nothing changes, error rate 0/4, survivors 2/2. */
  lemma ScenarioWithoutNoise(draws: seq<real>)
    requires |draws| == 4 && InUnitInterval(draws)
    ensures Run(Parse("1010"), 0.0, draws)
         == Shown([1, 0, 1, 0], [1, 0, 1, 0], ErrorRate(0, 4), Survivors(2, 2))
  {
    var s: seq<int> := [1, 0, 1, 0];
    var c := Corrupt(s, draws, 0.0);
    assert Parse("1010") == Parsed(s) by { ParsedExample(); }
    assert c == s by { CorruptWithoutNoise(s, draws); }
    assert CountOnes(s) == 2 by {
      assert s[1..] == [0, 1, 0] && s[2..] == [1, 0] && s[3..] == [0];
    }
    assert ErrorRateOf(s, c) == ErrorRate(0, 4) && SurvivorsOf(s, c) == Survivors(2, 2) by {
      StatsWithoutNoise(s, draws);
    }
  }

  /** "1010" at noise level 1: complemented, error rate 4/4, survivors still 2/2. */
  lemma ScenarioWithFullNoise(draws: seq<real>)
    requires |draws| == 4 && InUnitInterval(draws)
    ensures Run(Parse("1010"), 1.0, draws)
         == Shown([1, 0, 1, 0], [0, 1, 0, 1], ErrorRate(4, 4), Survivors(2, 2))
  {
    var s: seq<int> := [1, 0, 1, 0];
    var c := Corrupt(s, draws, 1.0);
    assert Parse("1010") == Parsed(s) by { ParsedExample(); }
    assert c == [0, 1, 0, 1] by { CorruptWithFullNoise(s, draws); }
    assert ErrorRateOf(s, c) == ErrorRate(4, 4) by { StatsWithFullNoise(s, draws); }
    assert SurvivorsOf(s, c) == Survivors(2, 2) by { SurvivorsAreNotAnOverlap(draws); }
  }

  /** "0000" at noise level 0.5 with draws 0.1, 0.9, 0.1, 0.9: positions 0 and 2 flip. */
  lemma ScenarioHalfNoise()
    ensures Run(Parse("0000"), 0.5, [0.1, 0.9, 0.1, 0.9])
         == Shown([0, 0, 0, 0], [1, 0, 1, 0], ErrorRate(2, 4), Survivors(2, 0))
  {
    var s: seq<int>, c: seq<int> := [0, 0, 0, 0], [1, 0, 1, 0];
    var d: seq<real> := [0.1, 0.9, 0.1, 0.9];
    assert Parse("0000") == Parsed(s);
    assert Corrupt(s, d, 0.5) == c by { CorruptHalfNoiseExample(); }
    assert CountTrue(Mask(d, 0.5)) == 2 by {
      var m := Mask(d, 0.5);
      assert m == [true, false, true, false];
      assert m[1..] == [false, true, false] && m[2..] == [true, false] && m[3..] == [false];
    }
    assert CountOnes(s) == 0 by {
      assert s[1..] == [0, 0, 0] && s[2..] == [0, 0] && s[3..] == [0];
    }
    assert CountOnes(c) == 2 by {
      assert c[1..] == [0, 1, 0] && c[2..] == [1, 0] && c[3..] == [0];
    }
  }

  /** The text "1010" parses to the spike train 1, 0, 1, 0. */
  lemma ParsedExample()
    ensures Parse("1010") == Parsed([1, 0, 1, 0])
  {
  }
}
