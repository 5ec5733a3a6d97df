/**
 * The two figures of the statistics dashboard (app.py, "Stats Dashboard"):
 * the error rate `np.mean(signal != corrupted_signal)` and the surviving
 * spikes `np.sum(corrupted_signal == 1)` / `np.sum(signal == 1)`.
 *
 * Both are kept as pairs of natural numbers; the percentage and the "x/y"
 * text are how the page renders them.
 */
module Stats {

  import opened Signal
  import opened Channel

  /** `np.sum(s == 1)`: the number of spikes. */
  function CountOnes(s: seq<int>): (n: nat)
    ensures n <= |s|
  {
    if s == [] then 0 else (if s[0] == 1 then 1 else 0) + CountOnes(s[1..])
  }

  /** The number of true entries of a mask: how many draws fell below the noise level. */
  function CountTrue(m: seq<bool>): (n: nat)
    ensures n <= |m|
  {
    if m == [] then 0 else (if m[0] then 1 else 0) + CountTrue(m[1..])
  }

  /** `CountTrue` is the multiplicity of `true` in the mask. */
  lemma {:induction false} CountTrueIsMultiplicity(m: seq<bool>)
    ensures CountTrue(m) == multiset(m)[true]
  {
    if m != [] {
      CountTrueIsMultiplicity(m[1..]);
      assert m == [m[0]] + m[1..];
    }
  }

  /** `np.sum(a != b)`: the Hamming distance between two equally long signals. */
  function Mismatches(a: seq<int>, b: seq<int>): (n: nat)
    requires |a| == |b|
    ensures n <= |a|
    ensures n == 0 <==> a == b
  {
    if a == [] then 0
    else (if a[0] != b[0] then 1 else 0) + Mismatches(a[1..], b[1..])
  }

  /** Positions where both signals carry a spike: what a true survivor count would count. */
  function Overlap(a: seq<int>, b: seq<int>): (n: nat)
    requires |a| == |b|
    ensures n <= CountOnes(a) && n <= CountOnes(b)
  {
    if a == [] then 0
    else (if a[0] == 1 && b[0] == 1 then 1 else 0) + Overlap(a[1..], b[1..])
  }

  /** The error rate as the fraction mismatches / total. */
  datatype ErrorRate = ErrorRate(mismatches: nat, total: nat)

  /** The surviving-spikes figure "surviving/original". */
  datatype Survivors = Survivors(surviving: nat, original: nat)

  /** The error rate of a transmission: differing positions over the length. */
  function ErrorRateOf(signal: seq<int>, corrupted: seq<int>): (r: ErrorRate)
    requires |signal| == |corrupted|
    ensures r.total == |signal| && r.mismatches <= r.total
    ensures r.mismatches == 0 <==> corrupted == signal
  {
    ErrorRate(Mismatches(signal, corrupted), |signal|)
  }

  /**
   * The surviving-spikes figure: the number of 1s in the corrupted signal set
   * against the number of 1s in the original. Both are bounded by the length.
   */
  function SurvivorsOf(signal: seq<int>, corrupted: seq<int>): (r: Survivors)
    requires |signal| == |corrupted|
    ensures r.surviving <= |signal| && r.original <= |signal|
  {
    Survivors(CountOnes(corrupted), CountOnes(signal))
  }

  /** Survivors are the 1s of the corrupted signal, spikes the 1s of the original. */
  lemma SurvivorsAreMultiplicities(signal: seq<int>, corrupted: seq<int>)
    requires |signal| == |corrupted|
    ensures SurvivorsOf(signal, corrupted) == Survivors(multiset(corrupted)[1], multiset(signal)[1])
  {
    CountOnesIsMultiplicity(signal);
    CountOnesIsMultiplicity(corrupted);
  }

  /** `CountOnes` is the multiplicity of 1 in the signal. */
  lemma {:induction false} CountOnesIsMultiplicity(s: seq<int>)
    ensures CountOnes(s) == multiset(s)[1]
  {
    if s != [] {
      CountOnesIsMultiplicity(s[1..]);
      assert s == [s[0]] + s[1..];
    }
  }

  /** Every differing position is a masked one and vice versa: the Hamming
      distance the channel introduces is the number of flips it made. */
  lemma {:induction false} FlipMismatches(signal: seq<int>, mask: seq<bool>)
    requires |mask| == |signal|
    ensures Mismatches(signal, Flip(signal, mask)) == CountTrue(mask)
  {
    if signal != [] {
      var f := Flip(signal, mask);
      assert f[1..] == Flip(signal[1..], mask[1..]);
      assert (f[0] != signal[0]) == mask[0];
      FlipMismatches(signal[1..], mask[1..]);
      assert Mismatches(signal, f) == (if mask[0] then 1 else 0) + Mismatches(signal[1..], f[1..]);
    }
  }

  /** On a spike train, the complement has the silences of the original as spikes. */
  lemma {:induction false} ComplementCountOnes(signal: seq<int>)
    requires IsBinary(signal)
    ensures CountOnes(Complement(signal)) == |signal| - CountOnes(signal)
  {
    if signal != [] {
      assert IsBinary(signal[1..]) by {
        forall i | 0 <= i < |signal| - 1 ensures signal[1..][i] == 0 || signal[1..][i] == 1 {
          assert signal[1..][i] == signal[i + 1];
        }
      }
      ComplementCountOnes(signal[1..]);
    }
  }

  /** The error rate counts exactly the draws that fell below the noise level. */
  lemma ErrorRateOfCorrupt(signal: seq<int>, draws: seq<real>, p: real)
    requires |draws| == |signal|
    ensures ErrorRateOf(signal, Corrupt(signal, draws, p)) == ErrorRate(CountTrue(Mask(draws, p)), |signal|)
  {
    FlipMismatches(signal, Mask(draws, p));
  }

  /** Noise level 0: error rate 0, and every spike survives. */
  lemma StatsWithoutNoise(signal: seq<int>, draws: seq<real>)
    requires |draws| == |signal| && InUnitInterval(draws)
    ensures ErrorRateOf(signal, Corrupt(signal, draws, 0.0)) == ErrorRate(0, |signal|)
    ensures SurvivorsOf(signal, Corrupt(signal, draws, 0.0)) == Survivors(CountOnes(signal), CountOnes(signal))
  {
    CorruptWithoutNoise(signal, draws);
  }

  /** Noise level 1 on a spike train: every position differs, and the
      "surviving" spikes are exactly the original silences. */
  lemma StatsWithFullNoise(signal: seq<int>, draws: seq<real>)
    requires |draws| == |signal| && InUnitInterval(draws) && IsBinary(signal)
    ensures ErrorRateOf(signal, Corrupt(signal, draws, 1.0)) == ErrorRate(|signal|, |signal|)
    ensures SurvivorsOf(signal, Corrupt(signal, draws, 1.0))
         == Survivors(|signal| - CountOnes(signal), CountOnes(signal))
  {
    CorruptWithFullNoise(signal, draws);
    ComplementCountOnes(signal);
    var m := Mask(draws, 1.0);
    FlipMismatches(signal, m);
    CountTrueAll(m);
  }

  /** A mask with no false entry counts its whole length. */
  lemma {:induction false} CountTrueAll(m: seq<bool>)
    requires forall i :: 0 <= i < |m| ==> m[i]
    ensures CountTrue(m) == |m|
  {
    if m != [] {
      CountTrueAll(m[1..]);
    }
  }

  /** No position is a spike in both a signal and its complement. */
  lemma {:induction false} OverlapWithComplement(signal: seq<int>)
    ensures Overlap(signal, Complement(signal)) == 0
  {
    if signal != [] {
      var c := Complement(signal);
      assert c[1..] == Complement(signal[1..]);
      OverlapWithComplement(signal[1..]);
    }
  }

  /**
   * With full noise on "1010" the figure reads 2/2, although no original
   * spike is still a spike: survivors are corrupted spikes, not an overlap.
   */
  lemma SurvivorsAreNotAnOverlap(draws: seq<real>)
    requires |draws| == 4 && InUnitInterval(draws)
    ensures SurvivorsOf([1, 0, 1, 0], Corrupt([1, 0, 1, 0], draws, 1.0)) == Survivors(2, 2)
    ensures Overlap([1, 0, 1, 0], Corrupt([1, 0, 1, 0], draws, 1.0)) == 0
  {
    var s: seq<int> := [1, 0, 1, 0];
    assert s[1..] == [0, 1, 0] && s[2..] == [1, 0] && s[3..] == [0];
    assert CountOnes(s) == 2;
    StatsWithFullNoise(s, draws);
    CorruptWithFullNoise(s, draws);
    OverlapWithComplement(s);
  }
}
