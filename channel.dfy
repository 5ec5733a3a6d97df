/**
 * The noisy channel (app.py, "Add noise"): one uniform draw per position, a
 * mask that is true where the draw falls below the noise level, and the
 * element-wise `np.where(mask, 1 - signal, signal)`.
 *
 * The random draws are a parameter: the source takes them from NumPy's
 * global generator, `np.random.random(len(signal))`, one per symbol.
 */
module Channel {

  import opened Signal

  /** Every draw lies in [0, 1), as NumPy's uniform generator promises. */
  predicate InUnitInterval(draws: seq<real>) {
    forall i :: 0 <= i < |draws| ==> 0.0 <= draws[i] < 1.0
  }

  /** `draws < p`, position by position. */
  function Mask(draws: seq<real>, p: real): (m: seq<bool>)
    ensures |m| == |draws|
    ensures forall i :: 0 <= i < |draws| ==> m[i] == (draws[i] < p)
  {
    if draws == [] then [] else [draws[0] < p] + Mask(draws[1..], p)
  }

  /** `np.where(mask, 1 - signal, signal)`: invert exactly the masked symbols. */
  function Flip(signal: seq<int>, mask: seq<bool>): (r: seq<int>)
    requires |mask| == |signal|
    ensures |r| == |signal|
    ensures forall i :: 0 <= i < |signal| ==> r[i] == if mask[i] then 1 - signal[i] else signal[i]
  {
    if signal == [] then []
    else [if mask[0] then 1 - signal[0] else signal[0]] + Flip(signal[1..], mask[1..])
  }

  /** The symbol-wise complement `1 - x`. */
  function Complement(signal: seq<int>): (r: seq<int>)
    ensures |r| == |signal|
    ensures forall i :: 0 <= i < |signal| ==> r[i] == 1 - signal[i]
  {
    if signal == [] then [] else [1 - signal[0]] + Complement(signal[1..])
  }

  /**
   * The corrupted signal: position i is inverted exactly when draw i is below
   * the noise level, and depends on nothing but signal[i], draws[i] and p.
   */
  function Corrupt(signal: seq<int>, draws: seq<real>, p: real): (r: seq<int>)
    requires |draws| == |signal|
    ensures |r| == |signal|
    ensures forall i :: 0 <= i < |signal| ==> r[i] == if draws[i] < p then 1 - signal[i] else signal[i]
  {
    Flip(signal, Mask(draws, p))
  }

  /** Noise level 0: no draw in [0, 1) is below it, so nothing changes. */
  lemma CorruptWithoutNoise(signal: seq<int>, draws: seq<real>)
    requires |draws| == |signal| && InUnitInterval(draws)
    ensures Corrupt(signal, draws, 0.0) == signal
  {
    var r := Corrupt(signal, draws, 0.0);
    assert forall i :: 0 <= i < |signal| ==> r[i] == signal[i];
  }

  /** Noise level 1: every draw in [0, 1) is below it, so every symbol is inverted. */
  lemma CorruptWithFullNoise(signal: seq<int>, draws: seq<real>)
    requires |draws| == |signal| && InUnitInterval(draws)
    ensures Corrupt(signal, draws, 1.0) == Complement(signal)
  {
    var r, c := Corrupt(signal, draws, 1.0), Complement(signal);
    assert forall i :: 0 <= i < |signal| ==> r[i] == c[i];
  }

  /** Applying the same mask twice gives back the original signal. */
  lemma {:induction false} FlipInvolution(signal: seq<int>, mask: seq<bool>)
    requires |mask| == |signal|
    ensures Flip(Flip(signal, mask), mask) == signal
  {
    if signal != [] {
      FlipInvolution(signal[1..], mask[1..]);
    }
  }

  /** A spike train stays a spike train through the channel. */
  lemma FlipPreservesBinary(signal: seq<int>, mask: seq<bool>)
    requires |mask| == |signal|
    requires IsBinary(signal)
    ensures IsBinary(Flip(signal, mask))
  {
  }

  /** The worked example at noise level 0.5: draws below it flip positions 0 and 2. */
  lemma CorruptHalfNoiseExample()
    ensures Corrupt([0, 0, 0, 0], [0.1, 0.9, 0.1, 0.9], 0.5) == [1, 0, 1, 0]
  {
  }
}
