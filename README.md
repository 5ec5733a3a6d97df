# Spike Distorter: the noisy-channel kernel

Spike Distorter is a single-page Streamlit demo. The user types a "binary
signal" (a spike train: 1 is a spike, 0 is silence) and picks a noise level.
The page flips each symbol independently with that probability, plots the
original and corrupted signals, can play the corrupted signal as beeps, and
shows two figures: the error rate and the number of "surviving spikes".

This project models the computation behind the page as pure Dafny functions
and proves properties of it:

- `signal.dfy` (module `Signal`): parsing of the typed text, one
  `int(bit)` per character. The page stops with an error on the first
  character that does not convert.
- `channel.dfy` (module `Channel`): the noise mask `draws < p` and the
  element-wise flip `np.where(mask, 1 - signal, signal)`. The uniform draws
  are a parameter, one per symbol.
- `stats.dfy` (module `Stats`): the error rate, kept as the pair
  (mismatching positions, length), and the surviving-spikes figure, kept as
  the pair (spikes in the corrupted signal, spikes in the original).
- `app.dfy` (module `App`): one render, from parse outcome to both figures,
  and the worked scenarios.

Modelling choices that differ from what the page's own text suggests:

- The rejection message says only 0s and 1s are allowed. Python's `int`
  accepts any digit, so `"1012"` is a valid signal. `Signal.Parse` models
  that. `Signal.ParseBinary` is the stricter parse the message describes
  (see Findings).
- The error rate of an empty signal is NumPy's NaN in the code. Here it is
  the pair (0, 0), and no division happens.
- The code does not check the noise level. The slider keeps it in
  [0, 1]. `Channel.Corrupt` accepts any real noise level, and the extreme
  cases are stated for 0 and 1.

Stronger than needed for spike trains: flipping twice with one mask restores any
integer signal, not only spike trains. Likewise, the number of differing
positions equals the number of flips for any integer signal, because
`1 - x` never equals `x` for an integer.

## Model

| member | source | states |
|---|---|---|
| Signal.Parse | app.py:52-56 | Rejects exactly when some character is not a digit, with no partial signal. Otherwise the signal has the input's length, and symbol i is the digit value of character i. |
| Signal.ParseEmpty | app.py:53 | The empty text parses to the empty signal, not to an error. |
| Signal.ParseAcceptsNonBinaryDigits | app.py:52-56 | `"1012"` parses to `[1, 0, 1, 2]`, which is not a spike train, despite the message on line 55. |
| Signal.ParseBinary | app.py:55 | The corrected parse rejects exactly when some character is neither '0' nor '1'. On success it agrees with `Parse`, keeps the length, and yields a spike train whose symbol i is 1 exactly when character i is '1'. |
| Signal.ParseBinaryRejectsNonBinaryDigits | app.py:55 | The corrected parse rejects `"1012"`. |
| Channel.Mask | app.py:59 | The mask has one entry per draw: entry i is true exactly when draw i is below the noise level. |
| Channel.Flip | app.py:60 | Same length. Symbol i becomes `1 - signal[i]` where the mask is true and stays `signal[i]` where it is false. |
| Channel.Complement | app.py:60 | Same length. Symbol i is `1 - signal[i]`. |
| Channel.Corrupt | app.py:59-60 | Same length. Symbol i is `1 - signal[i]` when draw i is below p and `signal[i]` otherwise. It is a function of `signal[i]`, `draws[i]` and p alone. |
| Channel.CorruptWithoutNoise | app.py:59-60 | With p = 0 and every draw in [0, 1), the corrupted signal equals the original. |
| Channel.CorruptWithFullNoise | app.py:59-60 | With p = 1 and every draw in [0, 1), the corrupted signal is the complement `1 - x`. |
| Channel.FlipInvolution | app.py:60 | Flipping twice with the same mask gives back the original signal. |
| Channel.FlipPreservesBinary | app.py:60 | Flipping a spike train gives a spike train. |
| Channel.CorruptHalfNoiseExample | app.py:59-60 | `[0,0,0,0]` with p = 0.5 and draws 0.1, 0.9, 0.1, 0.9 becomes `[1,0,1,0]`. |
| Stats.CountOnes | app.py:116 | The number of spikes is at most the length. |
| Stats.CountOnesIsMultiplicity | app.py:116 | The spike count is the multiplicity of 1 in the signal. |
| Stats.CountTrue | app.py:59 | The number of true mask entries is at most the mask's length. |
| Stats.CountTrueIsMultiplicity | app.py:59 | The number of true mask entries is the multiplicity of `true` in the mask. |
| Stats.Mismatches | app.py:113 | The Hamming distance is at most the length. It is 0 exactly when the two signals are equal. |
| Stats.Overlap | app.py:116 | The positions where both signals spike number at most the spikes of each. This is the count the survivor figure does not compute. |
| Stats.ErrorRateOf | app.py:113 | The denominator is the length, and the numerator lies between 0 and it. The numerator is 0 exactly when nothing changed. |
| Stats.SurvivorsOf | app.py:116 | Both counts of the survivor pair are at most the length. |
| Stats.SurvivorsAreMultiplicities | app.py:116 | The survivor pair is (multiplicity of 1 in the corrupted signal, multiplicity of 1 in the original). |
| Stats.FlipMismatches | app.py:60 | The Hamming distance between a signal and its flip is the number of true mask entries. |
| Stats.ErrorRateOfCorrupt | app.py:113 | The error rate of a corrupted signal is (draws below p, length). |
| Stats.ComplementCountOnes | app.py:116 | On a spike train of length N with k spikes, the complement has N - k spikes. |
| Stats.StatsWithoutNoise | app.py:113-116 | At p = 0 the error rate is 0/N, and survivors equal the original spikes. |
| Stats.StatsWithFullNoise | app.py:113-116 | At p = 1 on a spike train, the error rate is N/N. The survivors are the original silences, set against the original spikes. |
| Stats.OverlapWithComplement | app.py:116 | No position is a spike in both a signal and its complement. |
| Stats.SurvivorsAreNotAnOverlap | app.py:116 | For `1010` at p = 1 the figure reads 2/2, while no original spike is still a spike. |
| App.Run | app.py:52-116 | Stops exactly when parsing rejected. Otherwise it shows the parsed signal and its corruption. The error rate is (true mask entries, length). The survivor pair is (1s of the corrupted signal, 1s of the original), each at most the length. |
| App.RunBinaryInput | app.py:52-60 | With the stricter parse, the page stops exactly on non-binary text. Otherwise both signals are spike trains as long as the text. |
| App.RunAsWrittenEmitsNonBinary | app.py:52-60 | As written, `"2"` at p = 1 with any draw in [0, 1) shows corrupted symbol -1, error rate 1/1 and survivors 0/0. |
| App.RunCorrectedStopsNonBinary | app.py:52-56 | With the stricter parse, `"2"` stops the page, whatever the draw and noise level. |
| App.ScenarioWithoutNoise | app.py:52-116 | `"1010"` at p = 0 with any draws in [0, 1) shows `1010`, error rate 0/4 and survivors 2/2. |
| App.ScenarioWithFullNoise | app.py:52-116 | `"1010"` at p = 1 with any draws in [0, 1) shows `0101`, error rate 4/4 and survivors 2/2. |
| App.ScenarioHalfNoise | app.py:52-116 | `"0000"` at p = 0.5 with draws 0.1, 0.9, 0.1, 0.9 shows `1010`, error rate 2/4 and survivors 2/0. |

## Left out

- Page configuration, CSS, header, sidebar widgets, columns and footer (app.py:8-49, 111-124): UI rendering with no computation.
- The `st.session_state.play` flag (app.py:43-44, 105): it only decides whether audio plays.
- The Plotly figure (app.py:63-97): a charting-library wrapper.
- `generate_beep` and audio playback (app.py:100-108): floating-point sine synthesis and a sound-device call.
- `np.random.random` (app.py:59): the randomness source. The draws are a parameter, each assumed in [0, 1) where a property needs it. Floating-point draws are modelled as reals.
- Percent formatting `:.0%` and the "x/y" text (app.py:113, 116): the figures are kept as pairs of naturals.
- NumPy's NaN for the mean of an empty array (app.py:113): the model reports the pair (0, 0).
- Signal.Parse: accepts the ASCII digits '0'-'9' only. Python's `int` also accepts the decimal digits of other scripts (for example Arabic-Indic digits), because a Unicode digit table is beyond this model.
- NumPy's 64-bit integers: the symbols lie between -8 and 9 and the counts are bounded by the input length, so unbounded integers behave the same.
- The theory page (pages/2_📚_Theory.py): static prose.

## Findings

| source | as written | input that shows it | evidently intended | confidence | as-written member | corrected member |
|---|---|---|---|---|---|---|
| app.py:52-56 | The check is `int(bit)`, which accepts every decimal digit, so the message "Only 0s and 1s allowed!" is not enforced. | `"1012"` parses to `[1, 0, 1, 2]`. At full noise, `"2"` reaches the dashboard as -1. | Reject every character other than '0' and '1', as the message says. | high; not executed | Signal.ParseAcceptsNonBinaryDigits | Signal.ParseBinary |
