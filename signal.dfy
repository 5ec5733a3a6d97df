/**
 * Turning the text typed into the "Binary Signal" field into a sequence of
 * integer symbols (app.py, the list comprehension `int(bit) for bit in ...`).
 *
 * The conversion used by the application is Python's `int` applied to one
 * character at a time, which accepts every decimal digit, not just '0' and
 * '1'. `Parse` models that behaviour; `ParseBinary` is the stricter parser
 * that the error message of the application describes.
 */
module Signal {

  /** The outcome of parsing: a signal, or the rejection that stops the page. */
  datatype ParseResult = Parsed(signal: seq<int>) | Rejected

  /** The ASCII digits: the subset of what Python's `int` converts that this model accepts. */
  predicate IsDigit(c: char) {
    '0' <= c <= '9'
  }

  /** The integer that `int(c)` yields for a digit character. */
  function DigitValue(c: char): int
    requires IsDigit(c)
  {
    c as int - '0' as int
  }

  /** The two symbols the application is meant to work with. */
  predicate IsBinaryChar(c: char) {
    c == '0' || c == '1'
  }

  predicate IsBinaryString(s: string) {
    forall i :: 0 <= i < |s| ==> IsBinaryChar(s[i])
  }

  /** A spike train: every symbol is a silence (0) or a spike (1). */
  predicate IsBinary(s: seq<int>) {
    forall i :: 0 <= i < |s| ==> s[i] == 0 || s[i] == 1
  }

  /**
   * The parse as the application performs it: each character is converted
   * in order, and the first character that is not a digit rejects the whole
   * input, so no partial signal is ever produced.
   */
  function Parse(s: string): (r: ParseResult)
    ensures r.Rejected? <==> exists i :: 0 <= i < |s| && !IsDigit(s[i])
    ensures r.Parsed? ==> |r.signal| == |s|
    ensures r.Parsed? ==> forall i :: 0 <= i < |s| ==> r.signal[i] == DigitValue(s[i])
  {
    if s == [] then Parsed([])
    else if !IsDigit(s[0]) then Rejected
    else
      match Parse(s[1..])
      case Rejected =>
        assert forall j :: 0 <= j < |s| - 1 ==> s[1..][j] == s[j + 1];
        Rejected
      case Parsed(rest) => Parsed([DigitValue(s[0])] + rest)
  }

  /** The empty input is a valid, empty signal, not an error. */
  lemma ParseEmpty()
    ensures Parse("") == Parsed([])
  {
  }

  /**
   * The message shown on rejection promises that only 0s and 1s are
   * allowed, yet a digit such as '2' is accepted and reaches the channel.
   */
  lemma ParseAcceptsNonBinaryDigits()
    ensures Parse("1012") == Parsed([1, 0, 1, 2])
    ensures !IsBinary(Parse("1012").signal)
  {
    var r := Parse("1012");
    assert r.signal[3] == DigitValue('2') == 2;
  }

  /**
   * The parse the rejection message describes: the input is rejected exactly
   * when some character is neither '0' nor '1'; otherwise it agrees with
   * `Parse` and yields a spike train.
   */
  function ParseBinary(s: string): (r: ParseResult)
    ensures r.Rejected? <==> exists i :: 0 <= i < |s| && !IsBinaryChar(s[i])
    ensures r.Parsed? ==> r == Parse(s) && |r.signal| == |s| && IsBinary(r.signal)
    ensures r.Parsed? ==> forall i :: 0 <= i < |s| ==> r.signal[i] == (if s[i] == '1' then 1 else 0)
  {
    if IsBinaryString(s) then Parse(s) else Rejected
  }

  /** The corrected parse turns away the input the original one lets through. */
  lemma ParseBinaryRejectsNonBinaryDigits()
    ensures ParseBinary("1012") == Rejected
  {
    assert !IsBinaryChar("1012"[3]);
  }
}
