/** `formatDuration`: a signed duration shown as `{h}h {m}m` of its magnitude.
    `formatDuration` is given minutes, got by dividing milliseconds by 60000;
    here the argument is the same duration in whole seconds, so its
    `totalMinutes` is `s / 60` as a rational number. */
module DurationFormat {
  import opened Text

  function Abs(x: int): nat {
    if x < 0 then -x else x
  }

  /** `Math.floor(Math.abs(totalMinutes) / 60)`: the whole hours in the magnitude. */
  function WholeHours(s: int): (h: nat)
    ensures h * 3600 <= Abs(s) < (h + 1) * 3600
  {
    Abs(s) / 3600
  }

  /** `Math.round(Math.abs(totalMinutes) % 60)`: what is left below a whole
      hour, to the nearest minute with halves rounded up. It can be 60: a
      leftover of 59.5 minutes or more rounds up to a full hour that the
      hours field does not absorb. */
  function RoundedMinutes(s: int): (m: nat)
    ensures m <= 60
    ensures Abs(s) % 3600 - 30 < m * 60 <= Abs(s) % 3600 + 30
  {
    (Abs(s) % 3600 + 30) / 60
  }

  function FormatDuration(s: int): string {
    NatToString(WholeHours(s)) + "h " + NatToString(RoundedMinutes(s)) + "m"
  }

  /** The sign is dropped: a duration and its negation read the same. */
  lemma FormatDurationSymmetric(s: int)
    ensures FormatDuration(-s) == FormatDuration(s)
  {
  }

  /** Two all-digit numerals framed by the same `h ` and `m` markers are the
      same numerals: the first non-digit marks where each one ends. */
  lemma {:induction false} FramedNumeralsEqual(a: string, b: string, c: string, d: string)
    requires AllDigits(a) && AllDigits(b) && AllDigits(c) && AllDigits(d)
    requires a + "h " + b + "m" == c + "h " + d + "m"
    ensures a == c && b == d
  {
    var x := a + "h " + b + "m";
    assert x[|a|] == 'h' && x[|c|] == 'h';
    assert |a| == |c|;
    assert a == x[..|a|] == c;
    assert b == x[|a| + 2..|x| - 1] == d;
  }

  /** Reading the display back: whatever numerals `FormatDuration` shows, the
      hours are the exact whole hours of the magnitude, the minutes are at
      most 60, and together they are within half a minute of the magnitude. */
  lemma FormatDurationReadBack(s: int, hs: string, ms: string)
    requires AllDigits(hs) && AllDigits(ms)
    requires FormatDuration(s) == hs + "h " + ms + "m"
    ensures DigitsValue(hs) == Abs(s) / 3600
    ensures DigitsValue(ms) <= 60
    ensures Abs(s) - 30 < DigitsValue(hs) * 3600 + DigitsValue(ms) * 60 <= Abs(s) + 30
  {
    FramedNumeralsEqual(hs, ms, NatToString(WholeHours(s)), NatToString(RoundedMinutes(s)));
  }

  /** Examples: 125 minutes shows as `2h 5m` whatever its sign; nothing shows
      as `0h 0m`; 59 minutes 30 seconds shows as `0h 60m`. */
  lemma FormatDurationExamples()
    ensures FormatDuration(125 * 60) == "2h 5m"
    ensures FormatDuration(-125 * 60) == "2h 5m"
    ensures FormatDuration(0) == "0h 0m"
    ensures FormatDuration(59 * 60 + 30) == "0h 60m"
  {
    assert WholeHours(125 * 60) == 2 && RoundedMinutes(125 * 60) == 5;
    assert WholeHours(-125 * 60) == 2 && RoundedMinutes(-125 * 60) == 5;
    assert WholeHours(0) == 0 && RoundedMinutes(0) == 0;
    assert WholeHours(59 * 60 + 30) == 0 && RoundedMinutes(59 * 60 + 30) == 60;
    assert NatToString(2) == "2" && NatToString(5) == "5";
    assert NatToString(0) == "0" && NatToString(60) == "60";
  }

  /** The worked, remaining and break durations of a day of two pairs:
      6h 59m 28s, 1h 15m 32s and 21m 33s, each to the nearest minute. */
  lemma FormatDurationSamples()
    ensures FormatDuration(25168) == "6h 59m"
    ensures FormatDuration(4532) == "1h 16m"
    ensures FormatDuration(1293) == "0h 22m"
  {
    assert WholeHours(25168) == 6 && RoundedMinutes(25168) == 59;
    assert WholeHours(4532) == 1 && RoundedMinutes(4532) == 16;
    assert WholeHours(1293) == 0 && RoundedMinutes(1293) == 22;
    assert NatToString(6) == "6" && NatToString(59) == "59";
    assert NatToString(1) == "1" && NatToString(16) == "16";
    assert NatToString(0) == "0" && NatToString(22) == "22";
  }
}
