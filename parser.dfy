/** `parseTime`: one punch line, `H:MM:SS AM|PM`, read as a time of day in
    whole seconds since midnight, or rejected. */
module PunchParser {
  import opened Text

  const SecondsPerDay := 86400

  /** The pieces of a string that the pattern
      `^(\d{1,2}):(\d{2}):(\d{2})\s*(AM|PM)$` (case-insensitive) splits it
      into: the three digit groups, the whitespace run before the marker,
      and the marker itself. */
  datatype Fields = Fields(hour: string, minute: string, second: string, gap: string, period: string)

  /** `AM` or `PM` in any mix of cases. */
  predicate IsPeriod(p: string) {
    |p| == 2 && (p[0] in "aApP") && (p[1] in "mM")
  }

  predicate IsPm(p: string)
    requires IsPeriod(p)
  {
    p[0] in "pP"
  }

  /** The shape the pattern's groups impose on each piece. */
  predicate WellShaped(f: Fields) {
    && 1 <= |f.hour| <= 2 && AllDigits(f.hour)
    && |f.minute| == 2 && AllDigits(f.minute)
    && |f.second| == 2 && AllDigits(f.second)
    && AllSpace(f.gap)
    && IsPeriod(f.period)
  }

  /** The string whose match produced these pieces. */
  function Render(f: Fields): string {
    f.hour + ":" + f.minute + ":" + f.second + f.gap + f.period
  }

  /** `s` matches the pattern (as a whole, since it is anchored at both ends). */
  ghost predicate MatchesPattern(s: string) {
    exists f :: WellShaped(f) && Render(f) == s
  }

  /** The regular-expression match, as a scan: the hour group is one digit
      when the second character is the colon and two digits otherwise, and
      everything after the second group up to the last two characters is
      the whitespace run. */
  function Scan(s: string): (r: Option<Fields>)
    ensures r.Some? ==> WellShaped(r.value) && Render(r.value) == s
  {
    var p := if 2 <= |s| && s[1] == ':' then 1 else 2;
    if |s| < p + 8 then None
    else if !(&& AllDigits(s[..p]) && s[p] == ':'
              && AllDigits(s[p + 1..p + 3]) && s[p + 3] == ':'
              && AllDigits(s[p + 4..p + 6])
              && AllSpace(s[p + 6..|s| - 2]) && IsPeriod(s[|s| - 2..]))
    then None
    else
      var f := Fields(s[..p], s[p + 1..p + 3], s[p + 4..p + 6], s[p + 6..|s| - 2], s[|s| - 2..]);
      assert Render(f) == s by {
        assert s == s[..p] + [s[p]] + s[p + 1..p + 3] + [s[p + 3]] + s[p + 4..p + 6] + s[p + 6..|s| - 2] + s[|s| - 2..];
      }
      Some(f)
  }

  /** A match has exactly one decomposition, and the scan finds it. */
  lemma ScanComplete(f: Fields)
    requires WellShaped(f)
    ensures Scan(Render(f)) == Some(f)
  {
    var s := Render(f);
    var p := |f.hour|;
    assert |s| == p + 6 + |f.gap| + 2;
    assert s[..p] == f.hour;
    assert s[p] == ':';
    if p == 2 {
      assert s[1] == f.hour[1];
    }
    assert s[p + 1..p + 3] == f.minute;
    assert s[p + 3] == ':';
    assert s[p + 4..p + 6] == f.second;
    assert s[p + 6..|s| - 2] == f.gap;
    assert s[|s| - 2..] == f.period;
  }

  /** `MatchesPattern` holds exactly when the scan succeeds. */
  lemma ScanMatchesPattern(s: string)
    ensures Scan(s).Some? <==> MatchesPattern(s)
  {
    if MatchesPattern(s) {
      var f :| WellShaped(f) && Render(f) == s;
      ScanComplete(f);
    }
  }

  /** The 12-hour to 24-hour conversion: 12 AM is hour 0, 12 PM hour 12, PM
      adds twelve to 1..11 and AM keeps 1..11. The result is the hour of the
      day whose 12-hour reading is `h` and whose half of the day is the marker's. */
  function To24Hour(h: nat, pm: bool): (r: nat)
    requires 1 <= h <= 12
    ensures r < 24
    ensures r < 12 <==> !pm
    ensures r % 12 == h % 12
  {
    var h1 := if pm && h != 12 then h + 12 else h;
    if !pm && h1 == 12 then 0 else h1
  }

  /** The range check: hour 1..12, minute and second at most 59. */
  predicate InRange(f: Fields)
    requires WellShaped(f)
  {
    1 <= DigitsValue(f.hour) <= 12 && DigitsValue(f.minute) <= 59 && DigitsValue(f.second) <= 59
  }

  /** The time of day the fields name, in seconds since midnight. */
  function TimeOf(f: Fields): (t: int)
    requires WellShaped(f) && InRange(f)
    ensures 0 <= t < SecondsPerDay
    ensures t % 60 == DigitsValue(f.second) && t / 60 % 60 == DigitsValue(f.minute)
    ensures t / 3600 == To24Hour(DigitsValue(f.hour), IsPm(f.period))
  {
    var h, m, sec := To24Hour(DigitsValue(f.hour), IsPm(f.period)), DigitsValue(f.minute), DigitsValue(f.second);
    ClockDecompose(h, m, sec);
    h * 3600 + m * 60 + sec
  }

  /** Hours, minutes and seconds of a clock reading are recovered from the
      second of the day they name. */
  lemma ClockDecompose(h: nat, m: nat, sec: nat)
    requires h < 24 && m < 60 && sec < 60
    ensures var t := h * 3600 + m * 60 + sec;
      0 <= t < SecondsPerDay && t % 60 == sec && t / 60 % 60 == m && t / 3600 == h
  {
    var t := h * 3600 + m * 60 + sec;
    assert t == (h * 60 + m) * 60 + sec;
    assert t / 60 == h * 60 + m;
    assert (h * 60 + m) / 60 == h;
  }

  /** `parseTime`: the trimmed line must match the pattern and pass the range
      check; the result is the time of day in seconds (`parseTime` zeroes
      the milliseconds of its `Date`, so whole seconds are exact). */
  function ParseTime(line: string): (r: Option<int>)
    ensures r.Some? ==> 0 <= r.value < SecondsPerDay
  {
    match Scan(Trim(line))
    case None => None
    case Some(f) => if InRange(f) then Some(TimeOf(f)) else None
  }

  /** A line whose trimmed text is the match `f` parses to the time `f` names
      when its fields are in range, and is rejected otherwise. */
  lemma ParseTimeOfMatch(line: string, f: Fields)
    requires WellShaped(f) && Render(f) == Trim(line)
    ensures ParseTime(line) == if InRange(f) then Some(TimeOf(f)) else None
  {
    ScanComplete(f);
  }

  /** Accept/reject: a line parses exactly when its trimmed text matches the
      pattern with fields in range, and then to the time those fields name. */
  lemma ParseTimeAccepts(line: string)
    ensures ParseTime(line).Some? <==>
      exists f :: WellShaped(f) && Render(f) == Trim(line) && InRange(f)
    ensures ParseTime(line).Some? ==>
      exists f :: WellShaped(f) && Render(f) == Trim(line) && InRange(f) && ParseTime(line).value == TimeOf(f)
  {
    if exists f :: WellShaped(f) && Render(f) == Trim(line) && InRange(f) {
      var f :| WellShaped(f) && Render(f) == Trim(line) && InRange(f);
      ParseTimeOfMatch(line, f);
    }
  }

  /** The pieces of the canonical spelling of a time of day in the accepted
      format: 12-hour clock, two-digit minutes and seconds, one space,
      upper-case marker. */
  function ClockFields(t: int): (f: Fields)
    requires 0 <= t < SecondsPerDay
    ensures WellShaped(f) && InRange(f)
  {
    var h := t / 3600;
    Fields(NatToString(if h % 12 == 0 then 12 else h % 12), Pad2(t / 60 % 60), Pad2(t % 60), " ",
           if h < 12 then "AM" else "PM")
  }

  function ClockText(t: int): string
    requires 0 <= t < SecondsPerDay
  {
    Render(ClockFields(t))
  }

  lemma TrimUnpadded(s: string)
    requires s != [] && !IsSpace(s[0]) && !IsSpace(s[|s| - 1])
    ensures Trim(s) == s
  {
    assert TrimStart(s) == s;
    assert TrimEnd(s) == s;
  }

  /** Every time of day has a spelling the parser reads back to it, so the
      parser reaches the whole day and loses nothing. */
  lemma ParseClockText(t: int)
    requires 0 <= t < SecondsPerDay
    ensures ParseTime(ClockText(t)) == Some(t)
  {
    ParseAccepted(ClockText(t), ClockFields(t));
    ClockFieldsTime(t);
  }

  lemma ClockFieldsTime(t: int)
    requires 0 <= t < SecondsPerDay
    ensures TimeOf(ClockFields(t)) == t
  {
    var f := ClockFields(t);
    var h := t / 3600;
    var h12 := if h % 12 == 0 then 12 else h % 12;
    assert DigitsValue(f.hour) == h12;
    assert IsPm(f.period) <==> h >= 12;
    HalfDayHour(h, h12);
    SecondsDecompose(t);
  }

  /** The hour of the 12-hour clock and its half of the day give back the
      hour of the 24-hour clock. */
  lemma HalfDayHour(h: nat, h12: nat)
    requires h < 24 && h12 == (if h % 12 == 0 then 12 else h % 12)
    ensures To24Hour(h12, h >= 12) == h
  {
    if h >= 12 {
      assert h % 12 == h - 12;
    }
  }

  lemma SecondsDecompose(t: int)
    requires 0 <= t
    ensures t == t / 3600 * 3600 + (t / 60 % 60) * 60 + t % 60
  {
    var q := t / 60;
    assert t == q * 60 + t % 60;
    assert q == q / 60 * 60 + q % 60;
    assert q / 60 == t / 3600;
  }

  /** A morning punch: the hours are kept as written. */
  lemma ParseTimeMorning()
    ensures ParseTime("10:38:59 AM") == Some(38339)
  {
    var line := "10:38:59 AM";
    var f := Fields("10", "38", "59", " ", "AM");
    assert WellShaped(f) && Render(f) == line && InRange(f) && TimeOf(f) == 38339;
    ParseAccepted(line, f);
  }

  /** An afternoon punch with a one-digit hour: twelve hours are added. */
  lemma ParseTimeAfternoon()
    ensures ParseTime("1:21:33 PM") == Some(48093)
  {
    var line := "1:21:33 PM";
    var f := Fields("1", "21", "33", " ", "PM");
    assert WellShaped(f) && Render(f) == line && InRange(f) && TimeOf(f) == 48093;
    ParseAccepted(line, f);
  }

  /** Nine in the morning, on the hour. */
  lemma ParseTimeNineAm()
    ensures ParseTime("9:00:00 AM") == Some(32400)
  {
    var line := "9:00:00 AM";
    var f := Fields("9", "00", "00", " ", "AM");
    assert WellShaped(f) && Render(f) == line && InRange(f) && TimeOf(f) == 32400;
    ParseAccepted(line, f);
  }

  /** One in the afternoon, on the hour. */
  lemma ParseTimeOnePm()
    ensures ParseTime("1:00:00 PM") == Some(46800)
  {
    var line := "1:00:00 PM";
    var f := Fields("1", "00", "00", " ", "PM");
    assert WellShaped(f) && Render(f) == line && InRange(f) && TimeOf(f) == 46800;
    ParseAccepted(line, f);
  }

  /** Six in the evening, on the hour. */
  lemma ParseTimeSixPm()
    ensures ParseTime("6:00:00 PM") == Some(64800)
  {
    var line := "6:00:00 PM";
    var f := Fields("6", "00", "00", " ", "PM");
    assert WellShaped(f) && Render(f) == line && InRange(f) && TimeOf(f) == 64800;
    ParseAccepted(line, f);
  }

  /** Twelve o'clock before noon is the start of the day. */
  lemma ParseTimeMidnight()
    ensures ParseTime("12:00:00 AM") == Some(0)
  {
    var line := "12:00:00 AM";
    var f := Fields("12", "00", "00", " ", "AM");
    assert WellShaped(f) && Render(f) == line && InRange(f) && TimeOf(f) == 0;
    ParseAccepted(line, f);
  }

  /** Twelve o'clock after noon stays at twelve. */
  lemma ParseTimeNoon()
    ensures ParseTime("12:30:00 PM") == Some(45000)
  {
    var line := "12:30:00 PM";
    var f := Fields("12", "30", "00", " ", "PM");
    assert WellShaped(f) && Render(f) == line && InRange(f) && TimeOf(f) == 45000;
    ParseAccepted(line, f);
  }

  /** The marker may be lower case and follow the seconds with no space. */
  lemma ParseTimeLowerCaseNoGap()
    ensures ParseTime("9:00:00am") == Some(32400)
  {
    var line := "9:00:00am";
    var f := Fields("9", "00", "00", "", "am");
    assert WellShaped(f) && Render(f) == line && InRange(f) && TimeOf(f) == 32400;
    ParseAccepted(line, f);
  }

  /** The last second of the day. */
  lemma ParseTimeLastSecond()
    ensures ParseTime("11:59:59 PM") == Some(86399)
  {
    var line := "11:59:59 PM";
    var f := Fields("11", "59", "59", " ", "PM");
    assert WellShaped(f) && Render(f) == line && InRange(f) && TimeOf(f) == 86399;
    ParseAccepted(line, f);
  }

  /** An hour written with a leading zero. */
  lemma ParseTimeLeadingZero()
    ensures ParseTime("09:05:00 AM") == Some(32700)
  {
    var line := "09:05:00 AM";
    var f := Fields("09", "05", "00", " ", "AM");
    assert WellShaped(f) && Render(f) == line && InRange(f) && TimeOf(f) == 32700;
    ParseAccepted(line, f);
  }

  /** Whitespace around the line, a space or a carriage return say, is
      trimmed before matching. */
  lemma ParseTimePadded(a: char, b: char)
    requires IsSpace(a) && IsSpace(b)
    ensures ParseTime([a] + "09:05:00 AM" + [b]) == Some(32700)
  {
    var core := "09:05:00 AM";
    var line := [a] + core + [b];
    assert line[1] == '0' && line[|line| - 2] == 'M';
    TrimOneEach(line);
    ParseTimeIgnoresPadding(line);
    assert line[1..|line| - 1] == core;
    ParseTimeLeadingZero();
  }

  /** The parser sees only the trimmed text. */
  lemma ParseTimeIgnoresPadding(line: string)
    ensures ParseTime(line) == ParseTime(Trim(line))
  {
    TrimIdempotent(line);
  }

  /** One whitespace character at each end of a text without outer
      whitespace: trimming removes exactly those two. */
  lemma TrimOneEach(s: string)
    requires |s| >= 3 && IsSpace(s[0]) && IsSpace(s[|s| - 1])
    requires !IsSpace(s[1]) && !IsSpace(s[|s| - 2])
    ensures Trim(s) == s[1..|s| - 1]
  {
    var core := s[1..|s| - 1];
    assert TrimStart(s[1..]) == s[1..];
    assert s[1..][..|s| - 2] == core;
    assert TrimEnd(core) == core;
  }

  /** An hour of 0 matches the pattern but is out of range. */
  lemma ParseTimeHourZero()
    ensures ParseTime("0:00:00 AM") == None
  {
    var line := "0:00:00 AM";
    var f := Fields("0", "00", "00", " ", "AM");
    assert WellShaped(f) && Render(f) == line && !InRange(f);
    ParseAccepted(line, f);
  }

  /** An hour of 13 matches the pattern but is out of range. */
  lemma ParseTimeHourThirteen()
    ensures ParseTime("13:00:00 PM") == None
  {
    var line := "13:00:00 PM";
    var f := Fields("13", "00", "00", " ", "PM");
    assert WellShaped(f) && Render(f) == line && !InRange(f);
    ParseAccepted(line, f);
  }

  /** A minute of 60 matches the pattern but is out of range. */
  lemma ParseTimeMinuteSixty()
    ensures ParseTime("1:60:00 PM") == None
  {
    var line := "1:60:00 PM";
    var f := Fields("1", "60", "00", " ", "PM");
    assert WellShaped(f) && Render(f) == line && !InRange(f);
    ParseAccepted(line, f);
  }

  /** A time without the AM/PM marker does not match. */
  lemma ParseTimeNoMarker()
    ensures ParseTime("1:00:00") == None
  {
    var line := "1:00:00";
    Unmatched(line);
  }

  /** Text after the marker does not match: the pattern is anchored at the end. */
  lemma ParseTimeTrailingText()
    ensures ParseTime("1:00:00 PMX") == None
  {
    var line := "1:00:00 PMX";
    Unmatched(line);
  }

  /** A three-digit hour does not match. */
  lemma ParseTimeLongHour()
    ensures ParseTime("123:00:00 AM") == None
  {
    var line := "123:00:00 AM";
    Unmatched(line);
  }

  /** A word is not a time. */
  lemma ParseTimeWord()
    ensures ParseTime("MISSING") == None
  {
    var line := "MISSING";
    Unmatched(line);
  }

  /** A line with no padding that the scan does not match is rejected. */
  lemma Unmatched(line: string)
    requires line != [] && !IsSpace(line[0]) && !IsSpace(line[|line| - 1])
    requires Scan(line) == None
    ensures ParseTime(line) == None
  {
    TrimUnpadded(line);
  }

  /** A line that is its own match `f`, with no padding to trim. */
  lemma ParseAccepted(line: string, f: Fields)
    requires WellShaped(f) && Render(f) == line
    ensures ParseTime(line) == if InRange(f) then Some(TimeOf(f)) else None
  {
    assert line[0] == f.hour[0];
    assert line[|line| - 1] == f.period[1];
    TrimUnpadded(line);
    ParseTimeOfMatch(line, f);
  }
}
