/** The accounting body of `calculate`: the punch log is split into trimmed,
    non-blank lines, the lines are partitioned into parsed and rejected ones,
    the parsed times are paired IN/OUT by position, and worked time, breaks,
    the remaining time against the 8h15m target and the projected completion
    time follow. Times are seconds since midnight of the current day; the
    clock sample `currentTime` is a parameter. */
module Calculator {
  import opened Text
  import opened PunchParser
  import opened DurationFormat

  const TargetHours := 8
  const TargetMinutes := 15
  const TargetTotalMinutes := TargetHours * 60 + TargetMinutes
  const TargetSeconds := TargetTotalMinutes * 60

  /** One break: from an OUT punch to the IN punch after it. */
  datatype BreakInfo = BreakInfo(startTime: int, endTime: int, durationSeconds: int)

  datatype CalculationResult = CalculationResult(
    validEntries: seq<string>,
    invalidEntries: seq<string>,
    totalWorkedSeconds: int,
    remainingSeconds: int,
    completionTime: Option<int>,
    isComplete: bool,
    isCurrentlyIn: bool,
    totalBreakSeconds: int,
    breaks: seq<BreakInfo>)

  // ---------------------------------------------------------------------------
  // Lines of the log

  /** `.map(l => l.trim()).filter(l => l.length > 0)`: the trimmed pieces that
      are not empty, in their original order. */
  function TrimmedNonBlank(pieces: seq<string>): (r: seq<string>)
    ensures |r| <= |pieces|
    ensures forall k :: 0 <= k < |r| ==> r[k] != []
  {
    if pieces == [] then []
    else
      var t := Trim(pieces[0]);
      (if t == [] then [] else [t]) + TrimmedNonBlank(pieces[1..])
  }

  /** Only the blank pieces are dropped: every other piece is kept, trimmed,
      nothing else is kept, and what is kept has nothing left to trim. */
  lemma {:induction false} TrimmedNonBlankKeeps(pieces: seq<string>)
    ensures forall p :: p in pieces && !AllSpace(p) ==> Trim(p) in TrimmedNonBlank(pieces)
    ensures forall x :: x in TrimmedNonBlank(pieces) ==> exists p :: p in pieces && Trim(p) == x
    ensures forall x :: x in TrimmedNonBlank(pieces) ==> Trim(x) == x
  {
    if pieces != [] {
      TrimmedNonBlankKeeps(pieces[1..]);
      var t := Trim(pieces[0]);
      var rest := TrimmedNonBlank(pieces[1..]);
      var r := TrimmedNonBlank(pieces);
      assert r == (if t == [] then [] else [t]) + rest;
      forall p | p in pieces && !AllSpace(p) ensures Trim(p) in r {
        if p != pieces[0] {
          assert p in pieces[1..];
        }
      }
      forall x | x in r ensures (exists p :: p in pieces && Trim(p) == x) && Trim(x) == x {
        if x in rest {
          var p :| p in pieces[1..] && Trim(p) == x;
          assert p in pieces;
        } else {
          assert Trim(pieces[0]) == x;
          TrimIdempotent(pieces[0]);
        }
      }
    }
  }

  /** The positions `i..` of the pieces that are not whitespace only, in
      increasing order: the positions `.filter` keeps. */
  function NonBlankFrom(pieces: seq<string>, i: nat): (r: seq<nat>)
    requires i <= |pieces|
    ensures forall a :: 0 <= a < |r| ==> i <= r[a] < |pieces|
    decreases |pieces| - i
  {
    if i == |pieces| then []
    else (if AllSpace(pieces[i]) then [] else [i]) + NonBlankFrom(pieces, i + 1)
  }

  /** The kept positions are exactly the non-blank pieces from `i` on, in
      increasing order (so each once). */
  lemma {:induction false} NonBlankFromExact(pieces: seq<string>, i: nat)
    requires i <= |pieces|
    ensures forall a, b :: 0 <= a < b < |NonBlankFrom(pieces, i)| ==>
      NonBlankFrom(pieces, i)[a] < NonBlankFrom(pieces, i)[b]
    ensures forall j :: i <= j < |pieces| ==> (j in NonBlankFrom(pieces, i) <==> !AllSpace(pieces[j]))
    decreases |pieces| - i
  {
    if i < |pieces| {
      NonBlankFromExact(pieces, i + 1);
    }
  }

  /** `.map(l => l.trim())`: every piece trimmed, in place. */
  ghost function TrimAll(pieces: seq<string>): (r: seq<string>)
    ensures |r| == |pieces|
  {
    seq(|pieces|, k requires 0 <= k < |pieces| => Trim(pieces[k]))
  }

  /** `lines` picks the elements of `source` at the positions `idx`, in that order. */
  ghost predicate SelectedAt<T>(lines: seq<T>, source: seq<T>, idx: seq<nat>) {
    |lines| == |idx| &&
    forall k :: 0 <= k < |idx| ==> idx[k] < |source| && lines[k] == source[idx[k]]
  }

  lemma SelectedAtCons<T>(lines: seq<T>, source: seq<T>, idx: seq<nat>, i: nat)
    requires SelectedAt(lines, source, idx) && i < |source|
    ensures SelectedAt([source[i]] + lines, source, [i] + idx)
  {
    var ls, ix := [source[i]] + lines, [i] + idx;
    forall k | 1 <= k < |ix| ensures ix[k] < |source| && ls[k] == source[ix[k]] {
      assert ix[k] == idx[k - 1] && ls[k] == lines[k - 1];
    }
  }

  /** `TrimmedNonBlank` is the map-then-filter in order: line `k` is the
      trimmed piece at the `k`-th kept position, and there is one line per
      kept position. */
  lemma {:induction false} TrimmedNonBlankInOrder(pieces: seq<string>, i: nat)
    requires i <= |pieces|
    ensures SelectedAt(TrimmedNonBlank(pieces[i..]), TrimAll(pieces), NonBlankFrom(pieces, i))
    decreases |pieces| - i
  {
    if i < |pieces| {
      TrimmedNonBlankInOrder(pieces, i + 1);
      assert pieces[i..][1..] == pieces[i + 1..];
      var rest, tail := TrimmedNonBlank(pieces[i + 1..]), NonBlankFrom(pieces, i + 1);
      if AllSpace(pieces[i]) {
        assert TrimmedNonBlank(pieces[i..]) == rest;
        assert NonBlankFrom(pieces, i) == tail;
      } else {
        assert TrimmedNonBlank(pieces[i..]) == [TrimAll(pieces)[i]] + rest;
        assert NonBlankFrom(pieces, i) == [i] + tail;
        SelectedAtCons(rest, TrimAll(pieces), tail, i);
      }
    }
  }

  /** The lines `calculate` works on. */
  function Lines(log: string): seq<string> {
    TrimmedNonBlank(Split(log))
  }

  // ---------------------------------------------------------------------------
  // Partition into valid and invalid entries

  // The partition is stated for any line parser `parse`; `calculate` uses
  // `ParseTime`. Nothing below depends on how a line is parsed.

  /** The lines that parse, in order (`validEntries`). */
  function ValidLines(ls: seq<string>, parse: string -> Option<int>): (r: seq<string>)
    ensures |r| <= |ls|
  {
    if ls == [] then []
    else
      var last := ls[|ls| - 1];
      ValidLines(ls[..|ls| - 1], parse) + (if parse(last).Some? then [last] else [])
  }

  /** The lines that do not parse, in order (`invalidEntries`). */
  function InvalidLines(ls: seq<string>, parse: string -> Option<int>): (r: seq<string>)
    ensures |r| <= |ls|
    ensures |r| + |ValidLines(ls, parse)| == |ls|
  {
    if ls == [] then []
    else
      var last := ls[|ls| - 1];
      InvalidLines(ls[..|ls| - 1], parse) + (if parse(last).None? then [last] else [])
  }

  /** The parsed times, entry for entry alongside `ValidLines` (`parsedTimes`). */
  function ParsedTimes(ls: seq<string>, parse: string -> Option<int>): (r: seq<int>)
    ensures |r| == |ValidLines(ls, parse)|
  {
    if ls == [] then []
    else
      var last := ls[|ls| - 1];
      ParsedTimes(ls[..|ls| - 1], parse) + (match parse(last) case Some(t) => [t] case None => [])
  }

  /** Entry `k` of `validEntries` parses, to entry `k` of `parsedTimes`;
      every entry of `invalidEntries` is rejected. */
  lemma {:induction false} PartitionParses(ls: seq<string>, parse: string -> Option<int>)
    ensures forall k :: 0 <= k < |ValidLines(ls, parse)| ==>
      parse(ValidLines(ls, parse)[k]) == Some(ParsedTimes(ls, parse)[k])
    ensures forall k :: 0 <= k < |InvalidLines(ls, parse)| ==> parse(InvalidLines(ls, parse)[k]).None?
  {
    if ls != [] {
      var init, last := ls[..|ls| - 1], ls[|ls| - 1];
      PartitionParses(init, parse);
    }
  }

  /** `a` is `b` with some elements left out and the rest kept in order. */
  ghost predicate IsSubsequence<T>(a: seq<T>, b: seq<T>)
    decreases |b|
  {
    a == [] ||
    (b != [] &&
      (IsSubsequence(a, b[..|b| - 1]) ||
       (a[|a| - 1] == b[|b| - 1] && IsSubsequence(a[..|a| - 1], b[..|b| - 1]))))
  }

  /** Every line lands in exactly one of the two lists. */
  lemma {:induction false} PartitionMultiset(ls: seq<string>, parse: string -> Option<int>)
    ensures multiset(ValidLines(ls, parse)) + multiset(InvalidLines(ls, parse)) == multiset(ls)
  {
    if ls != [] {
      var init, last := ls[..|ls| - 1], ls[|ls| - 1];
      PartitionMultiset(init, parse);
      assert ls == init + [last];
    }
  }

  /** Each list keeps the input order. */
  lemma {:induction false} PartitionOrder(ls: seq<string>, parse: string -> Option<int>)
    ensures IsSubsequence(ValidLines(ls, parse), ls)
    ensures IsSubsequence(InvalidLines(ls, parse), ls)
  {
    if ls != [] {
      var init, last := ls[..|ls| - 1], ls[|ls| - 1];
      PartitionOrder(init, parse);
      var v, w := ValidLines(init, parse), InvalidLines(init, parse);
      assert init + [last] == ls;
      if parse(last).Some? {
        assert ValidLines(ls, parse) == v + [last] && InvalidLines(ls, parse) == w;
        assert (v + [last])[..|v|] == v;
        assert IsSubsequence(v + [last], ls);
        SubsequenceExtend(w, init, last);
      } else {
        assert InvalidLines(ls, parse) == w + [last] && ValidLines(ls, parse) == v;
        assert (w + [last])[..|w|] == w;
        assert IsSubsequence(w + [last], ls);
        SubsequenceExtend(v, init, last);
      }
    }
  }

  lemma SubsequenceExtend<T>(a: seq<T>, b: seq<T>, x: T)
    requires IsSubsequence(a, b)
    ensures IsSubsequence(a, b + [x])
  {
    assert (b + [x])[..|b|] == b;
  }

  // ---------------------------------------------------------------------------
  // Worked time and breaks over the parsed times

  /** The signed worked time of the first `k` IN/OUT pairs: the sum of
      `t[2j+1] - t[2j]` for `j < k`. */
  function PairedWork(t: seq<int>, k: nat): int
    requires 2 * k <= |t|
  {
    if k == 0 then 0 else PairedWork(t, k - 1) + (t[2 * k - 1] - t[2 * k - 2])
  }

  /** Worked time: every complete pair, plus `now - lastIn` when the last
      punch is an IN without an OUT. */
  function Worked(t: seq<int>, now: int): int {
    PairedWork(t, |t| / 2) + (if |t| % 2 == 1 then now - t[|t| - 1] else 0)
  }

  /** The break between OUT punch `2j+1` and IN punch `2j+2`. */
  function BreakAt(t: seq<int>, j: nat): BreakInfo
    requires 2 * j + 2 < |t|
  {
    BreakInfo(t[2 * j + 1], t[2 * j + 2], t[2 * j + 2] - t[2 * j + 1])
  }

  /** The first `k` breaks, in order. */
  function BreakList(t: seq<int>, k: nat): (r: seq<BreakInfo>)
    requires k == 0 || 2 * k < |t|
    ensures |r| == k
  {
    if k == 0 then [] else BreakList(t, k - 1) + [BreakAt(t, k - 1)]
  }

  /** Break `j` of the list is the gap from OUT punch `2j+1` to IN punch `2j+2`. */
  lemma {:induction false} BreakListAt(t: seq<int>, k: nat, j: nat)
    requires (k == 0 || 2 * k < |t|) && j < k
    ensures BreakList(t, k)[j] == BreakAt(t, j)
    ensures BreakList(t, k)[j].durationSeconds == t[2 * j + 2] - t[2 * j + 1]
  {
    if j < k - 1 {
      BreakListAt(t, k - 1, j);
    }
  }

  /** `max(0, floor((n - 1) / 2))`: the number of OUT punches followed by an IN. */
  function BreakCount(n: nat): nat {
    if n == 0 then 0 else (n - 1) / 2
  }

  /** The count is ⌊(n−1)/2⌋ for a non-empty list and 0 for an empty one:
      every OUT punch but a trailing one is followed by an IN. */
  lemma BreakCountBounds(n: nat)
    ensures n <= 1 ==> BreakCount(n) == 0
    ensures n >= 1 ==> 2 * BreakCount(n) + 1 <= n <= 2 * BreakCount(n) + 2
  {
  }

  function Breaks(t: seq<int>): seq<BreakInfo> {
    BreakList(t, BreakCount(|t|))
  }

  function TotalDuration(bs: seq<BreakInfo>): int {
    if bs == [] then 0 else TotalDuration(bs[..|bs| - 1]) + bs[|bs| - 1].durationSeconds
  }

  lemma TotalDurationAppend(bs: seq<BreakInfo>, b: BreakInfo)
    ensures TotalDuration(bs + [b]) == TotalDuration(bs) + b.durationSeconds
  {
    assert (bs + [b])[..|bs|] == bs;
  }

  /** Work and breaks tile the span: the first `k` pairs and the `k - 1`
      breaks between them add up to the time from the first IN to the `k`th OUT. */
  lemma {:induction false} WorkAndBreaksTile(t: seq<int>, k: nat)
    requires 1 <= k && 2 * k <= |t|
    ensures PairedWork(t, k) + TotalDuration(BreakList(t, k - 1)) == t[2 * k - 1] - t[0]
  {
    if k > 1 {
      WorkAndBreaksTile(t, k - 1);
      var b := BreakAt(t, k - 2);
      var bs := BreakList(t, k - 2);
      assert BreakList(t, k - 1) == bs + [b];
      TotalDurationAppend(bs, b);
      assert TotalDuration(BreakList(t, k - 1)) == TotalDuration(bs) + (t[2 * k - 2] - t[2 * k - 3]);
      assert PairedWork(t, k) == PairedWork(t, k - 1) + (t[2 * k - 1] - t[2 * k - 2]);
      assert PairedWork(t, k - 1) + TotalDuration(bs) == t[2 * k - 3] - t[0];
    }
  }

  /** Worked time plus break time is the whole span from the first punch to
      the last one, or to `now` while clocked in. */
  lemma SpanIdentity(t: seq<int>, now: int)
    requires |t| >= 1
    ensures Worked(t, now) + TotalDuration(Breaks(t)) == (if |t| % 2 == 1 then now else t[|t| - 1]) - t[0]
  {
    var n := |t|;
    var k := n / 2;
    if n % 2 == 0 {
      assert BreakCount(n) == k - 1;
      WorkAndBreaksTile(t, k);
    } else {
      assert BreakCount(n) == k && n - 1 == 2 * k;
      if k > 0 {
        WorkAndBreaksTile(t, k);
        var b := BreakAt(t, k - 1);
        assert BreakList(t, k) == BreakList(t, k - 1) + [b];
        TotalDurationAppend(BreakList(t, k - 1), b);
      }
    }
  }

  ghost predicate Nondecreasing(t: seq<int>) {
    forall i, j :: 0 <= i < j < |t| ==> t[i] <= t[j]
  }

  /** With punches in chronological order no pair and no break is negative. */
  lemma {:induction false} OrderedPunchesNonNegative(t: seq<int>, k: nat)
    requires 2 * k <= |t| && Nondecreasing(t)
    ensures PairedWork(t, k) >= 0
    ensures forall j :: 0 <= j < BreakCount(|t|) ==> BreakAt(t, j).durationSeconds >= 0
  {
    if k > 0 {
      OrderedPunchesNonNegative(t, k - 1);
    }
  }

  /** With punches in chronological order and the clock not behind an open
      IN, the worked time is not negative. */
  lemma OrderedDayWorkedNonNegative(t: seq<int>, now: int)
    requires Nondecreasing(t) && (|t| % 2 == 1 ==> now >= t[|t| - 1])
    ensures Worked(t, now) >= 0
  {
    OrderedPunchesNonNegative(t, |t| / 2);
  }

  /** Out of order, a pair subtracts: an OUT five seconds before its IN
      takes five seconds off the worked time, and a break can be negative too. */
  lemma OutOfOrderPunchesSubtract()
    ensures PairedWork([10, 5, 3], 1) == -5 && Worked([10, 5, 3], 3) == -5
    ensures Breaks([10, 5, 3]) == [BreakInfo(5, 3, -2)]
  {
    var t := [10, 5, 3];
    assert BreakCount(|t|) == 1;
  }

  // ---------------------------------------------------------------------------
  // calculate, stage by stage

  /** The `forEach` over the lines: each line goes to `validEntries` (and its
      time to `parsedTimes`) or to `invalidEntries`. The line parser is a
      parameter; `calculate` passes `ParseTime`. */
  method PartitionEntries(lines: seq<string>, parse: string -> Option<int>)
    returns (validEntries: seq<string>, invalidEntries: seq<string>, parsedTimes: seq<int>)
    ensures validEntries == ValidLines(lines, parse)
    ensures invalidEntries == InvalidLines(lines, parse)
    ensures parsedTimes == ParsedTimes(lines, parse)
  {
    validEntries, invalidEntries, parsedTimes := [], [], [];
    for j := 0 to |lines|
      invariant validEntries == ValidLines(lines[..j], parse)
      invariant invalidEntries == InvalidLines(lines[..j], parse)
      invariant parsedTimes == ParsedTimes(lines[..j], parse)
    {
      assert lines[..j + 1][..j] == lines[..j];
      var line := lines[j];
      var parsed := parse(line);
      match parsed {
        case Some(t) =>
          validEntries := validEntries + [line];
          parsedTimes := parsedTimes + [t];
        case None =>
          invalidEntries := invalidEntries + [line];
      }
    }
    assert lines[..|lines|] == lines;
  }

  /** The first `for` loop: IN at even index `i`, OUT at `i + 1`, for every
      complete pair. */
  method SumPairs(parsedTimes: seq<int>) returns (totalWorked: int)
    ensures totalWorked == PairedWork(parsedTimes, |parsedTimes| / 2)
  {
    var n := |parsedTimes|;
    totalWorked := 0;
    var i := 0;
    while i < n - 1
      invariant 0 <= i <= n && i % 2 == 0
      invariant totalWorked == PairedWork(parsedTimes, i / 2)
    {
      var inTime := parsedTimes[i];
      var outTime := parsedTimes[i + 1];
      totalWorked := totalWorked + (outTime - inTime);
      i := i + 2;
    }
  }

  /** The second `for` loop: a break from each OUT at odd index `i` to the IN
      at `i + 1`, when there is one. */
  method CollectBreaks(parsedTimes: seq<int>) returns (breaks: seq<BreakInfo>, totalBreak: int)
    ensures breaks == Breaks(parsedTimes)
    ensures totalBreak == TotalDuration(breaks)
  {
    var n := |parsedTimes|;
    breaks, totalBreak := [], 0;
    var i := 1;
    ghost var k := 0;
    while i < n - 1
      invariant i == 2 * k + 1 && (k == 0 || i <= n)
      invariant breaks == BreakList(parsedTimes, k)
      invariant totalBreak == TotalDuration(breaks)
    {
      var outTime := parsedTimes[i];
      var nextInTime := parsedTimes[i + 1];
      var breakDuration := nextInTime - outTime;
      totalBreak := totalBreak + breakDuration;
      TotalDurationAppend(breaks, BreakInfo(outTime, nextInTime, breakDuration));
      assert BreakAt(parsedTimes, k) == BreakInfo(outTime, nextInTime, breakDuration);
      breaks := breaks + [BreakInfo(outTime, nextInTime, breakDuration)];
      i, k := i + 2, k + 1;
    }
    assert k == BreakCount(n);
  }

  /** What `calculate` promises of its result for the trimmed non-blank
      `lines` of the log, the line parser `parse` and the clock sample `now`. */
  ghost predicate IsCalculation(r: CalculationResult, lines: seq<string>, parse: string -> Option<int>, now: int) {
    var t := ParsedTimes(lines, parse);
    // the partition of the lines, and the times of the valid ones
    && r.validEntries == ValidLines(lines, parse)
    && r.invalidEntries == InvalidLines(lines, parse)
    // the sums over the pairs and breaks
    && r.totalWorkedSeconds == Worked(t, now)
    && r.breaks == Breaks(t)
    && |r.breaks| == BreakCount(|r.validEntries|)
    && r.totalBreakSeconds == TotalDuration(r.breaks)
    // the status flags against the target
    && (r.isCurrentlyIn <==> |r.validEntries| % 2 == 1)
    && r.remainingSeconds == TargetSeconds - r.totalWorkedSeconds
    && (r.isComplete <==> r.remainingSeconds <= 0)
    // the projection, only while clocked in and short of the target
    && (r.completionTime.Some? <==> !r.isComplete && r.isCurrentlyIn)
    && (r.completionTime.Some? ==>
          r.completionTime.value == now + r.remainingSeconds && r.completionTime.value > now)
    // no valid entries: nothing worked, no breaks, not clocked in
    && (r.validEntries == [] ==>
          r.totalWorkedSeconds == 0 && r.breaks == [] && !r.isCurrentlyIn && r.completionTime == None)
    // work and breaks together span the first punch to the last (or to now)
    && (r.validEntries != [] ==>
          r.totalWorkedSeconds + r.totalBreakSeconds == (if r.isCurrentlyIn then now else t[|t| - 1]) - t[0])
  }

  /** The accounting of `calculate` once the log is split into lines. */
  method CalculateLines(lines: seq<string>, currentTime: int) returns (r: CalculationResult)
    ensures IsCalculation(r, lines, ParseTime, currentTime)
  {
    var validEntries, invalidEntries, parsedTimes := PartitionEntries(lines, ParseTime);
    var n := |parsedTimes|;

    var totalWorked := SumPairs(parsedTimes);
    var breaks, totalBreak := CollectBreaks(parsedTimes);

    var isCurrentlyIn := n % 2 == 1;
    if isCurrentlyIn {
      var lastIn := parsedTimes[n - 1];
      totalWorked := totalWorked + (currentTime - lastIn);
    }

    var remaining := TargetSeconds - totalWorked;
    var isComplete := remaining <= 0;

    var completionTime: Option<int> := None;
    if !isComplete && isCurrentlyIn {
      completionTime := Some(currentTime + remaining);
    }

    if n > 0 {
      SpanIdentity(parsedTimes, currentTime);
    }
    r := CalculationResult(validEntries, invalidEntries, totalWorked, remaining, completionTime,
                           isComplete, isCurrentlyIn, totalBreak, breaks);
  }

  /** `calculate`, for the log text `punchLog` and the clock sample
      `currentTime` (seconds since midnight). */
  method Calculate(punchLog: string, currentTime: int) returns (r: CalculationResult)
    ensures IsCalculation(r, Lines(punchLog), ParseTime, currentTime)
  {
    r := CalculateLines(Lines(punchLog), currentTime);
  }

  // ---------------------------------------------------------------------------
  // Worked examples

  /** Four lines that parse followed by one that does not: the four are the
      valid entries, in order, with their times, and the last is the one
      invalid entry. */
  lemma PartitionFourThenOne(lines: seq<string>, a: int, b: int, c: int, d: int, parse: string -> Option<int>)
    requires |lines| == 5
    requires parse(lines[0]) == Some(a) && parse(lines[1]) == Some(b)
    requires parse(lines[2]) == Some(c) && parse(lines[3]) == Some(d)
    requires parse(lines[4]).None?
    ensures ValidLines(lines, parse) == lines[..4]
    ensures InvalidLines(lines, parse) == [lines[4]]
    ensures ParsedTimes(lines, parse) == [a, b, c, d]
  {
    var init := lines[..4];
    assert forall k :: 0 <= k < 4 ==> init[k] == lines[k];
    AllLinesParse(init, parse);
    var times := ParsedTimes(init, parse);
    assert |times| == 4 && times[0] == a && times[1] == b && times[2] == c && times[3] == d;
    assert times == [a, b, c, d];
    assert lines == init + [lines[4]];
    PartitionSnoc(init, lines[4], parse);
  }

  /** A log whose every line parses is kept whole, each line with its time. */
  lemma {:induction false} AllLinesParse(ls: seq<string>, parse: string -> Option<int>)
    requires forall k :: 0 <= k < |ls| ==> parse(ls[k]).Some?
    ensures ValidLines(ls, parse) == ls && InvalidLines(ls, parse) == []
    ensures forall k :: 0 <= k < |ls| ==> ParsedTimes(ls, parse)[k] == parse(ls[k]).value
  {
    if ls != [] {
      var init := ls[..|ls| - 1];
      AllLinesParse(init, parse);
      assert init + [ls[|ls| - 1]] == ls;
    }
  }

  /** One more line at the end lands at the end of the list it belongs to. */
  lemma PartitionSnoc(ls: seq<string>, x: string, parse: string -> Option<int>)
    ensures ValidLines(ls + [x], parse) == ValidLines(ls, parse) + (if parse(x).Some? then [x] else [])
    ensures InvalidLines(ls + [x], parse) == InvalidLines(ls, parse) + (if parse(x).None? then [x] else [])
    ensures ParsedTimes(ls + [x], parse) == ParsedTimes(ls, parse) + (match parse(x) case Some(t) => [t] case None => [])
  {
    assert (ls + [x])[..|ls|] == ls;
  }

  /** The times of a day of two pairs: 2h 21m 1s and 4h 38m 27s worked, and
      one break of 21m 33s between them. */
  lemma TwoPairsTimes(now: int)
    ensures Worked([38339, 46800, 48093, 64800], now) == 25168
    ensures Breaks([38339, 46800, 48093, 64800]) == [BreakInfo(46800, 48093, 1293)]
    ensures TotalDuration(Breaks([38339, 46800, 48093, 64800])) == 1293
  {
    var t := [38339, 46800, 48093, 64800];
    assert PairedWork(t, 1) == 8461;
    assert PairedWork(t, 2) == 8461 + 16707;
    assert BreakCount(|t|) == 1;
    assert Breaks(t) == [] + [BreakAt(t, 0)];
  }

  /** A day of two pairs and a rejected line, whatever the parser: 6h 59m
      worked, 1h 16m remaining, and with the last punch an OUT there is no
      projection. */
  lemma TwoPairsDay(lines: seq<string>, parse: string -> Option<int>, now: int, r: CalculationResult)
    requires |lines| == 5
    requires parse(lines[0]) == Some(38339) && parse(lines[1]) == Some(46800)
    requires parse(lines[2]) == Some(48093) && parse(lines[3]) == Some(64800)
    requires parse(lines[4]).None?
    requires IsCalculation(r, lines, parse, now)
    ensures r.validEntries == lines[..4] && r.invalidEntries == [lines[4]]
    ensures r.totalWorkedSeconds == 25168 && FormatDuration(r.totalWorkedSeconds) == "6h 59m"
    ensures r.breaks == [BreakInfo(46800, 48093, 1293)] && r.totalBreakSeconds == 1293
    ensures r.remainingSeconds == 4532 && FormatDuration(r.remainingSeconds) == "1h 16m"
    ensures !r.isComplete && !r.isCurrentlyIn && r.completionTime == None
  {
    PartitionFourThenOne(lines, 38339, 46800, 48093, 64800, parse);
    TwoPairsTimes(now);
    FormatDurationSamples();
  }

  /** The same day written as punch-log lines, with a stray word among them. */
  lemma TwoPairsWithRejectedLine(lines: seq<string>, now: int, r: CalculationResult)
    requires |lines| == 5 && lines[0] == "10:38:59 AM" && lines[1] == "1:00:00 PM"
    requires lines[2] == "1:21:33 PM" && lines[3] == "6:00:00 PM" && lines[4] == "MISSING"
    requires IsCalculation(r, lines, ParseTime, now)
    ensures r.validEntries == lines[..4] && r.invalidEntries == [lines[4]]
    ensures r.totalWorkedSeconds == 25168 && FormatDuration(r.totalWorkedSeconds) == "6h 59m"
    ensures r.breaks == [BreakInfo(46800, 48093, 1293)] && r.totalBreakSeconds == 1293
    ensures r.remainingSeconds == 4532 && FormatDuration(r.remainingSeconds) == "1h 16m"
    ensures !r.isComplete && !r.isCurrentlyIn && r.completionTime == None
  {
    ParseTimeMorning();
    ParseTimeOnePm();
    ParseTimeAfternoon();
    ParseTimeSixPm();
    ParseTimeWord();
    TwoPairsDay(lines, ParseTime, now, r);
  }

  /** A single IN punch at `start`, whatever the parser: the time since then
      is worked; the projection is `start` plus the target until the target
      is reached, and from then on the day is complete with no projection
      although the punch is still open. */
  lemma SingleOpenPunch(lines: seq<string>, parse: string -> Option<int>, start: int, now: int, r: CalculationResult)
    requires |lines| == 1 && parse(lines[0]) == Some(start)
    requires IsCalculation(r, lines, parse, now)
    ensures r.validEntries == lines && r.invalidEntries == []
    ensures r.isCurrentlyIn && r.breaks == [] && r.totalBreakSeconds == 0
    ensures r.totalWorkedSeconds == now - start
    ensures r.isComplete <==> now >= start + TargetSeconds
    ensures r.completionTime == if now < start + TargetSeconds then Some(start + TargetSeconds) else None
  {
    assert lines[..0] == [];
  }

  /** One IN punch at nine: the projection is a quarter past five in the
      afternoon until then. */
  lemma SingleClockIn(lines: seq<string>, now: int, r: CalculationResult)
    requires |lines| == 1 && lines[0] == "9:00:00 AM"
    requires IsCalculation(r, lines, ParseTime, now)
    ensures r.totalWorkedSeconds == now - 32400 && r.isCurrentlyIn
    ensures r.isComplete <==> now >= 62100
    ensures r.completionTime == if now < 62100 then Some(62100) else None
  {
    ParseTimeNineAm();
    SingleOpenPunch(lines, ParseTime, 32400, now, r);
  }
}
