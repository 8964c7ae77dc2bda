/** Character classes, trimming, line splitting and decimal numerals, in the
    meaning the punch-log calculator gets from JavaScript's `String.prototype.trim`,
    `String.prototype.split("\n")`, the regular-expression classes `\s` and `\d`,
    and `parseInt(_, 10)` applied to a run of decimal digits. */
module Text {

  datatype Option<T> = None | Some(value: T)

  /** The ECMAScript WhiteSpace and LineTerminator code points: the set that
      both `trim()` strips and the regular-expression class `\s` matches. */
  predicate IsSpace(c: char) {
    c == '\t' || c == '\n' || c == '\U{000B}' || c == '\U{000C}' || c == '\r' || c == ' '
    || c == '\U{00A0}' || c == '\U{1680}' || ('\U{2000}' <= c <= '\U{200A}')
    || c == '\U{2028}' || c == '\U{2029}' || c == '\U{202F}' || c == '\U{205F}'
    || c == '\U{3000}' || c == '\U{FEFF}'
  }

  /** `\d` without the unicode flag: the ASCII digits only. */
  predicate IsDigit(c: char) {
    '0' <= c <= '9'
  }

  predicate AllSpace(s: string) {
    forall k :: 0 <= k < |s| ==> IsSpace(s[k])
  }

  predicate AllDigits(s: string) {
    forall k :: 0 <= k < |s| ==> IsDigit(s[k])
  }

  /** Drops the leading whitespace: what is left is a suffix of `s` and the
      part dropped is whitespace only. */
  function TrimStart(s: string): (r: string)
    ensures |r| <= |s| && r == s[|s| - |r|..]
    ensures AllSpace(s[..|s| - |r|])
    ensures r == [] || !IsSpace(r[0])
  {
    if |s| > 0 && IsSpace(s[0]) then
      var r := TrimStart(s[1..]);
      assert s[..|s| - |r|] == [s[0]] + s[1..][..|s| - 1 - |r|];
      r
    else
      s
  }

  /** Drops the trailing whitespace: what is left is a prefix of `s` and the
      part dropped is whitespace only. */
  function TrimEnd(s: string): (r: string)
    ensures |r| <= |s| && r == s[..|r|]
    ensures AllSpace(s[|r|..])
    ensures r == [] || !IsSpace(r[|r| - 1])
  {
    if |s| > 0 && IsSpace(s[|s| - 1]) then
      var r := TrimEnd(s[..|s| - 1]);
      assert s[|r|..] == s[..|s| - 1][|r|..] + [s[|s| - 1]];
      r
    else
      s
  }

  /** `String.prototype.trim`: what is left once the whitespace at both ends
      is gone (`TrimInfix`: the infix of `s` between a leading and a trailing
      whitespace run); it is empty exactly when `s` is whitespace only. */
  function Trim(s: string): (r: string)
    ensures |r| <= |s|
    ensures r == [] || (!IsSpace(r[0]) && !IsSpace(r[|r| - 1]))
    ensures r == [] <==> AllSpace(s)
  {
    var u := TrimStart(s);
    var r := TrimEnd(u);
    TrimInfix(s, u, r);
    r
  }

  /** The leading whitespace `TrimStart` drops, then the trailing whitespace
      `TrimEnd` drops, leave an infix of `s` with whitespace only on either
      side; nothing is left exactly when `s` is whitespace only. */
  lemma TrimInfix(s: string, u: string, r: string)
    requires |u| <= |s| && u == s[|s| - |u|..] && AllSpace(s[..|s| - |u|]) && (u == [] || !IsSpace(u[0]))
    requires |r| <= |u| && r == u[..|r|] && AllSpace(u[|r|..])
    ensures var i := |s| - |u|;
      0 <= i <= |s| - |r| && r == s[i..i + |r|] && AllSpace(s[..i]) && AllSpace(s[i + |r|..])
    ensures r == [] <==> AllSpace(s)
  {
    var i := |s| - |u|;
    assert r == u[..|r|] == s[i..][..|r|] == s[i..i + |r|];
    assert s[i + |r|..] == u[|r|..];
    if r == [] {
      AllSpaceConcat(s[..i], u);
      assert s == s[..i] + u;
    }
  }

  lemma AllSpaceConcat(a: string, b: string)
    requires AllSpace(a) && AllSpace(b)
    ensures AllSpace(a + b)
  {
    forall k | 0 <= k < |a + b| ensures IsSpace((a + b)[k]) {
      if k < |a| { assert (a + b)[k] == a[k]; } else { assert (a + b)[k] == b[k - |a|]; }
    }
  }

  /** Trimming a string twice trims it once: `parseTime` trims lines that
      `calculate` has trimmed already. */
  lemma TrimIdempotent(s: string)
    ensures Trim(Trim(s)) == Trim(s)
  {
    var r := Trim(s);
    if r != [] {
      assert TrimStart(r) == r;
      assert TrimEnd(r) == r;
    }
  }

  /** The inverse of splitting: the pieces glued back with a newline between
      each neighbouring pair. */
  function Join(pieces: seq<string>): string
    requires |pieces| >= 1
  {
    if |pieces| == 1 then pieces[0] else pieces[0] + "\n" + Join(pieces[1..])
  }

  /** `s.split("\n")`: at least one piece, no piece holds a newline, and
      joining the pieces with newlines gives `s` back. */
  function Split(s: string): (r: seq<string>)
    ensures |r| >= 1
    ensures forall k :: 0 <= k < |r| ==> '\n' !in r[k]
    ensures Join(r) == s
  {
    if s == [] then
      [""]
    else
      var rest := Split(s[1..]);
      if s[0] == '\n' then
        assert Join([""] + rest) == "" + "\n" + Join(rest);
        [""] + rest
      else
        var r := [[s[0]] + rest[0]] + rest[1..];
        assert r[1..] == rest[1..];
        assert s == [s[0]] + s[1..];
        r
  }

  /** Splitting a piece without newlines followed by more text: the piece is
      glued to the front of the first piece of the rest. */
  lemma {:induction false} SplitPrefix(p: string, tail: string)
    requires '\n' !in p
    ensures Split(p + tail) == [p + Split(tail)[0]] + Split(tail)[1..]
    decreases |p|
  {
    if p != [] {
      assert (p + tail)[1..] == p[1..] + tail;
      assert '\n' !in p[1..] by {
        forall k | 0 <= k < |p[1..]| ensures p[1..][k] != '\n' {
          assert p[1..][k] == p[k + 1];
        }
      }
      SplitPrefix(p[1..], tail);
      assert [p[0]] + (p[1..] + Split(tail)[0]) == p + Split(tail)[0];
    } else {
      assert p + tail == tail;
      assert p + Split(tail)[0] == Split(tail)[0];
      assert Split(tail) == [Split(tail)[0]] + Split(tail)[1..];
    }
  }

  /** The other round trip: pieces without newlines, joined and split again,
      come back unchanged. */
  lemma {:induction false} SplitJoin(pieces: seq<string>)
    requires |pieces| >= 1
    requires forall k :: 0 <= k < |pieces| ==> '\n' !in pieces[k]
    ensures Split(Join(pieces)) == pieces
  {
    if |pieces| == 1 {
      SplitPrefix(pieces[0], "");
      assert pieces[0] + "" == pieces[0];
    } else {
      var tail := "\n" + Join(pieces[1..]);
      SplitJoin(pieces[1..]);
      assert tail[1..] == Join(pieces[1..]);
      assert Split(tail) == [""] + pieces[1..];
      assert Join(pieces) == pieces[0] + tail;
      SplitPrefix(pieces[0], tail);
      assert pieces[0] + "" == pieces[0];
    }
  }

  function DigitValue(c: char): nat
    requires IsDigit(c)
  {
    (c as int) - ('0' as int)
  }

  function DigitChar(d: nat): (c: char)
    requires d < 10
    ensures IsDigit(c) && DigitValue(c) == d
  {
    (('0' as int) + d) as char
  }

  /** `parseInt(s, 10)` of a run of decimal digits (most significant first). */
  function DigitsValue(s: string): nat
    requires AllDigits(s)
  {
    if s == [] then 0 else DigitsValue(s[..|s| - 1]) * 10 + DigitValue(s[|s| - 1])
  }

  /** The decimal numeral of `n` as a template literal prints it: digits only,
      no leading zero, and read back by `DigitsValue` it is `n` again. */
  function NatToString(n: nat): (r: string)
    ensures |r| >= 1 && AllDigits(r)
    ensures |r| == 1 || r[0] != '0'
    ensures DigitsValue(r) == n
    ensures n < 10 ==> |r| == 1
    ensures 10 <= n < 100 ==> |r| == 2
    decreases n
  {
    if n < 10 then
      [DigitChar(n)]
    else
      var r := NatToString(n / 10) + [DigitChar(n % 10)];
      assert r[..|r| - 1] == NatToString(n / 10);
      r
  }

  /** Two digits, with a leading zero below ten. */
  function Pad2(n: nat): (r: string)
    requires n < 100
    ensures |r| == 2 && AllDigits(r)
    ensures DigitsValue(r) == n
  {
    if n < 10 then
      var r := ['0', DigitChar(n)];
      assert r[..1] == ['0'] && ['0'][..0] == [];
      r
    else
      NatToString(n)
  }
}
