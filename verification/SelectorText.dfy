/** Text operations the workspace selectors are read with: trimming, splitting, and
    parsing of 64-bit and 32-bit integers. */
module SelectorText {
  import opened Common

  /** The White_Space property of Unicode. */
  predicate White(c: char) {
    var n := c as int;
    9 <= n <= 13 || n == 32 || n == 0x85 || n == 0xA0 || n == 0x1680 || 0x2000 <= n <= 0x200A
    || n == 0x2028 || n == 0x2029 || n == 0x202F || n == 0x205F || n == 0x3000
  }

  /** The code points of that property, one by one. */
  lemma WhiteSpaces(c: char)
    ensures White(c) <==> c as int in {
      0x9, 0xA, 0xB, 0xC, 0xD, 0x20, 0x85, 0xA0, 0x1680, 0x2000, 0x2001, 0x2002, 0x2003, 0x2004, 0x2005, 0x2006,
      0x2007, 0x2008, 0x2009, 0x200A, 0x2028, 0x2029, 0x202F, 0x205F, 0x3000}
  {
  }

  predicate AllWhite(s: string) {
    forall i :: 0 <= i < |s| ==> White(s[i])
  }

  function TrimStart(s: string): string {
    if s != "" && White(s[0]) then TrimStart(s[1..]) else s
  }

  function TrimEnd(s: string): string {
    if s != "" && White(s[|s| - 1]) then TrimEnd(s[..|s| - 1]) else s
  }

  function Trim(s: string): string {
    TrimStart(TrimEnd(s))
  }

  lemma {:induction false} TrimStartSpace(space: string, s: string)
    requires AllWhite(space) && (s == "" || !White(s[0]))
    ensures TrimStart(space + s) == s
  {
    if space == "" {
      assert space + s == s;
    } else {
      assert (space + s)[1..] == space[1..] + s;
      TrimStartSpace(space[1..], s);
    }
  }

  lemma {:induction false} TrimEndSpace(s: string, space: string)
    requires AllWhite(space)
    ensures TrimEnd(s + space) == TrimEnd(s)
  {
    if space == "" {
      assert s + space == s;
    } else {
      assert (s + space)[..|s + space| - 1] == s + space[..|space| - 1];
      TrimEndSpace(s, space[..|space| - 1]);
    }
  }

  /** Trimming the end stops at the first half when that does not end in a space. */
  lemma {:induction false} TrimEndKeeps(s: string, t: string)
    requires s != "" && !White(s[|s| - 1])
    ensures TrimEnd(s + t) == s + TrimEnd(t)
  {
    if t == "" {
      assert s + t == s;
    } else {
      assert (s + t)[|s + t| - 1] == t[|t| - 1];
      if White(t[|t| - 1]) {
        assert (s + t)[..|s + t| - 1] == s + t[..|t| - 1];
        TrimEndKeeps(s, t[..|t| - 1]);
      }
    }
  }

  lemma TrimNothing(s: string)
    requires s != "" && !White(s[0]) && !White(s[|s| - 1])
    ensures Trim(s) == s
  {
    assert TrimEnd(s) == s;
  }

  // ----- Splitting -----

  function IndexOf(s: string, c: char): (i: nat)
    ensures i <= |s| && c !in s[..i] && (i < |s| ==> s[i] == c)
  {
    if s == "" then 0
    else if s[0] == c then 0
    else
      assert s[..1 + IndexOf(s[1..], c)] == [s[0]] + s[1..][..IndexOf(s[1..], c)];
      1 + IndexOf(s[1..], c)
  }

  /** There is one first occurrence. */
  lemma IndexOfIs(before: string, c: char, after: string)
    requires c !in before
    ensures IndexOf(before + [c] + after, c) == |before|
  {
    var s := before + [c] + after;
    var i := IndexOf(s, c);
    assert s[|before|] == c;
    assert forall k :: 0 <= k < |before| ==> s[k] == before[k];
    forall k | 0 <= k < i ensures s[k] != c {
      assert s[..i][k] == s[k];
    }
  }

  lemma IndexOfNone(s: string, c: char)
    requires c !in s
    ensures IndexOf(s, c) == |s|
  {
  }

  function SplitOnce(s: string, c: char): Option<(string, string)> {
    var i := IndexOf(s, c);
    if i < |s| then Some((s[..i], s[i + 1..])) else None
  }

  function Split(s: string, c: char): seq<string>
    decreases |s|
  {
    var i := IndexOf(s, c);
    if i < |s| then [s[..i]] + Split(s[i + 1..], c) else [s]
  }

  lemma SplitOnceIs(before: string, c: char, after: string)
    requires c !in before
    ensures SplitOnce(before + [c] + after, c) == Some((before, after))
  {
    IndexOfIs(before, c, after);
    assert (before + [c] + after)[..|before|] == before;
    assert (before + [c] + after)[|before| + 1..] == after;
  }

  lemma SplitFirst(before: string, c: char, after: string)
    requires c !in before
    ensures Split(before + [c] + after, c) == [before] + Split(after, c)
  {
    IndexOfIs(before, c, after);
    assert (before + [c] + after)[..|before|] == before;
    assert (before + [c] + after)[|before| + 1..] == after;
  }

  lemma NotAPrefix(prefix: string, s: string, i: nat)
    requires i < |prefix| && i < |s| && prefix[i] != s[i]
    ensures !(prefix <= s)
  {
  }

  predicate EndsWith(s: string, suffix: string) {
    |suffix| <= |s| && s[|s| - |suffix|..] == suffix
  }

  // ----- Integers -----

  const I64_MIN: int := -0x8000_0000_0000_0000
  const I64_MAX: int := 0x7FFF_FFFF_FFFF_FFFF
  const I32_MIN: int := -0x8000_0000
  const I32_MAX: int := 0x7FFF_FFFF

  function DigitValue(c: char): Option<nat> {
    if '0' <= c <= '9' then Some(c as int - '0' as int)
    else if 'a' <= c <= 'z' then Some(c as int - 'a' as int + 10)
    else if 'A' <= c <= 'Z' then Some(c as int - 'A' as int + 10)
    else None
  }

  function Magnitude(digits: string, radix: nat): Option<nat> {
    if digits == "" then Some(0)
    else
      var front, last := Magnitude(digits[..|digits| - 1], radix), DigitValue(digits[|digits| - 1]);
      if front.Some? && last.Some? && last.value < radix then Some(front.value * radix + last.value) else None
  }

  /** An optional sign and at least one digit, within the bounds. */
  function ParseInt(s: string, radix: nat, low: int, high: int): Option<int> {
    var signed := s != "" && (s[0] == '+' || s[0] == '-');
    var digits := if signed then s[1..] else s;
    var magnitude := Magnitude(digits, radix);
    if digits == "" || magnitude.None? then None
    else
      var n: int := if signed && s[0] == '-' then 0 - magnitude.value else magnitude.value;
      if low <= n <= high then Some(n) else None
  }

  function ParseI64(s: string): Option<int> {
    ParseInt(s, 10, I64_MIN, I64_MAX)
  }

  function DigitsOf(n: nat): string {
    (if n < 10 then "" else DigitsOf(n / 10)) + [DigitChar(n % 10)]
  }

  function Show(n: int): string {
    if n < 0 then "-" + DigitsOf(-n) else DigitsOf(n)
  }

  predicate IsDigit(c: char) {
    '0' <= c <= '9'
  }

  function DigitChar(d: nat): char
    requires d < 10
  {
    ('0' as int + d) as char
  }

  lemma DigitCharsAreDigits(d: nat)
    requires d < 10
    ensures IsDigit(DigitChar(d)) && DigitValue(DigitChar(d)) == Some(d)
  {
  }

  lemma {:induction false} DigitsComeBack(n: nat)
    ensures DigitsOf(n) != "" && Magnitude(DigitsOf(n), 10) == Some(n)
    ensures forall i :: 0 <= i < |DigitsOf(n)| ==> IsDigit(DigitsOf(n)[i])
  {
    var front := if n < 10 then "" else DigitsOf(n / 10);
    var last := DigitChar(n % 10);
    DigitCharsAreDigits(n % 10);
    if n >= 10 {
      DigitsComeBack(n / 10);
    }
    assert Magnitude(front, 10) == Some(n / 10);
    assert DigitsOf(n) == front + [last];
    MagnitudeSnoc(front, last, 10);
  }

  lemma MagnitudeSnoc(front: string, last: char, radix: nat)
    requires Magnitude(front, radix).Some? && DigitValue(last).Some? && DigitValue(last).value < radix
    ensures Magnitude(front + [last], radix) == Some(Magnitude(front, radix).value * radix + DigitValue(last).value)
  {
    assert (front + [last])[..|front|] == front;
  }

  lemma DigitsAreNotWhite(c: char)
    requires IsDigit(c) || c == '-'
    ensures !White(c)
  {
  }

  lemma ShowEnds(n: int)
    ensures Show(n) != "" && !White(Show(n)[0]) && !White(Show(n)[|Show(n)| - 1])
  {
    var digits := DigitsOf(if n < 0 then -n else n);
    DigitsComeBack(if n < 0 then -n else n);
    assert Show(n) == if n < 0 then "-" + digits else digits;
    assert Show(n)[|Show(n)| - 1] == digits[|digits| - 1];
    assert Show(n)[0] == if n < 0 then '-' else digits[0];
    DigitsAreNotWhite(Show(n)[0]);
    DigitsAreNotWhite(Show(n)[|Show(n)| - 1]);
  }

  /** A printed integer is read back. */
  lemma PrintedIntegersComeBack(n: int)
    requires I64_MIN <= n <= I64_MAX
    ensures ParseI64(Show(n)) == Some(n)
  {
    DigitsComeBack(if n < 0 then -n else n);
    if n < 0 {
      assert Show(n)[1..] == DigitsOf(-n);
    } else {
      assert IsDigit(Show(n)[0]);
    }
  }

  /** A character that is neither sign nor digit spoils an integer. */
  lemma {:induction false} NotAMagnitude(s: string, i: nat)
    requires i < |s| && !IsDigit(s[i])
    ensures Magnitude(s, 10).None?
  {
    if i < |s| - 1 {
      NotAMagnitude(s[..|s| - 1], i);
    }
  }

  lemma NotAnInteger(s: string)
    requires s != "" && !IsDigit(s[0]) && s[0] != '+' && s[0] != '-'
    ensures ParseI64(s).None?
  {
    NotAMagnitude(s, 0);
  }
}
