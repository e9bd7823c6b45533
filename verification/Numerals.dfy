/**
  Numerals: what a string of digits denotes, how strtol reads a string, and what
  ltostr and printnum write.
 */
module Numerals {

  // ---------- C's 32-bit long ----------

  const WORD: int := 0x1_0000_0000
  const LONG_MIN: int := -0x8000_0000
  const LONG_MAX: int := 0x7fff_ffff

  function Wrap(x: int): (w: int)
    ensures LONG_MIN <= w <= LONG_MAX
  {
    (x - LONG_MIN) % WORD + LONG_MIN
  }

  /** Division and remainder that truncate toward zero. */
  function TruncDiv(x: int, y: int): int
    requires y > 0
  {
    if x >= 0 then x / y else -(-x / y)
  }

  function TruncMod(x: int, y: int): int
    requires y > 0
  {
    if x >= 0 then x % y else -(-x % y)
  }

  lemma WrapShift(x: int, q: int)
    ensures Wrap(x + q * WORD) == Wrap(x)
  {
    ModShift(x - LONG_MIN, q);
  }

  lemma ModShift(x: int, q: int)
    ensures (x + q * WORD) % WORD == x % WORD
  {
    var d, r := x / WORD, x % WORD;
    assert x + q * WORD == (d + q) * WORD + r;
  }

  lemma WrapIsShift(x: int) returns (q: int)
    ensures x == Wrap(x) + q * WORD
  {
    q := (x - LONG_MIN) / WORD;
  }

  /** One step of the digit loop on the wrapped value is the step on the number. */
  lemma WrapStep(x: int, b: int, d: int)
    ensures Wrap(Wrap(x) * b + d) == Wrap(x * b + d)
  {
    var q := WrapIsShift(x);
    assert x * b + d == (Wrap(x) * b + d) + (q * b) * WORD by {
      assert (Wrap(x) + q * WORD) * b == Wrap(x) * b + (q * b) * WORD;
    }
    WrapShift(Wrap(x) * b + d, q * b);
  }

  lemma WrapNeg(x: int)
    ensures Wrap(-Wrap(x)) == Wrap(-x)
  {
    WrapStep(x, -1, 0);
  }

  lemma WrapFixIff(x: int)
    ensures Wrap(x) == x <==> LONG_MIN <= x <= LONG_MAX
  {}

  // ---------- What digits denote ----------

  /** The value of a digit, or -1. */
  function DigitOf(c: char): int {
    if '0' <= c <= '9' then c as int - '0' as int
    else if 'a' <= c <= 'z' then c as int - 'a' as int + 10
    else if 'A' <= c <= 'Z' then c as int - 'A' as int + 10
    else -1
  }

  predicate IsDigit(c: char, base: int) { 0 <= DigitOf(c) < base }

  /** The number a string of digits denotes. */
  function ValueOf(ds: string, base: int): int {
    if ds == [] then 0 else ValueOf(ds[..|ds| - 1], base) * base + DigitOf(ds[|ds| - 1])
  }

  function Zeros(n: nat): string { seq(n, _ => '0') }

  lemma {:induction false} ZerosValue(n: nat, base: int)
    ensures ValueOf(Zeros(n), base) == 0
  {
    if n > 0 {
      ZerosValue(n - 1, base);
      assert Zeros(n)[..n - 1] == Zeros(n - 1);
    }
  }

  lemma {:induction false} LeadingZeros(n: nat, ds: string, base: int)
    ensures ValueOf(Zeros(n) + ds, base) == ValueOf(ds, base)
    decreases |ds|
  {
    var s := Zeros(n) + ds;
    if ds == [] {
      ZerosValue(n, base);
      assert s == Zeros(n);
    } else {
      LeadingZeros(n, ds[..|ds| - 1], base);
      assert s[..|s| - 1] == Zeros(n) + ds[..|ds| - 1];
    }
  }

  // ---------- strtol ----------

  /** Strings end at their length, where C sees the NUL. */
  function At(s: string, i: nat): char { if i < |s| then s[i] else '\0' }

  predicate Blank(c: char) { c == ' ' || c == '\t' }

  function SkipBlanks(s: string, i: nat): (j: nat)
    requires i <= |s|
    ensures i <= j <= |s|
    decreases |s| - i
  {
    if Blank(At(s, i)) then SkipBlanks(s, i + 1) else i
  }

  function DigitsEnd(s: string, i: nat, base: int): (j: nat)
    requires i <= |s|
    ensures i <= j <= |s|
    decreases |s| - i
  {
    if IsDigit(At(s, i), base) then DigitsEnd(s, i + 1, base) else i
  }

  /** The digits read are the longest run of them. */
  lemma {:induction false} LongestRun(s: string, i: nat, base: int)
    requires i <= |s|
    ensures var j := DigitsEnd(s, i, base);
      !IsDigit(At(s, j), base) && (forall k :: i <= k < j ==> IsDigit(s[k], base))
    decreases |s| - i
  {
    if IsDigit(At(s, i), base) { LongestRun(s, i + 1, base); }
  }

  /** Where the digits start and in which base, after an optional prefix. */
  function Prefix(s: string, i: nat, base: int): (r: (nat, int))
    requires i <= |s|
    ensures i <= r.0 <= |s|
  {
    if (base == 0 || base == 16) && At(s, i) == '0' && At(s, i + 1) == 'x' then (i + 2, 16)
    else if base == 0 && At(s, i) == '0' then (i + 1, 8)
    else if base == 0 then (i, 10)
    else (i, base)
  }

  /** What strtol answers: blanks, a sign, a prefix, then the longest run of digits. */
  function Parse(s: string, base: int): (int, nat) {
    var i := SkipBlanks(s, 0);
    var signed := At(s, i) == '+' || At(s, i) == '-';
    var (start, b) := Prefix(s, if signed then i + 1 else i, base);
    var end := DigitsEnd(s, start, b);
    var number := ValueOf(s[start..end], b);
    (Wrap(if At(s, i) == '-' then -number else number), end)
  }

  /** One digit more, in the arithmetic of a long. */
  lemma OneMoreDigit(s: string, start: nat, end: nat, base: int)
    requires start <= end < |s|
    ensures Wrap(ValueOf(s[start..end + 1], base)) == Wrap(Wrap(ValueOf(s[start..end], base)) * base + DigitOf(s[end]))
  {
    var ds := s[start..end + 1];
    assert ds[..|ds| - 1] == s[start..end];
    WrapStep(ValueOf(s[start..end], base), base, DigitOf(s[end]));
  }

  /** The digit loop of strtol */
  method ReadDigits(s: string, start: nat, base: int) returns (val: int, end: nat)
    requires start <= |s|
    ensures end == DigitsEnd(s, start, base) && val == Wrap(ValueOf(s[start..end], base))
  {
    val, end := 0, start;
    while true
      invariant start <= end <= |s| && DigitsEnd(s, start, base) == DigitsEnd(s, end, base)
      invariant val == Wrap(ValueOf(s[start..end], base))
      decreases |s| - end
    {
      var c := At(s, end);
      var dig := DigitOf(c);
      if dig < 0 || dig >= base { break; }
      OneMoreDigit(s, start, end, base);
      end, val := end + 1, Wrap(val * base + dig);
    }
  }

  /** The blank loop of strtol */
  method ReadBlanks(s: string) returns (i: nat)
    ensures i == SkipBlanks(s, 0)
  {
    i := 0;
    while Blank(At(s, i))
      invariant i <= |s| && SkipBlanks(s, 0) == SkipBlanks(s, i)
      decreases |s| - i
    {
      i := i + 1;
    }
  }

  /** The prefix tests of strtol */
  method ReadPrefix(s: string, start: nat, base: int) returns (i: nat, b: int)
    requires start <= |s|
    ensures (i, b) == Prefix(s, start, base)
  {
    i, b := start, base;
    if (b == 0 || b == 16) && At(s, i) == '0' && At(s, i + 1) == 'x' {
      i, b := i + 2, 16;
    } else if b == 0 && At(s, i) == '0' {
      i, b := i + 1, 8;
    } else if b == 0 {
      b := 10;
    }
  }

  /** strtol */
  method Strtol(s: string, base: int) returns (val: int, end: nat)
    ensures (val, end) == Parse(s, base)
  {
    var neg := false;
    var i := ReadBlanks(s);
    if At(s, i) == '+' {
      i := i + 1;
    } else if At(s, i) == '-' {
      i, neg := i + 1, true;
    }
    var start, b := ReadPrefix(s, i, base);
    val, end := ReadDigits(s, start, b);
    if neg {
      WrapNeg(ValueOf(s[start..end], b));
      val := Wrap(-val);
    }
  }

  // ---------- What strtol reads ----------

  const LOWER: string := "0123456789abcdefghijklmnopqrstuvwxyz"
  const UPPER: string := "0123456789ABCDEFGHIJKLMNOPQRSTUVWXYZ"

  /** Digit d is written with the d-th character of either case, and with no other. */
  lemma DigitIff(c: char, d: nat)
    requires d < 36
    ensures DigitOf(c) == d <==> c == LOWER[d] || c == UPPER[d]
  {
    if d < 10 {
      assert LOWER[d] as int == '0' as int + d && UPPER[d] == LOWER[d];
    } else {
      LetterAt(d);
    }
  }

  lemma LetterAt(d: nat)
    requires 10 <= d < 36
    ensures LOWER[d] as int == 'a' as int + d - 10 && UPPER[d] as int == 'A' as int + d - 10
  {}

  /** The first i characters are blanks, and no more. */
  ghost predicate BlanksTo(s: string, i: nat) {
    i <= |s| && !Blank(At(s, i)) && forall k :: 0 <= k < i ==> Blank(s[k])
  }

  /** The optional sign at i ends at j. */
  predicate SignTo(s: string, i: nat, j: nat) {
    if At(s, i) == '+' || At(s, i) == '-' then j == i + 1 else j == i
  }

  predicate HexPrefix(s: string, j: nat) { At(s, j) == '0' && At(s, j + 1) == 'x' }

  /** From start on, behind what stands at j, digits are of base b: "0x" and "0" choose it if base is 0. */
  predicate PrefixTo(s: string, base: int, j: nat, start: nat, b: int) {
    || (start == j + 2 && HexPrefix(s, j) && (base == 0 || base == 16) && b == 16)
    || (start == j + 1 && At(s, j) == '0' && !HexPrefix(s, j) && base == 0 && b == 8)
    || (start == j && At(s, j) != '0' && base == 0 && b == 10)
    || (start == j && !(base == 16 && HexPrefix(s, j)) && b == base != 0)
  }

  ghost predicate DigitsTo(s: string, base: int, start: nat, end: nat) {
    start <= end <= |s| && !IsDigit(At(s, end), base) && forall k :: start <= k < end ==> IsDigit(s[k], base)
  }

  /** The parts of a string: blanks to i, a sign to j, a prefix to start, digits of base b to end. */
  ghost predicate Parts(s: string, base: int, i: nat, j: nat, start: nat, b: int, end: nat) {
    BlanksTo(s, i) && SignTo(s, i, j) && PrefixTo(s, base, j, start, b) && DigitsTo(s, b, start, end)
  }

  lemma {:induction false} BlanksEnd(s: string, i: nat, n: nat)
    requires i <= n && BlanksTo(s, n)
    ensures SkipBlanks(s, i) == n
    decreases n - i
  {
    if i < n { BlanksEnd(s, i + 1, n); }
  }

  lemma {:induction false} BlanksSkipped(s: string, i: nat)
    requires i <= |s|
    ensures var j := SkipBlanks(s, i); !Blank(At(s, j)) && (forall k :: i <= k < j ==> Blank(s[k]))
    decreases |s| - i
  {
    if Blank(At(s, i)) { BlanksSkipped(s, i + 1); }
  }

  lemma {:induction false} RunEnds(s: string, i: nat, j: nat, base: int)
    requires DigitsTo(s, base, i, j)
    ensures DigitsEnd(s, i, base) == j
    decreases j - i
  {
    if i < j { RunEnds(s, i + 1, j, base); }
  }

  /** strtol answers the signed value of the digits, wrapped, and stops behind them. */
  lemma ParseReads(s: string, base: int, i: nat, j: nat, start: nat, b: int, end: nat)
    requires Parts(s, base, i, j, start, b, end)
    ensures Parse(s, base) ==
      (Wrap(if At(s, i) == '-' then -ValueOf(s[start..end], b) else ValueOf(s[start..end], b)), end)
  {
    BlanksEnd(s, 0, i);
    RunEnds(s, start, end, b);
    assert Prefix(s, j, base) == (start, b);
  }

  /** Every string has such parts, so the lemma before says what strtol answers on every input. */
  lemma PartsExist(s: string, base: int) returns (i: nat, j: nat, start: nat, b: int, end: nat)
    ensures Parts(s, base, i, j, start, b, end)
  {
    i := SkipBlanks(s, 0);
    BlanksSkipped(s, 0);
    j := if At(s, i) == '+' || At(s, i) == '-' then i + 1 else i;
    start, b := Prefix(s, j, base).0, Prefix(s, j, base).1;
    end := DigitsEnd(s, start, b);
    LongestRun(s, start, b);
  }
}
