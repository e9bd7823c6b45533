/**
  ltostr and printnum, and that strtol reads back what they write.
 */
module Printing {
  import opened SeqUtil
  import opened Numerals

  /** The character C computes as r + '0'. */
  function DecimalChar(r: int): char
    requires -10 < r < 10
  {
    ('0' as int + r) as char
  }

  lemma TruncModRange(x: int)
    ensures -10 < TruncMod(x, 10) < 10
    ensures x == 10 * TruncDiv(x, 10) + TruncMod(x, 10)
  {}

  /** The digits of value, least significant first, as the loop of ltostr writes them. */
  function Backwards(value: int): (r: string)
    ensures |r| > 0
    decreases if value < 0 then -value else value
  {
    TruncModRange(value);
    [DecimalChar(TruncMod(value, 10))] + if TruncDiv(value, 10) == 0 then [] else Backwards(TruncDiv(value, 10))
  }

  /** What ltostr leaves in its buffer before the NUL. */
  function Text(value: int): string {
    if value < 0 then "-" + Reverse(Backwards(Wrap(value * -1))) else Reverse(Backwards(value))
  }

  // ---------- ltostr ----------

  lemma BackwardsStep(done: string, v: int)
    requires -10 < TruncMod(v, 10) < 10
    ensures |done + Backwards(v)| > |done|
    ensures done + Backwards(v) == done + [DecimalChar(TruncMod(v, 10))] + if TruncDiv(v, 10) == 0 then [] else Backwards(TruncDiv(v, 10))
  {}

  method WriteDigits(value: int, str: array<char>, start: nat) returns (end: nat)
    requires start + |Backwards(value)| <= str.Length
    modifies str
    ensures end == start + |Backwards(value)| && str[start..end] == Backwards(value)
    ensures forall k :: 0 <= k < str.Length && !(start <= k < end) ==> str[k] == old(str[k])
  {
    var v := value;
    end := start;
    ghost var done: string := [];
    while true
      invariant start <= end <= str.Length && |done| == end - start
      invariant forall k :: start <= k < end ==> str[k] == done[k - start]
      invariant done + Backwards(v) == Backwards(value)
      invariant forall k :: 0 <= k < str.Length && !(start <= k < end) ==> str[k] == old(str[k])
      decreases if v < 0 then -v else v
    {
      TruncModRange(v);
      var mod := TruncMod(v, 10);
      BackwardsStep(done, v);
      str[end] := DecimalChar(mod);
      end := end + 1;
      done := done + [DecimalChar(mod)];
      v := TruncDiv(v, 10);
      if v == 0 { break; }
    }
    assert str[start..end] == done;
  }

  method ReverseRange(str: array<char>, first: nat, last: nat)
    requires first <= last < str.Length
    modifies str
    ensures str[first..last + 1] == Reverse(old(str[first..last + 1]))
    ensures forall k :: 0 <= k < str.Length && !(first <= k <= last) ==> str[k] == old(str[k])
  {
    var start, end := first, last;
    while start < end
      invariant first <= start <= last + 1 && start + end == first + last && -1 <= (end as int) <= last
      invariant start <= end + 1
      invariant forall k :: first <= k < start ==> str[k] == old(str[first + last - k])
      invariant forall k :: end < k <= last ==> str[k] == old(str[first + last - k])
      invariant forall k :: start <= k <= end ==> str[k] == old(str[k])
      invariant forall k :: 0 <= k < str.Length && !(first <= k <= last) ==> str[k] == old(str[k])
    {
      str[start], str[end] := str[end], str[start];
      start, end := start + 1, end - 1;
    }
    assert forall k :: first <= k <= last ==> str[k] == old(str[first + last - k]);
    IsReverse(old(str[first..last + 1]), str[first..last + 1]);
  }

  lemma IsReverse<T>(q: seq<T>, r: seq<T>)
    requires |r| == |q| && (forall k :: 0 <= k < |q| ==> r[k] == q[|q| - 1 - k])
    ensures r == Reverse(q)
  {
    ReverseSize(q);
    forall k | 0 <= k < |q|
      ensures r[k] == Reverse(q)[k]
    {
      ReverseAt(q, k);
    }
  }

  lemma {:induction false} ReverseAt<T>(q: seq<T>, k: nat)
    requires k < |q|
    ensures |Reverse(q)| == |q| && Reverse(q)[k] == q[|q| - 1 - k]
  {
    if |q| > 1 { ReverseAt(q[1..], if k < |q| - 1 then k else 0); }
  }

  /** ltostr */
  method Ltostr(value: int, str: array<char>)
    requires LONG_MIN <= value <= LONG_MAX && |Text(value)| < str.Length
    modifies str
    ensures str[..|Text(value)|] == Text(value) && str[|Text(value)|] == '\0'
  {
    var neg, s, v := 0, 0, value;
    TextSize(value);
    if value < 0 {
      neg := 1;
      str[0] := '-';
      v := Wrap(value * -1);
      s := s + 1;
    }
    s := WriteDigits(v, str, s);
    ReverseRange(str, neg, s - 1);
    str[s] := '\0';
    TextParts(value, str[..s], neg);
  }

  lemma TextParts(value: int, t: string, neg: nat)
    requires neg == (if value < 0 then 1 else 0) && neg <= |t| && (value < 0 ==> t[0] == '-')
    requires t[neg..] == Reverse(Backwards(if value < 0 then Wrap(value * -1) else value))
    ensures t == Text(value)
  {
    assert t == t[..neg] + t[neg..];
  }

  lemma {:induction false} ReverseSize<T>(q: seq<T>)
    ensures |Reverse(q)| == |q|
  {
    if q != [] { ReverseSize(q[1..]); }
  }

  lemma TextSize(value: int)
    ensures |Text(value)| == if value < 0 then 1 + |Backwards(Wrap(value * -1))| else |Backwards(value)|
  {
    ReverseSize(Backwards(value));
    ReverseSize(Backwards(Wrap(value * -1)));
  }

  // ---------- printnum ----------

  const DIGITS: string := "0123456789abcdef"

  function DigitAt(d: nat): (c: char)
    requires d < 16
    ensures DigitOf(c) == d
  {
    assert d == 0 || d == 1 || d == 2 || d == 3 || d == 4 || d == 5 || d == 6 || d == 7 || d == 8
      || d == 9 || d == 10 || d == 11 || d == 12 || d == 13 || d == 14 || d == 15;
    DIGITS[d]
  }

  lemma SmallDivMod(n: nat, base: nat)
    requires n < base
    ensures n / base == 0 && n % base == n
  {}

  lemma DivMod(n: nat, base: nat)
    requires 2 <= base
    ensures n == (n / base) * base + n % base && 0 <= n % base < base
    ensures n < base ==> n / base == 0 && n % base == n
    ensures n >= base ==> 0 < n / base < n
  {
    var q, r := n / base, n % base;
    assert n == q * base + r && 0 <= r < base;
    if n < base {
      SmallDivMod(n, base);
    } else {
      assert q <= 0 ==> q * base <= 0;
      assert q * base >= q * 2;
    }
  }

  /** The numeral of n, most significant digit first. */
  function Numeral(n: nat, base: nat): (r: string)
    requires 2 <= base <= 16
    ensures |r| > 0
  {
    (if n >= base then Numeral(n / base, base) else []) + [DigitAt(n % base)]
  }

  function Pads(n: int, c: char): string { if n <= 0 then [] else seq(n, _ => c) }

  /** The numeral, filled on the left to the width. */
  function Printed(n: nat, base: nat, width: int, padc: char): string
    requires 2 <= base <= 16
  {
    Pads(width - |Numeral(n, base)|, padc) + Numeral(n, base)
  }

  /** The last digit comes after the number without it, in a field one narrower, or after the filling. */
  lemma PrintedSplit(n: nat, base: nat, width: int, padc: char)
    requires 2 <= base <= 16
    ensures n >= base ==> Printed(n, base, width, padc) == Printed(n / base, base, width - 1, padc) + [DigitAt(n % base)]
    ensures n < base ==> Printed(n, base, width, padc) == Pads(width - 1, padc) + [DigitAt(n % base)]
  {}

  class Console {
    var out: string

    method Putch(c: char)
      modifies this
      ensures out == old(out) + [c]
    {
      out := out + [c];
    }

    method PadTo(width: int, c: char)
      modifies this
      ensures out == old(out) + Pads(width - 1, c)
    {
      var w := width - 1;
      ghost var done := 0;
      while w > 0
        invariant done >= 0 && (width - 1 <= 0 ==> done == 0) && (width - 1 > 0 ==> w + done == width - 1 && w >= 0)
        invariant out == old(out) + Pads(done, c)
      {
        Putch(c);
        assert Pads(done + 1, c) == Pads(done, c) + [c];
        done := done + 1;
        w := w - 1;
      }
    }

    /** printnum */
    method PrintNum(num: nat, base: nat, width: int, padc: char)
      requires 2 <= base <= 16
      modifies this
      ensures out == old(out) + Printed(num, base, width, padc)
      decreases num
    {
      DivMod(num, base);
      PrintedSplit(num, base, width, padc);
      ghost var front := if num >= base then Printed(num / base, base, width - 1, padc) else Pads(width - 1, padc);
      if num >= base {
        PrintNum(num / base, base, width - 1, padc);
      } else {
        PadTo(width, padc);
      }
      assert out == old(out) + front;
      Putch(DigitAt(num % base));
      assert out == old(out) + (front + [DigitAt(num % base)]);
    }
  }

  /** Output length: the width or the number of digits, whichever is larger. */
  lemma PrintedLength(num: nat, base: nat, width: int, padc: char)
    requires 2 <= base <= 16
    ensures |Printed(num, base, width, padc)| == if width > |Numeral(num, base)| then width else |Numeral(num, base)|
  {}

  // ---------- Reading back ----------

  ghost predicate AllDigits(ds: string, base: int) {
    forall k :: 0 <= k < |ds| ==> IsDigit(ds[k], base)
  }

  lemma Snoc(front: string, c: char, base: int)
    requires AllDigits(front, base) && IsDigit(c, base)
    ensures AllDigits(front + [c], base)
    ensures ValueOf(front + [c], base) == ValueOf(front, base) * base + DigitOf(c)
  {
    assert (front + [c])[..|front|] == front;
  }

  /** No leading zero but in "0" itself, and only the sixteen lower-case digits. */
  lemma {:induction false} NumeralShape(n: nat, base: nat)
    requires 2 <= base <= 16
    ensures n > 0 ==> Numeral(n, base)[0] != '0'
    ensures n == 0 ==> Numeral(n, base) == "0"
    ensures forall c :: c in Numeral(n, base) ==> '0' <= c <= '9' || 'a' <= c <= 'f'
  {
    DivMod(n, base);
    LowerDigit(n % base);
    if n >= base { NumeralShape(n / base, base); }
  }

  lemma LowerDigit(d: nat)
    requires d < 16
    ensures var c := DigitAt(d); ('0' <= c <= '9' || 'a' <= c <= 'f') && (d == 0 <==> c == '0')
  {
    assert d == 0 || d == 1 || d == 2 || d == 3 || d == 4 || d == 5 || d == 6 || d == 7 || d == 8
      || d == 9 || d == 10 || d == 11 || d == 12 || d == 13 || d == 14 || d == 15;
  }

  /** The filling in front of the numeral is of the given character alone. */
  lemma PrintedShape(n: nat, base: nat, width: int, padc: char)
    requires 2 <= base <= 16
    ensures var r, k := Printed(n, base, width, padc), |Printed(n, base, width, padc)| - |Numeral(n, base)|;
      k >= 0 && r[k..] == Numeral(n, base) && forall i :: 0 <= i < k ==> r[i] == padc
  {}

  lemma {:induction false} NumeralValue(n: nat, base: nat)
    requires 2 <= base <= 16
    ensures AllDigits(Numeral(n, base), base) && ValueOf(Numeral(n, base), base) == n
  {
    DivMod(n, base);
    var last := DigitAt(n % base);
    if n >= base {
      NumeralValue(n / base, base);
      Snoc(Numeral(n / base, base), last, base);
    } else {
      Snoc([], last, base);
      assert [] + [last] == [last];
    }
  }

  /** A digit is no blank, no sign and no x. */
  lemma PlainDigit(c: char, base: int)
    requires IsDigit(c, base) && base <= 16
    ensures !Blank(c) && c != '+' && c != '-' && c != 'x'
  {}

  /** Digits to the end of the string, in an explicit base, have no prefix. */
  lemma OnlyDigits(s: string, j: nat, base: int)
    requires j <= |s| && 2 <= base <= 16 && (forall k :: j <= k < |s| ==> IsDigit(s[k], base))
    ensures PrefixTo(s, base, j, j, base) && DigitsTo(s, base, j, |s|)
  {
    if j + 1 < |s| { PlainDigit(s[j + 1], base); }
  }

  /** Blanks, and then digits to the end of the string. */
  lemma PaddedDigits(s: string, n: nat, ds: string, base: int)
    requires 2 <= base <= 16 && ds != [] && AllDigits(ds, base) && |s| == n + |ds| && s[n..] == ds
    requires forall k :: 0 <= k < n ==> Blank(s[k])
    ensures Parse(s, base) == (Wrap(ValueOf(ds, base)), |s|)
  {
    assert forall k :: n <= k < |s| ==> s[k] == ds[k - n];
    PlainDigit(s[n], base);
    OnlyDigits(s, n, base);
    ParseReads(s, base, n, n, n, base, |s|);
    assert s[n..|s|] == ds;
  }

  lemma ReadPlain(ds: string, base: int)
    requires 2 <= base <= 16 && ds != [] && AllDigits(ds, base)
    ensures Parse(ds, base) == (Wrap(ValueOf(ds, base)), |ds|)
  {
    PaddedDigits(ds, 0, ds, base);
  }

  lemma ReadNegative(ds: string, base: int)
    requires 2 <= base <= 16 && AllDigits(ds, base)
    ensures Parse("-" + ds, base) == (Wrap(-ValueOf(ds, base)), 1 + |ds|)
  {
    SignedDigits("-" + ds, ds, base);
  }

  lemma SignedDigits(s: string, ds: string, base: int)
    requires 2 <= base <= 16 && AllDigits(ds, base)
    requires |s| == 1 + |ds| && s[0] == '-' && s[1..] == ds
    ensures Parse(s, base) == (Wrap(-ValueOf(ds, base)), |s|)
  {
    assert forall k :: 1 <= k < |s| ==> s[k] == ds[k - 1];
    OnlyDigits(s, 1, base);
    ParseReads(s, base, 0, 1, 1, base, |s|);
    assert s[1..|s|] == ds;
  }

  /** strtol reads back, modulo the width of a long, what printnum wrote with blank or zero filling. */
  lemma PrintedReadsBack(n: nat, base: nat, width: int, padc: char)
    requires 2 <= base <= 16 && (padc == ' ' || padc == '0')
    ensures Parse(Printed(n, base, width, padc), base) == (Wrap(n), |Printed(n, base, width, padc)|)
  {
    var ds := Numeral(n, base);
    NumeralValue(n, base);
    FilledReadsBack(n, width - |ds|, padc, ds, base, Printed(n, base, width, padc));
  }

  lemma FilledReadsBack(n: nat, fill: int, padc: char, ds: string, base: nat, s: string)
    requires 2 <= base <= 16 && (padc == ' ' || padc == '0') && ds != [] && AllDigits(ds, base)
    requires ValueOf(ds, base) == n && s == Pads(fill, padc) + ds
    ensures Parse(s, base) == (Wrap(n), |s|)
  {
    var pads := Pads(fill, padc);
    if padc == ' ' {
      PaddedDigits(s, |pads|, ds, base);
    } else {
      assert pads == Zeros(|pads|);
      LeadingZeros(|pads|, ds, base);
      ReadPlain(pads + ds, base);
    }
  }

  /** Exactly the numbers below 2^31 come back. */
  lemma PrintRoundTripIff(n: nat, base: nat, width: int, padc: char)
    requires 2 <= base <= 16 && (padc == ' ' || padc == '0')
    ensures Parse(Printed(n, base, width, padc), base).0 == n <==> n <= LONG_MAX
  {
    PrintedReadsBack(n, base, width, padc);
    WrapFixIff(n);
  }

  // ---------- ltostr and strtol ----------

  lemma {:induction false} BackwardsNumeral(v: nat)
    ensures Reverse(Backwards(v)) == Numeral(v, 10)
  {
    var c := DecimalChar(TruncMod(v, 10));
    assert c == DigitAt(v % 10);
    if v >= 10 {
      BackwardsNumeral(v / 10);
      assert Backwards(v)[1..] == Backwards(v / 10);
    } else {
      assert Backwards(v) == [c];
      assert Reverse([c]) == [c];
    }
  }

  lemma TextOfNegative(v: int, w: int)
    requires LONG_MIN < v < 0 && w == -v
    ensures Text(v) == "-" + Reverse(Backwards(w))
  {
    WrapFixIff(w);
    assert v * -1 == w;
  }

  lemma NegativeReadsZero(w: int)
    requires w < 0
    ensures Parse("-" + Reverse(Backwards(w)), 10).0 == 0
  {
    LastOfNegative(w);
    NoDigits(Reverse(Backwards(w)));
  }

  lemma NoDigits(t: string)
    requires t != [] && t[0] < '0'
    ensures Parse("-" + t, 10).0 == 0
  {
    var s := "-" + t;
    assert At(s, 1) == t[0] && !IsDigit(t[0], 10);
    ParseReads(s, 10, 0, 1, 1, 10, 1);
    assert s[1..1] == [];
  }

  /** The leading character that the least long leaves is below '0'. */
  lemma {:induction false} LastOfNegative(w: int)
    requires w < 0
    ensures Reverse(Backwards(w)) != [] && Reverse(Backwards(w))[0] < '0'
    decreases -w
  {
    TruncModRange(w);
    var c := DecimalChar(TruncMod(w, 10));
    if TruncDiv(w, 10) == 0 {
      assert Backwards(w) == [c];
      assert Reverse([c]) == [c];
    } else {
      LastOfNegative(TruncDiv(w, 10));
      assert Backwards(w)[1..] == Backwards(TruncDiv(w, 10));
    }
  }

  lemma NumeralReadsBack(n: nat)
    requires n <= LONG_MAX
    ensures Parse(Numeral(n, 10), 10) == (n as int, |Numeral(n, 10)|)
  {
    NumeralValue(n, 10);
    ReadPlain(Numeral(n, 10), 10);
    WrapFixIff(n);
  }

  lemma NonNegativeReadsBack(v: nat)
    requires v <= LONG_MAX
    ensures Parse(Text(v), 10) == (v as int, |Text(v)|)
  {
    BackwardsNumeral(v);
    NumeralReadsBack(v);
    assert Text(v) == Numeral(v, 10);
  }

  lemma NegativeReadsBack(v: int, n: nat)
    requires LONG_MIN < v < 0 && n == -v
    ensures Parse(Text(v), 10) == (v, |Text(v)|)
  {
    TextOfNegative(v, n);
    BackwardsNumeral(n);
    NumeralValue(n, 10);
    ReadNegative(Numeral(n, 10), 10);
    WrapFixIff(v);
  }

  /** The least long wraps back to itself and leaves characters that are no digits. */
  lemma LeastReadsZero(v: int)
    requires v == LONG_MIN
    ensures Parse(Text(v), 10).0 == 0
  {
    assert Wrap(v * -1) == v;
    NegativeReadsZero(v);
  }

  /** strtol undoes ltostr exactly on the longs other than the least. */
  lemma LtostrRoundTripIff(v: int)
    requires LONG_MIN <= v <= LONG_MAX
    ensures Parse(Text(v), 10) == (v, |Text(v)|) <==> v != LONG_MIN
  {
    if v == LONG_MIN {
      LeastReadsZero(v);
    } else if v < 0 {
      NegativeReadsBack(v, -v);
    } else {
      NonNegativeReadsBack(v);
    }
  }
}
