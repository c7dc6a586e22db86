/** Numbers as digit sequences, and decimal text as the reference meaning of what is printed. */
module Decimal {
  import opened Text

  function Pow(base: int, n: nat): int {
    if n == 0 then 1 else base * Pow(base, n - 1)
  }

  lemma PowPositive(base: int, n: nat)
    requires base > 0
    ensures Pow(base, n) > 0
  {
  }

  /** The number a digit sequence denotes, most significant digit first. */
  function Value(digits: seq<int>, base: int): int {
    if digits == [] then 0
    else Value(digits[..|digits| - 1], base) * base + digits[|digits| - 1]
  }

  lemma ValueSnoc(digits: seq<int>, d: int, base: int)
    ensures Value(digits + [d], base) == Value(digits, base) * base + d
  {
    assert (digits + [d])[..|digits|] == digits;
  }

  lemma ShiftSum(a: int, p: int, b: int, base: int)
    ensures (a * p + b) * base == a * (base * p) + b * base
  {
    assert a * p * base == a * (base * p);
  }

  lemma {:induction false} ValueConcat(a: seq<int>, b: seq<int>, base: int)
    ensures Value(a + b, base) == Value(a, base) * Pow(base, |b|) + Value(b, base)
  {
    if b == [] {
      assert a + b == a;
    } else {
      var b', d := b[..|b| - 1], b[|b| - 1];
      ValueConcat(a, b', base);
      assert a + b == (a + b') + [d] && b == b' + [d];
      ValueSnoc(a + b', d, base);
      ShiftSum(Value(a, base), Pow(base, |b'|), Value(b', base), base);
    }
  }

  /** Changing one digit changes the value by the difference, weighted by its place. */
  lemma ValueUpdate(s: seq<int>, k: nat, d: int, base: int)
    requires k < |s|
    ensures Value(s[k := d], base) == Value(s, base) + (d - s[k]) * Pow(base, |s| - 1 - k)
  {
    var a, b := s[..k], s[k + 1..];
    var p := Pow(base, |b|);
    assert s == (a + [s[k]]) + b && s[k := d] == (a + [d]) + b;
    ValueConcat(a + [s[k]], b, base);
    ValueConcat(a + [d], b, base);
    ValueSnoc(a, s[k], base);
    ValueSnoc(a, d, base);
    calc {
      (Value(a, base) * base + d) * p;
      (Value(a, base) * base + s[k]) * p + (d - s[k]) * p;
    }
  }

  ghost predicate InBase(digits: seq<int>, base: int) {
    forall i | 0 <= i < |digits| :: 0 <= digits[i] < base
  }

  lemma DigitBound(v: int, p: int, d: int, base: int)
    requires 0 <= v < p && 0 <= d < base
    ensures 0 <= v * base + d < base * p
  {
    assert (v + 1) * base <= p * base;
  }

  lemma {:induction false} ValueBounds(digits: seq<int>, base: int)
    requires base > 0 && InBase(digits, base)
    ensures 0 <= Value(digits, base) < Pow(base, |digits|)
  {
    if digits != [] {
      var front, d := digits[..|digits| - 1], digits[|digits| - 1];
      ValueBounds(front, base);
      DigitBound(Value(front, base), Pow(base, |front|), d, base);
    }
  }

  // ----- decimal text

  predicate AllDigits(s: string) {
    forall i | 0 <= i < |s| :: IsDigit(s[i])
  }

  function DigitChar(d: int): (c: char)
    requires 0 <= d < 10
    ensures IsDigit(c) && DigitOf(c) == d
  {
    '0' + d as char
  }

  function DigitOf(c: char): int {
    c as int - '0' as int
  }

  /** `n` in decimal without leading zeros: what printing an unsigned integer gives. */
  function NatText(n: nat): (s: string)
    ensures AllDigits(s) && s != []
    ensures s[0] == '0' ==> n == 0 && s == "0"
  {
    if n < 10 then [DigitChar(n)] else NatText(n / 10) + [DigitChar(n % 10)]
  }

  function IntText(n: int): string {
    if n < 0 then "-" + NatText(-n) else NatText(n)
  }

  /** The number a digit string denotes, leading zeros or not. */
  function ReadNat(s: string): int {
    if s == [] then 0 else ReadNat(s[..|s| - 1]) * 10 + DigitOf(s[|s| - 1])
  }

  function ReadInt(s: string): int {
    if HasMinus(s) then -ReadNat(s[1..]) else ReadNat(s)
  }

  lemma ReadNatSnoc(s: string, c: char)
    ensures ReadNat(s + [c]) == ReadNat(s) * 10 + DigitOf(c)
  {
    assert (s + [c])[..|s|] == s;
  }

  lemma {:induction false} ReadNatConcat(a: string, b: string)
    ensures ReadNat(a + b) == ReadNat(a) * Pow(10, |b|) + ReadNat(b)
  {
    if b == [] {
      assert a + b == a;
    } else {
      var b', c := b[..|b| - 1], b[|b| - 1];
      ReadNatConcat(a, b');
      assert a + b == (a + b') + [c];
      ReadNatSnoc(a + b', c);
      ShiftSum(ReadNat(a), Pow(10, |b'|), ReadNat(b'), 10);
    }
  }

  lemma {:induction false} ReadNatBounds(s: string)
    requires AllDigits(s)
    ensures 0 <= ReadNat(s) < Pow(10, |s|)
  {
    if s != [] {
      ReadNatBounds(s[..|s| - 1]);
    }
  }

  lemma {:induction false} ReadNatText(n: nat)
    ensures ReadNat(NatText(n)) == n
  {
    if n < 10 {
      assert NatText(n) == [] + [DigitChar(n)];
      ReadNatSnoc([], DigitChar(n));
    } else {
      ReadNatText(n / 10);
      ReadNatSnoc(NatText(n / 10), DigitChar(n % 10));
    }
  }

  lemma ReadZeros(n: nat, s: string)
    ensures ReadNat(Repeat('0', n) + s) == ReadNat(s)
  {
    ReadNatConcat(Repeat('0', n), s);
    ReadNatZeros(n);
  }

  lemma {:induction false} ReadNatZeros(n: nat)
    ensures ReadNat(Repeat('0', n)) == 0
  {
    if n > 0 {
      assert Repeat('0', n)[..n - 1] == Repeat('0', n - 1);
      ReadNatZeros(n - 1);
    }
  }

  /** Canonical integer text: digits without a superfluous leading zero, and a minus sign only
      in front of a number other than zero. */
  predicate CanonicalNat(s: string) {
    s != [] && AllDigits(s) && (s[0] == '0' ==> s == "0")
  }

  predicate HasMinus(s: string) {
    s != [] && s[0] == '-'
  }

  predicate CanonicalInt(s: string) {
    if HasMinus(s) then CanonicalNat(s[1..]) && s[1..] != "0" else CanonicalNat(s)
  }

  /** Reading undoes printing, and what is printed is canonical. */
  lemma IntTextCanonical(n: int)
    ensures CanonicalInt(IntText(n)) && ReadInt(IntText(n)) == n
  {
    ReadNatText(if n < 0 then -n else n);
    if n < 0 {
      assert IntText(n)[1..] == NatText(-n);
      assert ReadNat("0") == 0;
    }
  }

  lemma {:induction false} NatTextUnique(s: string)
    requires CanonicalNat(s)
    ensures ReadNat(s) >= 0 && NatText(ReadNat(s)) == s
  {
    ReadNatBounds(s);
    var front, c := s[..|s| - 1], s[|s| - 1];
    assert IsDigit(c) && DigitChar(DigitOf(c)) == c;
    if front == [] {
      assert s == [c] && ReadNat(front) == 0;
    } else {
      assert CanonicalNat(front) by {
        assert front[0] == s[0];
      }
      NatTextUnique(front);
      if ReadNat(front) == 0 {
        assert false;
      }
      assert s == front + [c];
    }
  }

  /** There is exactly one canonical text per integer, so equality with `IntText` says it all. */
  lemma IntTextUnique(s: string)
    requires CanonicalInt(s)
    ensures IntText(ReadInt(s)) == s
  {
    if HasMinus(s) {
      NatTextUnique(s[1..]);
      if ReadNat(s[1..]) == 0 {
        assert false;
      }
      assert s == "-" + s[1..];
    } else {
      NatTextUnique(s);
    }
  }

  // ----- zero padding

  /** `{text:0w}`: zeros on the left up to a width, nothing when already wider. */
  function ZeroPad(text: string, width: nat): string {
    if |text| < width then Repeat('0', width - |text|) + text else text
  }

  lemma {:induction false} NatTextLength(n: nat, w: nat)
    requires n < Pow(10, w) && w > 0
    ensures |NatText(n)| <= w
  {
    if n >= 10 {
      NatTextLength(n / 10, w - 1);
    }
  }

  lemma PaddedDigits(n: nat, w: nat)
    requires n < Pow(10, w) && w > 0
    ensures var s := ZeroPad(NatText(n), w); |s| == w && AllDigits(s) && ReadNat(s) == n
  {
    NatTextLength(n, w);
    ReadNatText(n);
    if |NatText(n)| < w {
      ReadZeros(w - |NatText(n)|, NatText(n));
    }
  }

  /** Appending a zero-padded group of `w` digits shifts the number by `w` decimal places. */
  lemma GroupText(high: nat, low: nat, w: nat)
    requires high > 0 && w > 0 && low < Pow(10, w)
    ensures high * Pow(10, w) + low >= 0
    ensures NatText(high) + ZeroPad(NatText(low), w) == NatText(high * Pow(10, w) + low)
  {
    PaddedDigits(low, w);
    var pad := ZeroPad(NatText(low), w);
    var s := NatText(high) + pad;
    ReadNatConcat(NatText(high), pad);
    ReadNatText(high);
    assert CanonicalNat(s);
    NatTextUnique(s);
  }
}
