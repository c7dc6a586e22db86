/** The Cassandra connector's `decimal` display: an unscaled integer text and a 32-bit scale. */
module CqlDecimal {
  import opened Text
  import opened Decimal
  import Varint

  /** `unscaled` with `scale` digits after the point; a negative scale means trailing zeros. */
  function FormatDecimal(unscaled: string, scale: int): string {
    var (sign, digits) := SplitSign(unscaled);
    if scale <= 0 then
      if digits == "0" then "0" else sign + digits + Repeat('0', -scale)
    else SplitAt(sign, ScaledDigits(digits, scale), scale)
  }

  function SplitAt(sign: string, padded: string, scale: nat): string
    requires |padded| > scale
  {
    sign + padded[..|padded| - scale] + "." + padded[|padded| - scale..]
  }

  /** The digits, with enough zeros in front for one of them to stand before the point. */
  function ScaledDigits(digits: string, scale: int): (padded: string)
    requires scale > 0
    ensures |padded| > scale
  {
    if |digits| <= scale then Repeat('0', scale - |digits| + 1) + digits else digits
  }

  /** Strips one leading minus sign. */
  function SplitSign(s: string): (string, string) {
    if HasMinus(s) then ("-", s[1..]) else ("", s)
  }

  lemma SignedText(s: string)
    requires CanonicalInt(s)
    ensures var (sign, digits) := SplitSign(s);
      && s == sign + digits && CanonicalNat(digits)
      && ReadInt(s) == if sign == "-" then -ReadNat(digits) else ReadNat(digits)
  {
  }

  lemma ReadSigned(sign: string, digits: string)
    requires sign == "-" || sign == ""
    requires digits != [] && AllDigits(digits)
    ensures ReadInt(sign + digits) == if sign == "-" then -ReadNat(digits) else ReadNat(digits)
  {
    if sign == "-" {
      assert (sign + digits)[1..] == digits;
    } else {
      assert sign + digits == digits;
    }
  }

  // ----- what a decimal text means

  function FractionDigits(s: string): nat {
    var point := Find(s, '.');
    if point.None? then 0 else |s| - point.value - 1
  }

  function WithoutPoint(s: string): string {
    var point := Find(s, '.');
    if point.None? then s else s[..point.value] + s[point.value + 1..]
  }

  /** The exact number a decimal text stands for. */
  function RealValue(s: string): real {
    Ratio(ReadInt(WithoutPoint(s)), FractionDigits(s))
  }

  function Ratio(n: int, places: nat): real {
    PowPositive(10, places);
    n as real / Pow(10, places) as real
  }

  /** `unscaled * 10^(-scale)`. */
  function ScaledValue(unscaled: int, scale: int): real {
    if scale > 0 then Ratio(unscaled, scale) else (unscaled * Pow(10, -scale)) as real
  }

  /** Trailing zeros multiply a canonical number other than zero by a power of ten. */
  lemma ScaleUp(digits: string, n: nat)
    requires CanonicalNat(digits) && digits != "0"
    ensures var body := digits + Repeat('0', n);
      CanonicalNat(body) && body != "0" && ReadNat(body) == ReadNat(digits) * Pow(10, n)
  {
    var body := digits + Repeat('0', n);
    ReadNatConcat(digits, Repeat('0', n));
    ReadNatZeros(n);
    assert body[0] == digits[0] != '0';
  }

  lemma ZeroText()
    ensures ReadNat("0") == 0 && IntText(0) == "0"
  {
  }

  /** No scale, or a negative one: the result is again canonical integer text, of the exact product. */
  lemma NonPositiveScale(unscaled: string, scale: int)
    requires CanonicalInt(unscaled) && scale <= 0
    ensures FormatDecimal(unscaled, scale) == IntText(ReadInt(unscaled) * Pow(10, -scale))
  {
    hide Pow, CanonicalNat, ReadNat, IntText;
    var (sign, digits) := SplitSign(unscaled);
    SignedText(unscaled);
    NegatedProduct(ReadNat(digits), Pow(10, -scale));
    if digits != "0" {
      AppendZeros(sign, digits, -scale);
    } else {
      ZeroText();
    }
  }

  lemma AppendZeros(sign: string, digits: string, n: nat)
    requires (sign == "-" || sign == "") && CanonicalNat(digits) && digits != "0"
    ensures var product := ReadNat(digits) * Pow(10, n);
      sign + digits + Repeat('0', n) == IntText(if sign == "-" then -product else product)
  {
    hide Pow, ReadNat, IntText, CanonicalNat;
    ScaleUp(digits, n);
    assert sign + digits + Repeat('0', n) == sign + (digits + Repeat('0', n));
    CanonicalScaled(sign, digits + Repeat('0', n), ReadNat(digits) * Pow(10, n));
  }

  lemma NegatedProduct(a: int, p: int)
    ensures -a * p == -(a * p) && 0 * p == 0
  {
  }

  lemma CanonicalScaled(sign: string, body: string, n: int)
    requires sign == "-" || sign == ""
    requires CanonicalNat(body) && body != "0" && ReadNat(body) == n
    ensures sign + body == IntText(if sign == "-" then -n else n)
  {
    ReadSigned(sign, body);
    if sign == "-" {
      assert (sign + body)[1..] == body;
    } else {
      assert sign + body == body;
    }
    IntTextUnique(sign + body);
  }

  lemma PaddedParts(digits: string, scale: int)
    requires CanonicalNat(digits) && scale > 0
    ensures var padded := ScaledDigits(digits, scale);
      && AllDigits(padded) && ReadNat(padded) == ReadNat(digits)
      && CanonicalNat(padded[..|padded| - scale])
  {
    if |digits| <= scale {
      ReadZeros(scale - |digits| + 1, digits);
    }
  }

  /** A positive scale: an optional minus sign, at least one integer digit, a point, exactly
      `scale` fraction digits, and with the point taken out the unscaled number. */
  lemma PositiveScale(unscaled: string, scale: int) returns (whole: string, fraction: string)
    requires CanonicalInt(unscaled) && scale > 0
    ensures FormatDecimal(unscaled, scale) == SplitSign(unscaled).0 + whole + "." + fraction
    ensures CanonicalNat(whole) && AllDigits(fraction) && |fraction| == scale
    ensures FractionDigits(FormatDecimal(unscaled, scale)) == scale
    ensures ReadInt(WithoutPoint(FormatDecimal(unscaled, scale))) == ReadInt(unscaled)
  {
    var (sign, digits) := SplitSign(unscaled);
    SignedText(unscaled);
    whole, fraction := PlacePoint(sign, digits, scale);
  }

  lemma PlacePoint(sign: string, digits: string, scale: nat) returns (whole: string, fraction: string)
    requires (sign == "-" || sign == "") && CanonicalNat(digits) && scale > 0
    ensures CanonicalNat(whole) && AllDigits(fraction) && |fraction| == scale
    ensures var r := SplitAt(sign, ScaledDigits(digits, scale), scale);
      && r == sign + whole + "." + fraction && FractionDigits(r) == scale
      && ReadInt(WithoutPoint(r)) == if sign == "-" then -ReadNat(digits) else ReadNat(digits)
  {
    PaddedParts(digits, scale);
    whole, fraction := SplitPadded(sign, ScaledDigits(digits, scale), scale);
  }

  lemma SplitPadded(sign: string, padded: string, scale: nat) returns (whole: string, fraction: string)
    requires sign == "-" || sign == ""
    requires AllDigits(padded) && |padded| > scale && CanonicalNat(padded[..|padded| - scale])
    ensures CanonicalNat(whole) && AllDigits(fraction) && |fraction| == scale
    ensures SplitAt(sign, padded, scale) == sign + whole + "." + fraction
    ensures var r := SplitAt(sign, padded, scale);
      && FractionDigits(r) == scale && WithoutPoint(r) == sign + padded
      && ReadInt(WithoutPoint(r)) == if sign == "-" then -ReadNat(padded) else ReadNat(padded)
  {
    whole, fraction := padded[..|padded| - scale], padded[|padded| - scale..];
    NoPointBefore(sign, whole);
    PointTakenOut(sign + whole, fraction);
    Rejoin(sign, padded, |padded| - scale);
    ReadSigned(sign, padded);
  }

  lemma NoPointBefore(sign: string, whole: string)
    requires (sign == "-" || sign == "") && AllDigits(whole)
    ensures '.' !in sign + whole
  {
  }

  lemma Rejoin(sign: string, s: string, k: nat)
    requires k <= |s|
    ensures sign + s[..k] + s[k..] == sign + s
  {
    assert s == s[..k] + s[k..];
  }

  lemma PointTakenOut(before: string, fraction: string)
    requires '.' !in before
    ensures FractionDigits(before + "." + fraction) == |fraction|
    ensures WithoutPoint(before + "." + fraction) == before + fraction
  {
    FindAfter(before, '.', fraction);
  }

  lemma IntTextHasNoPoint(n: int)
    ensures '.' !in IntText(n)
  {
    var digits := NatText(if n < 0 then -n else n);
    assert forall i :: 0 <= i < |digits| ==> digits[i] != '.';
  }

  /** For every canonical integer text and every scale the result denotes the exact number. */
  lemma FormatDecimalExact(unscaled: string, scale: int)
    requires CanonicalInt(unscaled)
    ensures RealValue(FormatDecimal(unscaled, scale)) == ScaledValue(ReadInt(unscaled), scale)
  {
    if scale > 0 {
      var _, _ := PositiveScale(unscaled, scale);
    } else {
      NonPositiveScale(unscaled, scale);
      IntegerText(ReadInt(unscaled) * Pow(10, -scale));
    }
  }

  lemma IntegerText(n: int)
    ensures RealValue(IntText(n)) == n as real
  {
    IntTextCanonical(n);
    IntTextHasNoPoint(n);
  }

  /** A CQL `decimal`, from its wire bytes to the exact number on screen. */
  method DisplayDecimal(bytes: seq<Varint.Byte>, scale: int) returns (out: string)
    ensures RealValue(out) == ScaledValue(Varint.SignedValue(bytes), scale)
    ensures scale > 0 ==> FractionDigits(out) == scale
    ensures scale <= 0 ==> CanonicalInt(out)
  {
    var unscaled := Varint.SignedBeToDecimal(bytes);
    out := FormatDecimal(unscaled, scale);
    IntTextCanonical(Varint.SignedValue(bytes));
    FormatDecimalExact(unscaled, scale);
    if scale > 0 {
      var _, _ := PositiveScale(unscaled, scale);
    } else {
      NonPositiveScale(unscaled, scale);
      IntTextCanonical(ReadInt(unscaled) * Pow(10, -scale));
    }
  }
}
