/** The Cassandra connector's `varint` and `decimal` display: a two's-complement big-endian
    integer of any width becomes decimal text, by division over 32-bit limbs. */
module Varint {
  import opened Decimal

  type Byte = x: int | 0 <= x < 256
  type Limb = x: int | 0 <= x < 0x1_0000_0000

  const BILLION := 1_000_000_000

  /** The number a two's-complement big-endian byte string stands for. */
  function SignedValue(bytes: seq<Byte>): int {
    if bytes != [] && bytes[0] >= 0x80 then Value(bytes, 256) - Pow(256, |bytes|) else Value(bytes, 256)
  }

  /** Inverting every byte complements the value. */
  lemma {:induction false} ComplementValue(a: seq<Byte>, b: seq<Byte>)
    requires |a| == |b| && forall i | 0 <= i < |a| :: b[i] == 255 - a[i]
    ensures Value(b, 256) == Pow(256, |a|) - 1 - Value(a, 256)
  {
    if a != [] {
      ComplementValue(a[..|a| - 1], b[..|b| - 1]);
    }
  }

  method InvertInPlace(magnitude: array<Byte>)
    modifies magnitude
    ensures Value(magnitude[..], 256) == Pow(256, magnitude.Length) - 1 - old(Value(magnitude[..], 256))
    ensures forall j :: 0 <= j < magnitude.Length ==> magnitude[j] == 255 - old(magnitude[j])
  {
    for k := 0 to magnitude.Length
      invariant forall j :: 0 <= j < k ==> magnitude[j] == 255 - old(magnitude[j])
      invariant forall j :: k <= j < magnitude.Length ==> magnitude[j] == old(magnitude[j])
    {
      magnitude[k] := 255 - magnitude[k];
    }
    ComplementValue(old(magnitude[..]), magnitude[..]);
  }

  /** Adds one from the low end; a byte below 255 at the top is where the carry stops at last. */
  method AddOneInPlace(magnitude: array<Byte>)
    requires magnitude.Length > 0 && magnitude[0] < 255
    modifies magnitude
    ensures Value(magnitude[..], 256) == old(Value(magnitude[..], 256)) + 1
  {
    var n := magnitude.Length;
    var i := n;
    var carry := true;
    while carry
      invariant 0 <= i <= n && (carry ==> 1 <= i)
      invariant magnitude[..i] == old(magnitude[..])[..i]
      invariant Value(magnitude[..], 256) + (if carry then Pow(256, n - i) else 0) == old(Value(magnitude[..], 256)) + 1
      decreases i, carry
    {
      ghost var before := magnitude[..];
      assert magnitude[i - 1] == magnitude[..i][i - 1] == old(magnitude[..])[i - 1];
      i := i - 1;
      carry := magnitude[i] == 255;
      magnitude[i] := if carry then 0 else magnitude[i] + 1;
      CarryStep(before, i, 256);
      assert magnitude[..] == before[i := magnitude[i]];
    }
  }

  lemma CarryStep(before: seq<int>, i: nat, base: int)
    requires i < |before|
    ensures before[i] == base - 1 ==>
      Value(before[i := 0], base) + Pow(base, |before| - i) == Value(before, base) + Pow(base, |before| - i - 1)
    ensures Value(before[i := before[i] + 1], base) == Value(before, base) + Pow(base, |before| - i - 1)
  {
    ValueUpdate(before, i, before[i] + 1, base);
    ValueUpdate(before, i, 0, base);
    TopDigit(base, Pow(base, |before| - i - 1));
  }

  lemma TopDigit(base: int, p: int)
    ensures (0 - (base - 1)) * p + base * p == p
  {
    assert (0 - (base - 1)) * p == p - base * p;
  }

  /** Two's complement to magnitude, in place: invert, then add one from the low end. The carry
      always stops inside the array, because the inverted top byte is below 0x80. */
  method NegateInPlace(magnitude: array<Byte>)
    requires magnitude.Length > 0 && magnitude[0] >= 0x80
    modifies magnitude
    ensures Value(magnitude[..], 256) == Pow(256, magnitude.Length) - old(Value(magnitude[..], 256))
  {
    InvertInPlace(magnitude);
    AddOneInPlace(magnitude);
  }

  /** The length of the next chunk: all chunks but the first one are full. */
  function ChunkSize(left: nat): (size: nat)
    requires left > 0
    ensures 0 < size <= 4 && size <= left && (left - size) % 4 == 0
    ensures left % 4 == 0 ==> size == 4
  {
    if left % 4 == 0 then 4 else left % 4
  }

  /** Packs bytes into 32-bit limbs, most significant first; only the first limb may be short. */
  method PackLimbs(magnitude: seq<Byte>) returns (limbs: seq<Limb>)
    ensures Value(limbs, 0x1_0000_0000) == Value(magnitude, 256)
  {
    var n := |magnitude|;
    limbs := [];
    var pos := 0;
    assert magnitude[..0] == [] && Value([], 0x1_0000_0000) == Value([], 256);
    hide Value, ChunkSize;
    while pos < n
      invariant 0 <= pos <= n && (if pos == 0 then limbs == [] else (n - pos) % 4 == 0)
      invariant Value(limbs, 0x1_0000_0000) == Value(magnitude[..pos], 256)
    {
      var size := ChunkSize(n - pos);
      var chunk := magnitude[pos..pos + size];
      var limb: Limb := LimbOfChunk(chunk);
      assert magnitude[..pos + size] == magnitude[..pos] + chunk;
      AppendLimb(limbs, magnitude[..pos], chunk, limb);
      limbs := limbs + [limb];
      pos := pos + size;
    }
    assert magnitude[..n] == magnitude;
  }

  lemma AppendLimb(limbs: seq<Limb>, packed: seq<Byte>, chunk: seq<Byte>, limb: Limb)
    requires |chunk| == 4 || packed == limbs == []
    requires Value(limbs, 0x1_0000_0000) == Value(packed, 256) && limb == Value(chunk, 256)
    ensures Value(limbs + [limb], 0x1_0000_0000) == Value(packed + chunk, 256)
  {
    ValueConcat(packed, chunk, 256);
    ValueSnoc(limbs, limb, 0x1_0000_0000);
    if packed == [] {
      assert packed + chunk == chunk;
    } else {
      assert Pow(256, 4) == 0x1_0000_0000;
    }
  }

  /** `(limb << 8) | b` for up to four bytes; the shift never loses a bit. */
  method LimbOfChunk(chunk: seq<Byte>) returns (limb: Limb)
    requires |chunk| <= 4
    ensures limb == Value(chunk, 256)
  {
    limb := 0;
    for k := 0 to |chunk|
      invariant limb == Value(chunk[..k], 256)
      invariant 0 <= limb < Pow(256, k)
    {
      assert chunk[..k + 1] == chunk[..k] + [chunk[k]];
      ValueSnoc(chunk[..k], chunk[k], 256);
      DigitBound(limb, Pow(256, k), chunk[k], 256);
      assert k < 4 ==> Pow(256, k + 1) <= 0x1_0000_0000;
      limb := limb * 256 + chunk[k];
    }
    assert chunk[..|chunk|] == chunk;
  }

  /** One pass of schoolbook division of the limbs by 10^9, in place. Every quotient fits a
      32-bit limb, and the remainder is the next group of nine decimal digits. */
  method DivideByBillion(limbs: array<Limb>) returns (remainder: int)
    modifies limbs
    ensures 0 <= remainder < BILLION
    ensures old(Value(limbs[..], 0x1_0000_0000)) == Value(limbs[..], 0x1_0000_0000) * BILLION + remainder
  {
    remainder := 0;
    assert old(limbs[..])[..0] == [] && limbs[..0] == [];
    for k := 0 to limbs.Length
      invariant 0 <= remainder < BILLION
      invariant limbs[k..] == old(limbs[..])[k..]
      invariant Value(old(limbs[..])[..k], 0x1_0000_0000)
             == Value(limbs[..k], 0x1_0000_0000) * BILLION + remainder
    {
      var cur := remainder * 0x1_0000_0000 + limbs[k];
      ghost var before := limbs[..k];
      assert old(limbs[..])[..k + 1] == old(limbs[..])[..k] + [limbs[k]];
      ValueSnoc(old(limbs[..])[..k], limbs[k], 0x1_0000_0000);
      limbs[k] := cur / BILLION;
      assert limbs[..k + 1] == before + [limbs[k]];
      ValueSnoc(before, limbs[k], 0x1_0000_0000);
      remainder := cur % BILLION;
    }
    assert limbs[..limbs.Length] == limbs[..] && old(limbs[..])[..limbs.Length] == old(limbs[..]);
  }

  predicate AllZero(limbs: seq<Limb>) {
    forall i | 0 <= i < |limbs| :: limbs[i] == 0
  }

  lemma {:induction false} ZeroValue(limbs: seq<Limb>)
    ensures Value(limbs, 0x1_0000_0000) >= 0
    ensures Value(limbs, 0x1_0000_0000) == 0 <==> AllZero(limbs)
  {
    if limbs != [] {
      var front, last := limbs[..|limbs| - 1], limbs[|limbs| - 1];
      assert limbs == front + [last];
      ZeroValue(front);
    }
  }

  function Reversed(s: seq<int>): (r: seq<int>)
    ensures |r| == |s| && forall i :: 0 <= i < |s| ==> r[i] == s[|s| - 1 - i]
  {
    seq(|s|, i requires 0 <= i < |s| => s[|s| - 1 - i])
  }

  /** The number held by the limbs still to divide and the groups already split off. */
  ghost function Whole(high: int, groups: seq<int>, base: int): int {
    high * Pow(base, |groups|) + Value(Reversed(groups), base)
  }

  /** The base-10^9 digits of the limbs' value, least significant first, without a zero on top. */
  method BillionGroups(limbs: array<Limb>) returns (groups: seq<int>)
    modifies limbs
    ensures InBase(groups, BILLION)
    ensures Value(Reversed(groups), BILLION) == old(Value(limbs[..], 0x1_0000_0000))
    ensures groups != [] ==> groups[|groups| - 1] != 0
  {
    groups := [];
    ghost var v := Value(limbs[..], 0x1_0000_0000);
    ZeroValue(limbs[..]);
    while !AllZero(limbs[..])
      invariant InBase(groups, BILLION)
      invariant v == Value(limbs[..], 0x1_0000_0000) >= 0
      invariant v == 0 <==> AllZero(limbs[..])
      invariant Whole(v, groups, BILLION) == old(Value(limbs[..], 0x1_0000_0000))
      invariant v == 0 && groups != [] ==> groups[|groups| - 1] != 0
      decreases v
    {
      var remainder := DivideByBillion(limbs);
      ZeroValue(limbs[..]);
      NextGroup(groups, remainder, Value(limbs[..], 0x1_0000_0000), BILLION);
      v := Value(limbs[..], 0x1_0000_0000);
      groups := groups + [remainder];
    }
  }

  lemma ReversedSnoc(groups: seq<int>, r: int)
    ensures Reversed(groups + [r]) == [r] + Reversed(groups)
  {
    assert |Reversed(groups + [r])| == |[r] + Reversed(groups)|;
  }

  lemma OneDigit(r: int, base: int)
    ensures Value([r], base) == r
  {
    assert [] + [r] == [r];
    ValueSnoc([], r, base);
  }

  lemma ShiftGroup(q: int, r: int, base: int, p: int)
    ensures (q * base + r) * p == q * (base * p) + r * p
  {
    assert (q * base + r) * p == q * base * p + r * p;
    assert q * base * p == q * (base * p);
  }

  lemma NextGroup(groups: seq<int>, r: int, q: int, base: int)
    ensures Whole(q * base + r, groups, base) == Whole(q, groups + [r], base)
  {
    var p := Pow(base, |groups|);
    assert Pow(base, |groups + [r]|) == base * p;
    hide Value, Reversed, Pow;
    ReversedSnoc(groups, r);
    ValueConcat([r], Reversed(groups), base);
    OneDigit(r, base);
    ShiftGroup(q, r, base, p);
  }

  lemma BillionIsPower()
    ensures Pow(10, 9) == BILLION
  {
  }

  method GroupsToText(groups: seq<int>) returns (out: string)
    requires groups != [] && InBase(groups, BILLION) && groups[|groups| - 1] != 0
    ensures Value(Reversed(groups), BILLION) > 0 && out == NatText(Value(Reversed(groups), BILLION))
  {
    var n := |groups|;
    ghost var msf := Reversed(groups);
    var top := groups[n - 1];
    assert msf[..1] == [msf[0]];
    OneDigit(msf[0], BILLION);
    hide Value, NatText, Pow, ZeroPad;
    out := NatText(top);
    var k := 1;
    while k < n
      invariant 1 <= k <= n
      invariant Value(msf[..k], BILLION) > 0 && out == NatText(Value(msf[..k], BILLION))
    {
      var g := groups[n - 1 - k];
      assert msf[..k + 1] == msf[..k] + [g];
      ValueSnoc(msf[..k], g, BILLION);
      BillionIsPower();
      GroupText(Value(msf[..k], BILLION), g, 9);
      out := out + ZeroPad(NatText(g), 9);
      k := k + 1;
    }
    assert msf[..n] == msf;
  }

  /** The decimal text of any two's-complement big-endian integer. */
  method SignedBeToDecimal(bytes: seq<Byte>) returns (out: string)
    ensures out == IntText(SignedValue(bytes))
  {
    if bytes == [] {
      return "0";
    }
    var negative := bytes[0] >= 0x80;
    var magnitude := new Byte[|bytes|](i requires 0 <= i < |bytes| => bytes[i]);
    assert magnitude[..] == bytes;
    ValueBounds(bytes, 256);
    if negative {
      NegateInPlace(magnitude);
    }
    ghost var m := Value(magnitude[..], 256);
    assert m == if negative then -SignedValue(bytes) else SignedValue(bytes);
    var packed := PackLimbs(magnitude[..]);
    var limbs := new Limb[|packed|](i requires 0 <= i < |packed| => packed[i]);
    assert limbs[..] == packed;
    var groups := BillionGroups(limbs);
    if groups == [] {
      return "0";
    }
    var text := GroupsToText(groups);
    out := (if negative then "-" else "") + text;
  }

  /** Every byte string in the range of its width is reached: the value of `n` bytes is a signed
      8n-bit number, so the sign printed is the sign of the number. */
  lemma SignedRange(bytes: seq<Byte>)
    requires bytes != []
    ensures -Pow(256, |bytes|) <= 2 * SignedValue(bytes) < Pow(256, |bytes|)
    ensures SignedValue(bytes) < 0 <==> bytes[0] >= 0x80
  {
    hide Value;
    var rest := bytes[1..];
    assert bytes == [bytes[0]] + rest;
    ValueConcat([bytes[0]], rest, 256);
    OneDigit(bytes[0], 256);
    ValueBounds(rest, 256);
    TopByte(bytes[0], Pow(256, |rest|), Value(rest, 256));
  }

  lemma TopByte(b: Byte, p: int, low: int)
    requires 0 <= low < p
    ensures b >= 0x80 ==> 256 * p <= 2 * (b * p + low) < 512 * p
    ensures b < 0x80 ==> 0 <= 2 * (b * p + low) < 256 * p
  {
    if b >= 0x80 {
      assert 0x80 * p <= b * p <= 0xff * p;
    } else {
      assert 0 <= b * p <= 0x7f * p;
    }
  }
}
