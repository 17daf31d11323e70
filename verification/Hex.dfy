/** Hexadecimal numbers of up to 64 bits: `%x` and `parseHexUint` of `client/internal/chunked.go`. */
module Hex {
  import opened Wrappers
  import opened Bytes

  const TWO_64 := 0x1_0000_0000_0000_0000

  predicate IsHex(b: byte) {
    48 <= b <= 57 || 97 <= b <= 102 || 65 <= b <= 70
  }

  function Digit(b: byte): (d: nat)
    requires IsHex(b)
    ensures d < 16
  {
    if 48 <= b <= 57 then b - 48 else if 97 <= b <= 102 then b - 97 + 10 else b - 65 + 10
  }

  ghost predicate AllHex(v: seq<byte>) {
    forall i :: 0 <= i < |v| ==> IsHex(v[i])
  }

  /** The number that the digits of `v` write. */
  ghost function Number(v: seq<byte>): nat
    requires AllHex(v)
  {
    if v == [] then 0 else Number(v[..|v| - 1]) * 16 + Digit(v[|v| - 1])
  }

  /** `%x`. */
  function Text(n: nat): seq<byte> {
    if n < 16 then [Lower(n)] else Text(n / 16) + [Lower(n % 16)]
  }

  function Lower(d: nat): (b: byte)
    requires d < 16
    ensures IsHex(b) && Digit(b) == d
  {
    if d < 10 then 48 + d else 97 + d - 10
  }

  ghost function Pow16(k: nat): nat {
    if k == 0 then 1 else Pow16(k - 1) * 16
  }

  lemma Pow16Of16()
    ensures Pow16(16) == TWO_64
  {
    assert Pow16(4) == 0x1_0000;
    assert Pow16(8) == 0x1_0000_0000;
    assert Pow16(12) == 0x1_0000_0000_0000;
  }

  lemma {:induction false} Pow16Grows(j: nat, k: nat)
    requires j <= k
    ensures Pow16(j) <= Pow16(k)
    decreases k - j
  {
    if j < k { Pow16Grows(j + 1, k); }
  }

  lemma {:induction false} NumberBelow(v: seq<byte>)
    requires AllHex(v)
    ensures Number(v) < Pow16(|v|)
  {
    if v != [] { NumberBelow(v[..|v| - 1]); }
  }

  /** The value of a chunk-size of at most 16 digits; the empty one is 0. */
  ghost function Value(v: seq<byte>): Option<nat> {
    if AllHex(v) && |v| <= 16 then Some(Number(v)) else None
  }

  lemma PowOf0()
    ensures Pow16(0) == 1
  {
  }

  lemma NoWrap(n: nat, i: nat)
    requires n < Pow16(i) && i < 16
    ensures n * 16 % TWO_64 == n * 16 && n * 16 + 15 < Pow16(i + 1) <= TWO_64
  {
    Pow16Of16();
    Pow16Grows(i + 1, 16);
  }

  datatype Error = InvalidByte | TooLarge

  /** parseHexUint, in 64-bit arithmetic that never wraps around. */
  method ParseHexUint(v: seq<byte>) returns (n: nat, err: Option<Error>)
    ensures n < TWO_64 && Value(v) == if err.None? then Some(n) else None
    ensures err == Some(TooLarge) ==> |v| > 16 && AllHex(v[..17])
    ensures err == Some(InvalidByte) ==> !AllHex(v)
  {
    hide Pow16, IsHex, Digit;
    n, err := 0, None;
    assert Pow16(0) == 1 && 1 < TWO_64 by { PowOf0(); }
    for i := 0 to |v|
      invariant AllHex(v[..i]) && i <= 16 && n == Number(v[..i]) < Pow16(i) && n < TWO_64
    {
      assert v[..i + 1][..i] == v[..i];
      var b := v[i];
      if !IsHex(b) { return 0, Some(InvalidByte); }
      if i == 16 { return 0, Some(TooLarge); }
      NoWrap(n, i);
      n := n * 16 % TWO_64 + Digit(b);
    }
    assert v[..|v|] == v;
  }

  lemma {:induction false} TextIsShort(n: nat, k: nat)
    requires 0 < k && n < Pow16(k)
    ensures AllHex(Text(n)) && 1 <= |Text(n)| <= k
  {
    if n >= 16 {
      assert k > 1 by { assert Pow16(1) == 16; }
      TextIsShort(n / 16, k - 1);
    }
  }

  /** The parser inverts `%x` on all 64-bit numbers. */
  lemma {:induction false} ValueOfText(n: nat)
    requires n < TWO_64
    ensures Value(Text(n)) == Some(n)
  {
    Pow16Of16();
    TextIsShort(n, 16);
    NumberOfText(n);
  }

  lemma {:induction false} NumberOfText(n: nat)
    requires AllHex(Text(n))
    ensures Number(Text(n)) == n
  {
    var t := Text(n);
    if n >= 16 {
      assert t[..|t| - 1] == Text(n / 16);
      assert AllHex(Text(n / 16));
      NumberOfText(n / 16);
    } else {
      assert t[..0] == [];
    }
  }

  /** The digits, and what they are worth. */
  lemma DigitIs(b: byte)
    ensures IsHex(b) <==> b in Ascii("0123456789abcdef") || b in Ascii("0123456789ABCDEF")
    ensures IsHex(b) ==>
      Ascii("0123456789abcdef")[Digit(b)] == b || Ascii("0123456789ABCDEF")[Digit(b)] == b
  {
    DigitTexts();
    hide Ascii;
    var lower, upper := Ascii("0123456789abcdef"), Ascii("0123456789ABCDEF");
    if IsHex(b) { assert lower[Digit(b)] == b || upper[Digit(b)] == b; }
  }

  lemma DigitTexts()
    ensures |Ascii("0123456789abcdef")| == 16 && |Ascii("0123456789ABCDEF")| == 16
    ensures forall d :: 0 <= d < 16 ==> Ascii("0123456789abcdef")[d] == if d < 10 then 48 + d else 87 + d
    ensures forall d :: 0 <= d < 16 ==> Ascii("0123456789ABCDEF")[d] == if d < 10 then 48 + d else 55 + d
  {
  }

  /** The same text, but for letters that are upper-case. */
  ghost predicate SameButCase(v: seq<byte>, u: seq<byte>) {
    |u| == |v| && forall i :: 0 <= i < |v| ==> u[i] == v[i] || (97 <= v[i] <= 102 && u[i] == v[i] - 32)
  }

  /** Upper-case text reads as the same number. */
  lemma {:induction false} CaseIgnored(v: seq<byte>, u: seq<byte>)
    requires SameButCase(v, u) && AllHex(v)
    ensures AllHex(u) && Number(u) == Number(v)
  {
    if v != [] { CaseIgnored(v[..|v| - 1], u[..|u| - 1]); }
  }

  /** The parser reads the text of a 64-bit number back in either case, and in a mixture of both. */
  lemma ValueInAnyCase(n: nat, u: seq<byte>)
    requires n < TWO_64 && SameButCase(Text(n), u)
    ensures Value(u) == Some(n)
  {
    hide Number, Text;
    Pow16Of16();
    TextIsShort(n, 16);
    ValueOfText(n);
    CaseIgnored(Text(n), u);
  }
}
