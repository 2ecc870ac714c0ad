/** Decimal and hexadecimal text of numbers, as JavaScript prints them. */
module Numerals {
  import opened Common

  newtype byte = x: int | 0 <= x < 256

  const DecimalDigits := "0123456789"
  const HexDigits := "0123456789abcdef"

  predicate IsDigit(c: char) { '0' <= c <= '9' }

  /** `String(n)` for a non-negative integer: shortest decimal numeral. */
  function NatToString(n: nat): (s: string)
    ensures |s| >= 1
    ensures forall i :: 0 <= i < |s| ==> IsDigit(s[i])
    ensures |s| > 1 ==> s[0] != '0'
  {
    if n < 10 then [DecimalDigits[n]]
    else NatToString(n / 10) + [DecimalDigits[n % 10]]
  }

  /** Value of a string of decimal digits (`None` when a non-digit occurs or the string is empty). */
  function ParseNat(s: string): (r: Option<nat>)
    ensures r.Some? <==> |s| >= 1 && forall i :: 0 <= i < |s| ==> IsDigit(s[i])
  {
    if |s| == 0 then None
    else if !IsDigit(s[|s| - 1]) then None
    else if |s| == 1 then Some((s[0] as int - '0' as int) as nat)
    else
      match ParseNat(s[..|s| - 1])
      case None => None
      case Some(v) => Some(v * 10 + (s[|s| - 1] as int - '0' as int))
  }

  /** The numeral reads back as the number it was printed from. */
  lemma {:induction false} ParsePrinted(n: nat)
    ensures ParseNat(NatToString(n)) == Some(n)
  {
    var s := NatToString(n);
    DigitValue(n % 10);
    if n >= 10 {
      ParsePrinted(n / 10);
      var p := NatToString(n / 10);
      assert s == p + [DecimalDigits[n % 10]];
      assert s[..|s| - 1] == p && s[|s| - 1] == DecimalDigits[n % 10];
      assert |s| > 1 && IsDigit(s[|s| - 1]);
      assert ParseNat(s) == Some((n / 10) * 10 + (DecimalDigits[n % 10] as int - '0' as int));
      assert (n / 10) * 10 + n % 10 == n;
    }
  }

  lemma DigitValue(d: nat)
    requires d < 10
    ensures DecimalDigits[d] as int - '0' as int == d
  {
  }

  /** Printing is injective: different numbers get different numerals. */
  lemma PrintedInjective(m: nat, n: nat)
    requires NatToString(m) == NatToString(n)
    ensures m == n
  {
    ParsePrinted(m);
    ParsePrinted(n);
  }

  /** `Buffer.from(bytes).toString('hex')`: two lower-case hex digits per byte. */
  function Hex(bytes: seq<byte>): (s: string)
    ensures |s| == 2 * |bytes|
    ensures forall i :: 0 <= i < |s| ==> s[i] in HexDigits
  {
    if |bytes| == 0 then ""
    else [HexDigits[bytes[0] / 16], HexDigits[bytes[0] % 16]] + Hex(bytes[1..])
  }

  function HexValue(c: char): nat {
    if '0' <= c <= '9' then c as int - '0' as int
    else if 'a' <= c <= 'f' then c as int - 'a' as int + 10
    else 0
  }

  /** Reads pairs of hex digits back into bytes. */
  function Unhex(s: string): seq<byte> {
    if |s| < 2 then []
    else
      var v := HexValue(s[0]) * 16 + HexValue(s[1]);
      [if v < 256 then v as byte else 0] + Unhex(s[2..])
  }

  /** The hex text determines the bytes it was made from. */
  lemma {:induction false} UnhexHex(bytes: seq<byte>)
    ensures Unhex(Hex(bytes)) == bytes
  {
    if |bytes| > 0 {
      var b := bytes[0];
      UnhexHex(bytes[1..]);
      UnhexStep(b, Hex(bytes[1..]));
      assert bytes == [b] + bytes[1..];
    }
  }

  /** The first two hex digits read back as the first byte. */
  lemma UnhexStep(b: byte, tail: string)
    ensures Unhex([HexDigits[b / 16], HexDigits[b % 16]] + tail) == [b] + Unhex(tail)
  {
    var s := [HexDigits[b / 16], HexDigits[b % 16]] + tail;
    assert s[0] == HexDigits[b / 16] && s[1] == HexDigits[b % 16] && s[2..] == tail;
    ByteDigits(b);
  }

  lemma ByteDigits(b: byte)
    ensures HexValue(HexDigits[b / 16]) * 16 + HexValue(HexDigits[b % 16]) == b as int
  {
    var hi, lo := b as int / 16, b as int % 16;
    HexDigitValue(hi);
    HexDigitValue(lo);
    assert hi * 16 + lo == b as int;
  }

  lemma HexDigitValue(d: nat)
    requires d < 16
    ensures HexValue(HexDigits[d]) == d
  {
  }
}
