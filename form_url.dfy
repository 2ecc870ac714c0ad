/**
 * The application/x-www-form-urlencoded serializer that `URLSearchParams`
 * uses when a URL's query is rewritten (WHATWG URL Standard, section 5.2):
 * each character is UTF-8 encoded; ASCII letters, digits and `*-._` stay,
 * a space becomes `+`, every other byte becomes `%` and two upper-case hex digits.
 */
module FormUrl {
  import opened Numerals

  const UpperHex := "0123456789ABCDEF"

  /** Bytes the serializer leaves as they are. */
  predicate Unreserved(b: int) {
    b == 0x2A || b == 0x2D || b == 0x2E || b == 0x5F
    || (0x30 <= b <= 0x39) || (0x41 <= b <= 0x5A) || (0x61 <= b <= 0x7A)
  }

  /** Characters that can appear in serialized text. */
  predicate SafeChar(c: char) {
    c == '+' || c == '%' || Unreserved(c as int)
  }

  /** UTF-8 encoding of one Unicode scalar value. */
  function Utf8(c: char): (bs: seq<byte>)
    ensures 1 <= |bs| <= 4
    ensures c as int < 0x80 ==> bs == [c as int as byte]
    ensures c as int >= 0x80 ==> forall i :: 0 <= i < |bs| ==> bs[i] >= 0x80
  {
    var cp := c as int;
    if cp < 0x80 then [cp as byte]
    else if cp < 0x800 then [(0xC0 + cp / 64) as byte, (0x80 + cp % 64) as byte]
    else if cp < 0x10000 then
      [(0xE0 + cp / 4096) as byte, (0x80 + (cp / 64) % 64) as byte, (0x80 + cp % 64) as byte]
    else
      [(0xF0 + cp / 262144) as byte, (0x80 + (cp / 4096) % 64) as byte,
       (0x80 + (cp / 64) % 64) as byte, (0x80 + cp % 64) as byte]
  }

  function EncodeByte(b: byte): (r: string)
    ensures forall i :: 0 <= i < |r| ==> SafeChar(r[i])
  {
    if b == 0x20 then "+"
    else if Unreserved(b as int) then [b as int as char]
    else ['%', UpperHex[b / 16], UpperHex[b % 16]]
  }

  function EncodeBytes(bs: seq<byte>): (r: string)
    ensures forall i :: 0 <= i < |r| ==> SafeChar(r[i])
  {
    if |bs| == 0 then "" else EncodeByte(bs[0]) + EncodeBytes(bs[1..])
  }

  /**
   * Serialized form of one value. Its text never holds `&`, `=`, `#`, `?`
   * or a space, so it cannot end the query parameter it is placed in.
   */
  function FormEncode(s: string): (r: string)
    ensures forall i :: 0 <= i < |r| ==> SafeChar(r[i])
  {
    if |s| == 0 then "" else EncodeBytes(Utf8(s[0])) + FormEncode(s[1..])
  }

  function UpperHexValue(c: char): nat {
    if '0' <= c <= '9' then c as int - '0' as int
    else if 'A' <= c <= 'F' then c as int - 'A' as int + 10
    else 0
  }

  /** The parser's reading of serialized text: `+` is a space, `%XY` is the byte XY. */
  function FormDecode(r: string): string {
    if |r| == 0 then ""
    else if r[0] == '+' then " " + FormDecode(r[1..])
    else if r[0] == '%' && |r| >= 3 then
      [(UpperHexValue(r[1]) * 16 + UpperHexValue(r[2])) as char] + FormDecode(r[3..])
    else [r[0]] + FormDecode(r[1..])
  }

  predicate Ascii(s: string) {
    forall i :: 0 <= i < |s| ==> s[i] as int < 0x80
  }

  lemma AsciiConcat(a: string, b: string)
    requires Ascii(a) && Ascii(b)
    ensures Ascii(a + b)
  {
    forall i | 0 <= i < |a + b| ensures (a + b)[i] as int < 0x80 {
      if i < |a| { assert (a + b)[i] == a[i]; } else { assert (a + b)[i] == b[i - |a|]; }
    }
  }

  /** An ASCII value is recovered exactly from its serialized form. */
  lemma {:induction false} DecodeEncode(s: string)
    requires Ascii(s)
    ensures FormDecode(FormEncode(s)) == s
  {
    if |s| > 0 {
      var b := s[0] as int as byte;
      assert Utf8(s[0]) == [b];
      assert EncodeBytes([b]) == EncodeByte(b);
      assert Ascii(s[1..]);
      DecodeEncode(s[1..]);
      DecodeByte(b, FormEncode(s[1..]));
      assert s == [s[0]] + s[1..];
    }
  }

  /** Decoding consumes exactly the serialized form of one ASCII byte. */
  lemma DecodeByte(b: byte, rest: string)
    requires b < 0x80
    ensures FormDecode(EncodeByte(b) + rest) == [b as int as char] + FormDecode(rest)
  {
    var e := EncodeByte(b);
    if b == 0x20 {
      assert (e + rest)[0] == '+' && (e + rest)[1..] == rest;
    } else if Unreserved(b as int) {
      assert (e + rest)[0] == b as int as char && (e + rest)[1..] == rest;
    } else {
      DecodeEscaped(b, rest);
    }
  }

  /** A `%XY` escape decodes to the byte it was made from. */
  lemma DecodeEscaped(b: byte, rest: string)
    requires b != 0x20 && !Unreserved(b as int)
    ensures FormDecode(EncodeByte(b) + rest) == [b as int as char] + FormDecode(rest)
  {
    var hi, lo := b as int / 16, b as int % 16;
    var t := ['%', UpperHex[hi], UpperHex[lo]] + rest;
    assert EncodeByte(b) + rest == t;
    UpperHexDigit(hi);
    UpperHexDigit(lo);
    assert t[0] == '%' && t[1] == UpperHex[hi] && t[2] == UpperHex[lo] && t[3..] == rest;
    assert hi * 16 + lo == b as int;
  }

  lemma UpperHexDigit(d: nat)
    requires d < 16
    ensures UpperHexValue(UpperHex[d]) == d
  {
  }
}
