/** UTF-8 as an encoding of scalar values (RFC 3629, section 3), and its agreement with the byte-wise test. */
module Utf8 {
  import opened EolNormalize

  /** A code point that is no surrogate. */
  type Scalar = c: int | 0 <= c < 0xD800 || 0xE000 <= c < 0x11_0000

  type Text = seq<Scalar>

  /** The value's bits, six to a continuation byte, the rest behind the marker of the first byte. */
  function Encode(c: Scalar): (b: Bytes)
    ensures 1 <= |b| <= 4
  {
    if c < 0x80 then [c]
    else if c < 0x800 then [0xC0 + c / 64, 0x80 + c % 64]
    else if c < 0x1_0000 then [0xE0 + c / 4096, 0x80 + c / 64 % 64, 0x80 + c % 64]
    else [0xF0 + c / 262144, 0x80 + c / 4096 % 64, 0x80 + c / 64 % 64, 0x80 + c % 64]
  }

  function EncodeAll(cs: Text): Bytes {
    if cs == [] then [] else Encode(cs[0]) + EncodeAll(cs[1..])
  }

  // ---- One character -------------------------------------------------------------------

  lemma Encoded3(c: int)
    requires 0x800 <= c < 0xD800 || 0xE000 <= c < 0x1_0000
    ensures var b := [0xE0 + c / 4096, 0x80 + c / 64 % 64, 0x80 + c % 64];
            && 0xE0 <= b[0] <= 0xEF && 0x80 <= b[1] <= 0xBF && 0x80 <= b[2] <= 0xBF
            && (b[0] == 0xE0 ==> b[1] >= 0xA0) && (b[0] == 0xED ==> b[1] <= 0x9F)
  {
  }

  lemma Encoded4(c: int)
    requires 0x1_0000 <= c < 0x11_0000
    ensures var b := [0xF0 + c / 262144, 0x80 + c / 4096 % 64, 0x80 + c / 64 % 64, 0x80 + c % 64];
            && 0xF0 <= b[0] <= 0xF4 && 0x80 <= b[1] <= 0xBF && 0x80 <= b[2] <= 0xBF && 0x80 <= b[3] <= 0xBF
            && (b[0] == 0xF0 ==> b[1] >= 0x90) && (b[0] == 0xF4 ==> b[1] <= 0x8F)
  {
  }

  /** The encoding of a scalar value is read as one character, whatever follows it. */
  lemma EncodedIsChar(c: Scalar, rest: Bytes)
    ensures CharLen(Encode(c) + rest) == |Encode(c)|
  {
    var b := Encode(c) + rest;
    assert forall i :: 0 <= i < |Encode(c)| ==> b[i] == Encode(c)[i];
    if 0x800 <= c < 0x1_0000 {
      Encoded3(c);
    } else if 0x1_0000 <= c {
      Encoded4(c);
    }
  }

  /** The value that two, three and four bytes stand for. */
  function Value2(p: int, q: int): int {
    (p - 0xC0) * 64 + (q - 0x80)
  }

  function Value3(p: int, q: int, r: int): int {
    (p - 0xE0) * 4096 + (q - 0x80) * 64 + (r - 0x80)
  }

  function Value4(p: int, q: int, r: int, s: int): int {
    (p - 0xF0) * 262144 + (q - 0x80) * 4096 + (r - 0x80) * 64 + (s - 0x80)
  }

  function Decode(b: Bytes): int
    requires CharLen(b) > 0
  {
    match CharLen(b)
    case 1 => b[0]
    case 2 => Value2(b[0], b[1])
    case 3 => Value3(b[0], b[1], b[2])
    case _ => Value4(b[0], b[1], b[2], b[3])
  }

  lemma Digits2(p: Byte, q: Byte)
    requires 0xC2 <= p <= 0xDF && 0x80 <= q <= 0xBF
    ensures var c := Value2(p, q); 0x80 <= c < 0x800 && Encode(c) == [p, q]
  {
  }

  lemma Digits3(p: Byte, q: Byte, r: Byte)
    requires 0xE0 <= p <= 0xEF && 0x80 <= q <= 0xBF && 0x80 <= r <= 0xBF
    requires (p == 0xE0 ==> q >= 0xA0) && (p == 0xED ==> q <= 0x9F)
    ensures var c := Value3(p, q, r);
            0x800 <= c < 0x1_0000 && (c < 0xD800 || 0xE000 <= c) && Encode(c) == [p, q, r]
  {
    var c := Value3(p, q, r);
    assert c / 4096 == p - 0xE0;
    assert c / 64 == (p - 0xE0) * 64 + (q - 0x80);
  }

  /** Six bits in front of six more. */
  lemma SixBits(x: nat, d: nat)
    requires d < 64
    ensures (x * 64 + d) / 64 == x && (x * 64 + d) % 64 == d
  {
  }

  lemma Shifts(c: nat)
    ensures c / 4096 == c / 64 / 64 && c / 262144 == c / 64 / 64 / 64
  {
  }

  lemma FourDigits(x: nat, y: nat, z: nat, t: nat, xy: nat, xyz: nat, c: nat)
    requires y < 64 && z < 64 && t < 64
    requires xy == x * 64 + y && xyz == xy * 64 + z && c == xyz * 64 + t
    ensures c / 262144 == x && c / 4096 % 64 == y && c / 64 % 64 == z && c % 64 == t
  {
    SixBits(x, y);
    SixBits(xy, z);
    SixBits(xyz, t);
    Shifts(c);
  }

  lemma Digits4(p: Byte, q: Byte, r: Byte, s: Byte)
    requires 0xF0 <= p <= 0xF4 && 0x80 <= q <= 0xBF && 0x80 <= r <= 0xBF && 0x80 <= s <= 0xBF
    requires (p == 0xF0 ==> q >= 0x90) && (p == 0xF4 ==> q <= 0x8F)
    ensures var c := Value4(p, q, r, s); 0x1_0000 <= c < 0x11_0000 && Encode(c) == [p, q, r, s]
  {
    var x, y, z, t, c := p - 0xF0, q - 0x80, r - 0x80, s - 0x80, Value4(p, q, r, s);
    hide Encode;
    InRange4(p, q, r, s);
    FourDigits(x, y, z, t, x * 64 + y, (x * 64 + y) * 64 + z, c);
    EncodeOfDigits(c, p, q, r, s);
  }

  lemma InRange4(p: Byte, q: Byte, r: Byte, s: Byte)
    requires 0xF0 <= p <= 0xF4 && 0x80 <= q <= 0xBF && 0x80 <= r <= 0xBF && 0x80 <= s <= 0xBF
    requires (p == 0xF0 ==> q >= 0x90) && (p == 0xF4 ==> q <= 0x8F)
    ensures 0x1_0000 <= Value4(p, q, r, s) < 0x11_0000
  {
  }

  lemma EncodeOfDigits(c: Scalar, p: Byte, q: Byte, r: Byte, s: Byte)
    requires 0x1_0000 <= c && p >= 0xF0 && q >= 0x80 && r >= 0x80 && s >= 0x80
    requires c / 262144 == p - 0xF0 && c / 4096 % 64 == q - 0x80 && c / 64 % 64 == r - 0x80 && c % 64 == s - 0x80
    ensures Encode(c) == [p, q, r, s]
  {
  }

  /** Every character the test accepts is the encoding of a scalar value. */
  lemma CharIsEncoded(b: Bytes)
    requires CharLen(b) > 0
    ensures var c := Decode(b);
            (0 <= c < 0xD800 || 0xE000 <= c < 0x11_0000) && b[..CharLen(b)] == Encode(c)
  {
    hide Encode, Value2, Value3, Value4;
    match CharLen(b)
    case 1 => OneByteChar(b[0]);
    case 2 => Digits2(b[0], b[1]);
    case 3 => Digits3(b[0], b[1], b[2]);
    case _ => Digits4(b[0], b[1], b[2], b[3]);
  }

  lemma OneByteChar(p: Byte)
    requires p < 0x80
    ensures Encode(p) == [p]
  {
  }

  // ---- Texts -----------------------------------------------------------------------------

  lemma {:induction false} EncodingIsValid(cs: Text)
    ensures ValidUtf8(EncodeAll(cs))
  {
    hide CharLen, Encode;
    if cs != [] {
      var b := EncodeAll(cs);
      EncodedIsChar(cs[0], EncodeAll(cs[1..]));
      EncodingIsValid(cs[1..]);
      assert b[|Encode(cs[0])|..] == EncodeAll(cs[1..]);
    }
  }

  lemma {:induction false} ValidIsEncoding(b: Bytes) returns (cs: Text)
    requires ValidUtf8(b)
    ensures b == EncodeAll(cs)
    decreases |b|
  {
    hide CharLen, Encode, Decode;
    if b == [] {
      cs := [];
    } else {
      CharIsEncoded(b);
      var rest := ValidIsEncoding(b[CharLen(b)..]);
      cs := [Decode(b)] + rest;
      assert b == b[..CharLen(b)] + b[CharLen(b)..];
      assert cs[1..] == rest;
    }
  }

  /** The byte-wise test accepts exactly the encodings of texts. */
  lemma ValidIffEncoding(b: Bytes)
    ensures ValidUtf8(b) <==> exists cs :: b == EncodeAll(cs)
  {
    if ValidUtf8(b) {
      var cs := ValidIsEncoding(b);
      assert b == EncodeAll(cs);
    }
    if exists cs :: b == EncodeAll(cs) {
      var cs :| b == EncodeAll(cs);
      EncodingIsValid(cs);
    }
  }

  lemma DecodeEncoded(c: Scalar)
    ensures CharLen(Encode(c)) > 0 && Decode(Encode(c)) == c
  {
    EncodedIsChar(c, []);
    assert Encode(c) + [] == Encode(c);
    hide CharLen;
    Shifts(c);
    var c1 := c / 64;
    var c2 := c1 / 64;
    assert c == c1 * 64 + c % 64 && c1 == c2 * 64 + c1 % 64 && c2 == c2 / 64 * 64 + c2 % 64;
  }

  /** Two texts never share an encoding. */
  lemma {:induction false} EncodeAllInjective(cs: Text, ds: Text)
    requires EncodeAll(cs) == EncodeAll(ds)
    ensures cs == ds
  {
    hide CharLen, Encode, Decode;
    if cs != [] && ds != [] {
      var b := EncodeAll(cs);
      EncodedIsChar(cs[0], EncodeAll(cs[1..]));
      EncodedIsChar(ds[0], EncodeAll(ds[1..]));
      assert Encode(cs[0]) == b[..CharLen(b)] == Encode(ds[0]);
      DecodeEncoded(cs[0]);
      DecodeEncoded(ds[0]);
      assert EncodeAll(cs[1..]) == b[CharLen(b)..] == EncodeAll(ds[1..]);
      EncodeAllInjective(cs[1..], ds[1..]);
      assert cs == [cs[0]] + cs[1..] && ds == [ds[0]] + ds[1..];
    }
  }
}
