/** The UTF-8 that counts the characters of a PIN and checks text strings, against its definition (section 3
    of RFC 3629): a byte string is valid if and only if it encodes Unicode scalar values, as many as are
    counted. */
module Utf8 {
  import opened Bytes

  /** A Unicode scalar value: no surrogate, and at most 10FFFF. */
  type Scalar = n: nat | n < 0xD800 || 0xE000 <= n < 0x11_0000

  /** One to four bytes, six bits in each after the first. */
  function Encode(c: Scalar): (b: bytes)
    ensures 1 <= |b| <= 4
  {
    if c < 0x80 then [c]
    else if c < 0x800 then [0xC0 + c / 0x40, 0x80 + c % 0x40]
    else if c < 0x1_0000 then [0xE0 + c / 0x1000, 0x80 + c / 0x40 % 0x40, 0x80 + c % 0x40]
    else [0xF0 + c / 0x4_0000, 0x80 + c / 0x1000 % 0x40, 0x80 + c / 0x40 % 0x40, 0x80 + c % 0x40]
  }

  function EncodeAll(cs: seq<Scalar>): bytes {
    if cs == [] then [] else Encode(cs[0]) + EncodeAll(cs[1..])
  }

  /** The bytes of one scalar value, whatever follows, are taken as one. */
  lemma HeadOfEncoded(c: Scalar, rest: bytes)
    ensures HeadWidth(Encode(c) + rest) == |Encode(c)|
  {
    var (head, b) := (Encode(c), Encode(c) + rest);
    assert forall i :: 0 <= i < |head| ==> b[i] == head[i];
    if 0x800 <= c < 0x1_0000 {
      Leading3(c);
    } else if c >= 0x1_0000 {
      Leading4(c);
    }
  }

  /** No longer form than needed, and no surrogate. */
  lemma Leading3(c: Scalar)
    requires 0x800 <= c < 0x1_0000
    ensures var (x, y) := (0xE0 + c / 0x1000, 0x80 + c / 0x40 % 0x40);
            x <= 0xEF && Tail(y) && (x == 0xE0 ==> y >= 0xA0) && (x == 0xED ==> y <= 0x9F)
  {
    var q := c / 0x40;
    Quotients(c);
    assert q == 0x40 * (c / 0x1000) + q % 0x40;
  }

  lemma Leading4(c: Scalar)
    requires c >= 0x1_0000
    ensures var (x, y) := (0xF0 + c / 0x4_0000, 0x80 + c / 0x1000 % 0x40);
            x <= 0xF4 && Tail(y) && (x == 0xF0 ==> y >= 0x90) && (x == 0xF4 ==> y <= 0x8F)
  {
    var q := c / 0x1000;
    Quotients(c);
    assert q == 0x40 * (c / 0x4_0000) + q % 0x40;
  }

  /** What is taken as one is the bytes of a scalar value. */
  lemma HeadIsEncoded(b: bytes) returns (c: Scalar)
    requires HeadWidth(b) > 0
    ensures Encode(c) == b[..HeadWidth(b)]
  {
    var w := HeadWidth(b);
    if w == 1 {
      c := b[0];
    } else if w == 2 {
      c := TwoBytes(b[0], b[1]);
    } else if w == 3 {
      c := ThreeBytes(b[0], b[1], b[2]);
    } else {
      c := FourBytes(b[0], b[1], b[2], b[3]);
    }
  }

  lemma Sextets(high: nat, low: nat) returns (n: nat)
    requires low < 0x40
    ensures n == 0x40 * high + low && n / 0x40 == high && n % 0x40 == low
  {
    n := 0x40 * high + low;
  }

  lemma Quotients(n: nat)
    ensures n / 0x1000 == n / 0x40 / 0x40 && n / 0x4_0000 == n / 0x1000 / 0x40
  {
  }

  lemma TwoBytes(x: byte, y: byte) returns (c: Scalar)
    requires 0xC2 <= x <= 0xDF && Tail(y)
    ensures Encode(c) == [x, y]
  {
    var n := Sextets(x - 0xC0, y - 0x80);
    c := n;
  }

  lemma ThreeBytes(x: byte, y: byte, z: byte) returns (c: Scalar)
    requires 0xE0 <= x <= 0xEF && Tail(y) && Tail(z)
    requires (x == 0xE0 ==> y >= 0xA0) && (x == 0xED ==> y <= 0x9F)
    ensures Encode(c) == [x, y, z]
  {
    var m := Sextets(x - 0xE0, y - 0x80);
    var n := Sextets(m, z - 0x80);
    Quotients(n);
    c := n;
  }

  lemma FourBytes(x: byte, y: byte, z: byte, t: byte) returns (c: Scalar)
    requires 0xF0 <= x <= 0xF4 && Tail(y) && Tail(z) && Tail(t)
    requires (x == 0xF0 ==> y >= 0x90) && (x == 0xF4 ==> y <= 0x8F)
    ensures Encode(c) == [x, y, z, t]
  {
    var l := Sextets(x - 0xF0, y - 0x80);
    var m := Sextets(l, z - 0x80);
    var n := Sextets(m, t - 0x80);
    Quotients(n);
    c := n;
  }

  lemma {:induction false} EncodedIsValid(cs: seq<Scalar>)
    ensures ValidUtf8(EncodeAll(cs)) && CountCodePoints(EncodeAll(cs)) == |cs|
  {
    if cs != [] {
      var (head, rest) := (Encode(cs[0]), EncodeAll(cs[1..]));
      HeadOfEncoded(cs[0], rest);
      EncodedIsValid(cs[1..]);
      assert (head + rest)[|head|..] == rest;
    }
  }

  lemma {:induction false} ValidIsEncoded(b: bytes) returns (cs: seq<Scalar>)
    requires ValidUtf8(b)
    ensures EncodeAll(cs) == b
  {
    cs := [];
    if b != [] {
      var w := HeadWidth(b);
      var c := HeadIsEncoded(b);
      var others := ValidIsEncoded(b[w..]);
      cs := [c] + others;
      assert cs[1..] == others && b == b[..w] + b[w..];
    }
  }

  /** Valid is what encodes scalar values; what encodes them counts as that many characters, and what does
      not counts as none. */
  lemma ValidUtf8Iff(b: bytes)
    ensures ValidUtf8(b) <==> exists cs :: EncodeAll(cs) == b
    ensures forall cs :: EncodeAll(cs) == b ==> CodePoints(b) == |cs|
    ensures !ValidUtf8(b) ==> CodePoints(b) == 0
  {
    if ValidUtf8(b) {
      var cs := ValidIsEncoded(b);
    }
    forall cs | EncodeAll(cs) == b ensures ValidUtf8(b) && CodePoints(b) == |cs| {
      EncodedIsValid(cs);
    }
  }
}
