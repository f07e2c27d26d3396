/** UTF-8 by code points: the byte strings `Bytes.ValidUtf8` accepts are exactly the encodings of
    sequences of Unicode scalar values (section 3 of RFC 3629). */
module Utf8 {
  import opened Bytes

  predicate Scalar(cp: int) {
    0 <= cp <= 0x10FFFF && !(0xD800 <= cp <= 0xDFFF)
  }

  function Encode(cp: int): Bytes
    requires Scalar(cp)
  {
    if cp < 0x80 then [cp]
    else if cp < 0x800 then [0xC0 + cp / 64, 0x80 + cp % 64]
    else if cp < 0x10000 then [0xE0 + cp / 4096, 0x80 + cp / 64 % 64, 0x80 + cp % 64]
    else [0xF0 + cp / 262144, 0x80 + cp / 4096 % 64, 0x80 + cp / 64 % 64, 0x80 + cp % 64]
  }

  predicate Scalars(cps: seq<int>) {
    forall i :: 0 <= i < |cps| ==> Scalar(cps[i])
  }

  function EncodeAll(cps: seq<int>): Bytes
    requires Scalars(cps)
  {
    if cps == [] then [] else Encode(cps[0]) + EncodeAll(cps[1..])
  }

  /** The six-bit digits of a number. */
  lemma Digits(x: int, y: int, z: int, w: int)
    requires 0 <= y < 64 && 0 <= z < 64 && 0 <= w < 64
    ensures var cp := 262144 * x + 4096 * y + 64 * z + w;
            && cp / 262144 == x && cp / 4096 % 64 == y && cp / 64 % 64 == z && cp % 64 == w
            && cp / 4096 == 64 * x + y && cp / 64 == 4096 * x + 64 * y + z
  {
    var cp := 262144 * x + 4096 * y + 64 * z + w;
    assert cp / 64 == 4096 * x + 64 * y + z;
    assert cp / 4096 == 64 * x + y;
    assert cp / 262144 == x;
  }

  lemma EncodedLen(cp: int)
    requires Scalar(cp)
    ensures CharLen(Encode(cp)) == |Encode(cp)| > 0
  {
    SixBits(cp, cp / 262144, cp / 4096 % 64, cp / 64 % 64, cp % 64);
    if 0x10000 <= cp {
      EncodedFour(cp);
    } else if 0x800 <= cp {
      EncodedThree(cp);
    }
  }

  lemma EncodedFour(cp: int)
    requires 0x10000 <= cp <= 0x10FFFF
    ensures 0 <= cp / 262144 <= 4 && 0 <= cp / 4096 % 64 < 64 && 0 <= cp / 64 % 64 < 64 && 0 <= cp % 64 < 64
    ensures cp / 262144 == 0 ==> cp / 4096 % 64 >= 16
    ensures cp / 262144 == 4 ==> cp / 4096 % 64 < 16
  {
    SixBits(cp, cp / 262144, cp / 4096 % 64, cp / 64 % 64, cp % 64);
  }

  lemma EncodedThree(cp: int)
    requires 0x800 <= cp < 0x10000 && Scalar(cp)
    ensures cp / 262144 == 0 && 0 <= cp / 4096 < 16 && cp / 4096 % 64 == cp / 4096
    ensures cp / 4096 == 0 ==> cp / 64 % 64 >= 32
    ensures cp / 4096 == 13 ==> cp / 64 % 64 < 32
  {
    SixBits(cp, cp / 262144, cp / 4096 % 64, cp / 64 % 64, cp % 64);
  }

  lemma SixBits(cp: int, x: int, y: int, z: int, w: int)
    requires x == cp / 262144 && y == cp / 4096 % 64 && z == cp / 64 % 64 && w == cp % 64
    ensures cp == 262144 * x + 4096 * y + 64 * z + w && 0 <= y < 64 && 0 <= z < 64 && 0 <= w < 64
  {
    var a, b := cp / 64, cp / 4096;
    assert cp == 64 * a + w && a / 64 == b && a == 64 * b + z;
    assert b / 64 == x && b == 64 * x + y;
  }

  /** Every character found is the encoding of a scalar value. */
  lemma CharDecodes(s: Bytes) returns (cp: int)
    requires CharLen(s) > 0
    ensures Scalar(cp) && Encode(cp) == s[..CharLen(s)]
  {
    var n := CharLen(s);
    var a: int := s[0];
    if n == 1 {
      cp := a;
    } else if n == 2 {
      cp := FromDigits(0, 0, a - 0xC0, s[1] as int - 0x80);
    } else if n == 3 {
      cp := FromDigits(0, a - 0xE0, s[1] as int - 0x80, s[2] as int - 0x80);
    } else {
      cp := FromDigits(a - 0xF0, s[1] as int - 0x80, s[2] as int - 0x80, s[3] as int - 0x80);
    }
  }

  lemma FromDigits(x: int, y: int, z: int, w: int) returns (cp: int)
    requires 0 <= y < 64 && 0 <= z < 64 && 0 <= w < 64
    ensures cp == 262144 * x + 4096 * y + 64 * z + w
    ensures cp / 262144 == x && cp / 4096 % 64 == y && cp / 64 % 64 == z && cp % 64 == w
    ensures cp / 4096 == 64 * x + y && cp / 64 == 4096 * x + 64 * y + z
  {
    Digits(x, y, z, w);
    cp := 262144 * x + 4096 * y + 64 * z + w;
  }

  lemma {:induction false} EncodedIsValid(cps: seq<int>)
    requires Scalars(cps)
    ensures ValidUtf8(EncodeAll(cps))
  {
    if cps != [] {
      var c := Encode(cps[0]);
      EncodedLen(cps[0]);
      assert c[|c|..] == [];
      EncodedIsValid(cps[1..]);
      Utf8Concat(c, EncodeAll(cps[1..]));
    }
  }

  lemma {:induction false} ValidDecodes(s: Bytes) returns (cps: seq<int>)
    requires ValidUtf8(s)
    ensures Scalars(cps) && EncodeAll(cps) == s
    decreases |s|
  {
    if s == [] {
      cps := [];
    } else {
      var n := CharLen(s);
      var cp := CharDecodes(s);
      var more := ValidDecodes(s[n..]);
      cps := [cp] + more;
      assert cps[1..] == more && s == s[..n] + s[n..];
    }
  }

  /** Valid UTF-8 is exactly the encoded text. */
  lemma ValidExactly(s: Bytes)
    ensures ValidUtf8(s) <==> exists cps :: Scalars(cps) && EncodeAll(cps) == s
  {
    if ValidUtf8(s) {
      var cps := ValidDecodes(s);
    }
    if cps :| Scalars(cps) && EncodeAll(cps) == s {
      EncodedIsValid(cps);
    }
  }
}
