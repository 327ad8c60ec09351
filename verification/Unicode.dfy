/** UTF-8 by what it encodes: the server's strings are exactly the encodings of Unicode scalar values (RFC 3629). */
module Unicode {
  import opened Bytes

  /** Every code point but the surrogates. */
  predicate IsScalar(p: nat) {
    p <= 0x10FFFF && !(0xD800 <= p <= 0xDFFF)
  }

  function AsByte(n: nat): Byte
    requires n < 256
  {
    n as char
  }

  /** A continuation byte carries six bits. */
  function Six(n: nat): Byte {
    AsByte(0x80 + n % 64)
  }

  /** Section 3 of RFC 3629. */
  function EncodeScalar(p: nat): (b: Bytes)
    requires IsScalar(p)
    ensures b != []
  {
    if p < 0x80 then [AsByte(p)]
    else if p < 0x800 then [AsByte(0xC0 + p / 64), Six(p)]
    else if p < 0x1_0000 then [AsByte(0xE0 + p / 4096), Six(p / 64), Six(p)]
    else [AsByte(0xF0 + p / 262144), Six(p / 4096), Six(p / 64), Six(p)]
  }

  ghost predicate AreScalars(ps: seq<nat>) {
    forall i :: 0 <= i < |ps| ==> IsScalar(ps[i])
  }

  ghost function EncodeScalars(ps: seq<nat>): Bytes
    requires AreScalars(ps)
  {
    if ps == [] then [] else EncodeScalar(ps[0]) + EncodeScalars(ps[1..])
  }

  lemma ScalarIsChar(p: nat, rest: Bytes)
    requires IsScalar(p)
    ensures CharLength(EncodeScalar(p) + rest) == |EncodeScalar(p)|
  {
    var b := EncodeScalar(p) + rest;
    assert b[0] == EncodeScalar(p)[0];
    if p >= 0x80 {
      assert b[1] == EncodeScalar(p)[1];
    }
    if p >= 0x800 {
      assert b[2] == EncodeScalar(p)[2];
    }
    if p >= 0x1_0000 {
      assert b[3] == EncodeScalar(p)[3];
    }
  }

  lemma TwoBytes(x: nat, y: nat) returns (p: nat)
    requires 0xC2 <= x <= 0xDF && 0x80 <= y <= 0xBF
    ensures 0x80 <= p < 0x800 && 0xC0 + p / 64 == x && 0x80 + p % 64 == y
  {
    p := (x - 0xC0) * 64 + (y - 0x80);
  }

  lemma ThreeBytes(x: nat, y: nat, z: nat) returns (p: nat)
    requires 0xE0 <= x <= 0xEF && SecondOfThree(x, y) && 0x80 <= z <= 0xBF
    ensures 0x800 <= p < 0x1_0000 && IsScalar(p)
    ensures 0xE0 + p / 4096 == x && 0x80 + p / 64 % 64 == y && 0x80 + p % 64 == z
  {
    var q := (x - 0xE0) * 64 + (y - 0x80);
    p := q * 64 + (z - 0x80);
    assert p / 64 == q && p % 64 == z - 0x80;
    assert p / 4096 == q / 64;
  }

  lemma FourBytes(w: nat, x: nat, y: nat, z: nat) returns (p: nat)
    requires 0xF0 <= w <= 0xF4 && SecondOfFour(w, x) && 0x80 <= y <= 0xBF && 0x80 <= z <= 0xBF
    ensures 0x1_0000 <= p <= 0x10FFFF
    ensures 0xF0 + p / 262144 == w && 0x80 + p / 4096 % 64 == x && 0x80 + p / 64 % 64 == y && 0x80 + p % 64 == z
  {
    var r := (w - 0xF0) * 64 + (x - 0x80);
    var q := r * 64 + (y - 0x80);
    p := q * 64 + (z - 0x80);
    assert p / 64 == q && p % 64 == z - 0x80;
    assert p / 4096 == q / 64 == r;
    assert p / 262144 == r / 64;
  }

  lemma CharIsScalar(b: Bytes) returns (p: nat)
    requires CharLength(b) > 0
    ensures IsScalar(p) && EncodeScalar(p) == b[..CharLength(b)]
  {
    var n := CharLength(b);
    if n == 1 {
      p := b[0] as nat;
    } else if n == 2 {
      p := TwoBytes(b[0] as nat, b[1] as nat);
    } else if n == 3 {
      p := ThreeBytes(b[0] as nat, b[1] as nat, b[2] as nat);
    } else {
      p := FourBytes(b[0] as nat, b[1] as nat, b[2] as nat, b[3] as nat);
    }
  }

  lemma {:induction false} ScalarsAreUtf8(ps: seq<nat>)
    requires AreScalars(ps)
    ensures Utf8(EncodeScalars(ps))
  {
    if ps != [] {
      var first, rest := EncodeScalar(ps[0]), EncodeScalars(ps[1..]);
      ScalarIsChar(ps[0], rest);
      ScalarsAreUtf8(ps[1..]);
      assert (first + rest)[|first|..] == rest;
    }
  }

  lemma {:induction false} Utf8IsScalars(b: Bytes) returns (ps: seq<nat>)
    requires Utf8(b)
    ensures AreScalars(ps) && EncodeScalars(ps) == b
  {
    if b == [] {
      ps := [];
    } else {
      var n := CharLength(b);
      var p := CharIsScalar(b);
      var more := Utf8IsScalars(b[n..]);
      ps := [p] + more;
      assert ps[1..] == more && b == b[..n] + b[n..];
    }
  }

  ghost predicate EncodesScalars(b: Bytes) {
    exists ps :: AreScalars(ps) && EncodeScalars(ps) == b
  }

  /** What the decoder takes for UTF-8 is exactly what encodes some scalar values: no surrogates, no overlong forms. */
  lemma Utf8Exactly(b: Bytes)
    ensures Utf8(b) <==> EncodesScalars(b)
  {
    if Utf8(b) {
      var ps := Utf8IsScalars(b);
    }
    if EncodesScalars(b) {
      var ps :| AreScalars(ps) && EncodeScalars(ps) == b;
      ScalarsAreUtf8(ps);
    }
  }
}
