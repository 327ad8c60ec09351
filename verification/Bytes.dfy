/** Byte strings, as the server sees them on the wire and in its keys and values. */
module Bytes {

  /** One byte, written as the character with that code. */
  type Byte = c: char | c as int < 256 witness 'a'

  type Bytes = seq<Byte>

  datatype Option<+T> = None | Some(value: T)

  const CRLF: Bytes := "\r\n"

  // ----- UTF-8 (section 4 of RFC 3629) -----

  predicate IsTail(c: Byte) {
    0x80 <= c as int <= 0xBF
  }

  /** Length of the well-formed UTF-8 character at the head of `b`, or 0 if there is none. */
  function CharLength(b: Bytes): (n: nat)
    ensures n <= 4 && n <= |b|
  {
    if b == [] then 0
    else
      var c := b[0] as int;
      if c <= 0x7F then 1
      else if 0xC2 <= c <= 0xDF then
        if |b| >= 2 && IsTail(b[1]) then 2 else 0
      else if 0xE0 <= c <= 0xEF then
        if |b| >= 3 && SecondOfThree(c, b[1] as int) && IsTail(b[2]) then 3 else 0
      else if 0xF0 <= c <= 0xF4 then
        if |b| >= 4 && SecondOfFour(c, b[1] as int) && IsTail(b[2]) && IsTail(b[3]) then 4 else 0
      else 0
  }

  predicate SecondOfThree(first: int, second: int) {
    if first == 0xE0 then 0xA0 <= second <= 0xBF
    else if first == 0xED then 0x80 <= second <= 0x9F
    else 0x80 <= second <= 0xBF
  }

  predicate SecondOfFour(first: int, second: int) {
    if first == 0xF0 then 0x90 <= second <= 0xBF
    else if first == 0xF4 then 0x80 <= second <= 0x8F
    else 0x80 <= second <= 0xBF
  }

  /** What Rust demands of every `String`. */
  predicate Utf8(b: Bytes) {
    b == [] || (CharLength(b) > 0 && Utf8(b[CharLength(b)..]))
  }

  predicate IsAscii(b: Bytes) {
    forall i :: 0 <= i < |b| ==> b[i] as int <= 0x7F
  }

  lemma {:induction false} AsciiIsUtf8(b: Bytes)
    requires IsAscii(b)
    ensures Utf8(b)
  {
    if b != [] {
      AsciiIsUtf8(b[1..]);
    }
  }

  lemma CharLengthConcat(a: Bytes, b: Bytes)
    requires CharLength(a) > 0
    ensures CharLength(a + b) == CharLength(a)
  {
  }

  lemma {:induction false} Utf8Concat(a: Bytes, b: Bytes)
    requires Utf8(a) && Utf8(b)
    ensures Utf8(a + b)
  {
    if a == [] {
      assert a + b == b;
    } else {
      var n := CharLength(a);
      CharLengthConcat(a, b);
      assert (a + b)[n..] == a[n..] + b;
      Utf8Concat(a[n..], b);
    }
  }

  /** Cutting ASCII bytes off the end never splits a character. */
  lemma {:induction false} Utf8WithoutAsciiEnd(a: Bytes, b: Bytes)
    requires Utf8(a + b) && IsAscii(b)
    ensures Utf8(a)
  {
    if a != [] {
      var s := a + b;
      var n := CharLength(s);
      assert forall i :: |a| <= i < |s| ==> s[i] == b[i - |a|];
      assert n <= |a| && CharLength(a) == n;
      assert s[n..] == a[n..] + b;
      Utf8WithoutAsciiEnd(a[n..], b);
    }
  }

  lemma Associate<T>(a: seq<T>, b: seq<T>, c: seq<T>)
    ensures a + b + c == a + (b + c)
  {
  }
}
