/** Integers as the protocol writes them, and as Rust's `parse` reads them back. */
module Decimal {
  import opened Bytes

  const I64_MIN: int := -0x8000_0000_0000_0000
  const I64_MAX: int := 0x7FFF_FFFF_FFFF_FFFF
  const U64_MAX: int := 0xFFFF_FFFF_FFFF_FFFF

  // ----- Writing -----

  function DigitByte(d: nat): Byte
    requires d < 10
  {
    '0' + d as char
  }

  function Digits(n: nat): (s: Bytes)
    ensures s != []
  {
    if n < 10 then [DigitByte(n)] else Digits(n / 10) + [DigitByte(n % 10)]
  }

  function DecimalText(n: int): Bytes {
    if n < 0 then "-" + Digits(-n) else Digits(n)
  }

  function HexDigit(d: nat): Byte
    requires d < 16
  {
    if d < 10 then '0' + d as char else 'a' + (d - 10) as char
  }

  function HexText(n: nat, width: nat): Bytes {
    if width == 0 then [] else HexText(n / 16, width - 1) + [HexDigit(n % 16)]
  }

  // ----- Reading -----

  function DigitValue(c: Byte, radix: nat): (d: nat)
    ensures d <= radix
  {
    if '0' <= c <= '9' && c as int - 48 < radix then c as int - 48
    else if 'a' <= c <= 'f' && c as int - 87 < radix then c as int - 87
    else if 'A' <= c <= 'F' && c as int - 55 < radix then c as int - 55
    else radix
  }

  predicate AllDigits(s: Bytes, radix: nat) {
    forall i :: 0 <= i < |s| ==> DigitValue(s[i], radix) < radix
  }

  function NumberValue(s: Bytes, radix: nat): (n: int)
    ensures n >= 0
  {
    if s == [] then 0 else NumberValue(s[..|s| - 1], radix) * radix + DigitValue(s[|s| - 1], radix)
  }

  /** Rust's `parse` for an integer type with the given bounds: an optional sign, then at least one digit. */
  function ParseNumber(s: Bytes, radix: nat, min: int, max: int): Option<int> {
    var signed := s != [] && (s[0] == '+' || (s[0] == '-' && min < 0));
    var body := if signed then s[1..] else s;
    if body == [] || !AllDigits(body, radix) then None
    else
      var magnitude := NumberValue(body, radix);
      var n := if signed && s[0] == '-' then -magnitude else magnitude;
      if min <= n <= max then Some(n) else None
  }

  function ParseI64(s: Bytes): Option<int> {
    ParseNumber(s, 10, I64_MIN, I64_MAX)
  }

  function ParseU64(s: Bytes): Option<int> {
    ParseNumber(s, 10, 0, U64_MAX)
  }

  function ParseHexU64(s: Bytes): Option<int> {
    ParseNumber(s, 16, 0, U64_MAX)
  }

  // ----- Reading undoes writing -----

  lemma {:induction false} DigitsValue(n: nat)
    ensures AllDigits(Digits(n), 10)
    ensures NumberValue(Digits(n), 10) == n
  {
    if n >= 10 {
      var s := Digits(n);
      DigitsValue(n / 10);
      assert s[..|s| - 1] == Digits(n / 10);
    }
  }

  lemma ParseUnsigned(body: Bytes, min: int, max: int)
    requires body != [] && AllDigits(body, 10) && min <= NumberValue(body, 10) <= max
    ensures ParseNumber(body, 10, min, max) == Some(NumberValue(body, 10))
  {
    assert DigitValue(body[0], 10) < 10;
  }

  lemma ParseNegative(body: Bytes, min: int, max: int)
    requires body != [] && AllDigits(body, 10) && min < 0 && min <= -NumberValue(body, 10) <= max
    ensures ParseNumber("-" + body, 10, min, max) == Some(-NumberValue(body, 10))
  {
    assert ("-" + body)[1..] == body;
  }

  lemma ParseI64OfText(n: int)
    requires I64_MIN <= n <= I64_MAX
    ensures ParseI64(DecimalText(n)) == Some(n)
  {
    if n < 0 {
      DigitsValue(-n);
      ParseNegative(Digits(-n), I64_MIN, I64_MAX);
    } else {
      DigitsValue(n);
      ParseUnsigned(Digits(n), I64_MIN, I64_MAX);
    }
  }

  lemma ParseU64OfText(n: int)
    requires 0 <= n <= U64_MAX
    ensures ParseU64(DecimalText(n)) == Some(n)
  {
    DigitsValue(n);
    ParseUnsigned(Digits(n), 0, U64_MAX);
  }

  function Power16(width: nat): nat {
    if width == 0 then 1 else 16 * Power16(width - 1)
  }

  lemma SixteenDigits()
    ensures Power16(16) == U64_MAX + 1
  {
    assert Power16(4) == 0x1_0000;
    assert Power16(8) == 0x1_0000_0000;
    assert Power16(12) == 0x1_0000_0000_0000;
  }

  lemma {:induction false} HexTextValue(n: nat, width: nat)
    requires n < Power16(width)
    ensures |HexText(n, width)| == width && AllDigits(HexText(n, width), 16) && NumberValue(HexText(n, width), 16) == n
  {
    if width > 0 {
      HexTextValue(n / 16, width - 1);
      var s := HexText(n, width);
      assert s[..width - 1] == HexText(n / 16, width - 1);
      assert DigitValue(HexDigit(n % 16), 16) == n % 16;
    }
  }

  /** Sixteen hexadecimal digits are read back as the number they were written for. */
  lemma ParseHexOfText(n: nat)
    requires n <= U64_MAX
    ensures ParseHexU64(HexText(n, 16)) == Some(n)
  {
    SixteenDigits();
    HexTextValue(n, 16);
    assert DigitValue(HexText(n, 16)[0], 16) < 16;
  }

  predicate NoNewline(s: Bytes) {
    forall i :: 0 <= i < |s| ==> s[i] != '\n'
  }

  lemma TextIsPlain(n: int)
    ensures NoNewline(DecimalText(n)) && IsAscii(DecimalText(n))
  {
    DigitsValue(if n < 0 then -n else n);
    var d := Digits(if n < 0 then -n else n);
    forall i | 0 <= i < |d| ensures d[i] != '\n' && d[i] as int <= 0x7F {
      assert DigitValue(d[i], 10) < 10;
    }
  }

  /** A non-empty prefix of a positive numeral is the numeral of a smaller positive number. */
  lemma {:induction false} PrefixOfDigits(n: nat, k: nat) returns (m: nat)
    requires 0 < n && 0 < k <= |Digits(n)|
    ensures 0 < m <= n && Digits(n)[..k] == Digits(m)
  {
    if k == |Digits(n)| {
      m := n;
      assert Digits(n)[..k] == Digits(n);
    } else {
      assert n >= 10;
      m := PrefixOfDigits(n / 10, k);
      assert Digits(n)[..k] == Digits(n / 10)[..k];
    }
  }
}
