/** The wire, byte for byte: how numbers and values look, where a line ends, and what is malformed. */
module WireForms {
  import opened Bytes
  import opened Decimal
  import opened Resp2

  const DIGITS: Bytes := "0123456789"
  const HEX_DIGITS: Bytes := "0123456789abcdef"

  // ----- Numbers -----

  /** Numbers are written in decimal, most significant digit first, with a minus sign for the negative. */
  lemma DecimalForm(q: nat, d: nat)
    requires d < 10
    ensures DecimalText(d) == [DIGITS[d]]
    ensures q > 0 ==> DecimalText(10 * q + d) == DecimalText(q) + [DIGITS[d]] && DecimalText(0 - q) == "-" + DecimalText(q)
  {
    assert DIGITS[d] == DigitByte(d);
  }

  /** Digests are written in hexadecimal, in lower case. */
  lemma HexForm(q: nat, d: nat, width: nat)
    requires d < 16
    ensures HexText(q, 0) == [] && HexText(16 * q + d, width + 1) == HexText(q, width) + [HEX_DIGITS[d]]
  {
    assert HEX_DIGITS[d] == HexDigit(d);
  }

  lemma NaturalFits(n: nat)
    ensures ParseU64(Digits(n)) == if n < 0x1_0000_0000_0000_0000 then Some(n) else None
    ensures ParseI64(Digits(n)) == if n < 0x8000_0000_0000_0000 then Some(n) else None
  {
    DigitsValue(n);
    assert DigitValue(Digits(n)[0], 10) < 10;
  }

  lemma NegativeFits(n: nat)
    ensures ParseU64("-" + Digits(n)) == None
    ensures ParseI64("-" + Digits(n)) == if n <= 0x8000_0000_0000_0000 then Some(0 - n) else None
  {
    DigitsValue(n);
    var s := "-" + Digits(n);
    assert s[0] == '-' && DigitValue('-', 10) == 10 && s[1..] == Digits(n);
  }

  /** A decimal number is read exactly when it fits: as the argument of a command or the length of a value. */
  lemma NumberFits(n: int)
    ensures ParseU64(DecimalText(n)) == if 0 <= n < 0x1_0000_0000_0000_0000 then Some(n) else None
    ensures ParseI64(DecimalText(n)) == if -0x8000_0000_0000_0000 <= n < 0x8000_0000_0000_0000 then Some(n) else None
  {
    if n < 0 {
      NegativeFits(-n);
    } else {
      NaturalFits(n);
    }
  }

  lemma {:induction false} LeadingZero(s: Bytes)
    requires s != []
    ensures NumberValue("0" + s, 10) == NumberValue(s, 10)
  {
    var n := |s| - 1;
    assert ("0" + s)[..n + 1] == "0" + s[..n];
    if n == 0 {
      assert s[..0] == [] && "0" + s[..0] == "0";
      assert NumberValue("0", 10) == 0;
    } else {
      LeadingZero(s[..n]);
    }
  }

  /** A plus sign is accepted. */
  lemma PlusSign(n: nat)
    requires n <= I64_MAX
    ensures ParseU64("+" + Digits(n)) == Some(n) && ParseI64("+" + Digits(n)) == Some(n)
  {
    DigitsValue(n);
    assert ("+" + Digits(n))[1..] == Digits(n);
  }

  /** So are leading zeros. */
  lemma LeadingZeros(n: nat)
    requires n <= I64_MAX
    ensures ParseU64("0" + Digits(n)) == Some(n) && ParseI64("0" + Digits(n)) == Some(n)
  {
    DigitsValue(n);
    LeadingZero(Digits(n));
    assert AllDigits("0" + Digits(n), 10);
    ParseUnsigned("0" + Digits(n), 0, U64_MAX);
    ParseUnsigned("0" + Digits(n), I64_MIN, I64_MAX);
  }

  lemma DigitsOnly(c: Byte)
    ensures DigitValue(c, 10) < 10 ==> c in DIGITS
  {
    if DigitValue(c, 10) < 10 {
      assert DIGITS[DigitValue(c, 10)] == c;
    }
  }

  /** Nothing else is: no empty text, no lone sign, and no other byte anywhere. */
  lemma NoNumber(s: Bytes, i: nat)
    requires s == [] || (i < |s| && s[i] !in DIGITS && (i == 0 && |s| > 1 ==> s[0] != '+' && s[0] != '-'))
    ensures ParseU64(s) == None && ParseI64(s) == None
  {
    if s != [] {
      DigitsOnly(s[i]);
      assert i > 0 ==> s[1..][i - 1] == s[i];
    }
  }

  // ----- Values -----

  /** Every value on the wire. */
  lemma WireForm(s: Bytes, n: int, items: seq<RespValue>)
    ensures Encode(SimpleString(s)) == "+" + s + "\r\n"
    ensures Encode(SimpleError(s)) == "-" + s + "\r\n"
    ensures Encode(Integer(n)) == ":" + DecimalText(n) + "\r\n"
    ensures Encode(BulkString(s)) == "$" + DecimalText(|s|) + "\r\n" + s + "\r\n"
    ensures Encode(NullBulkString) == "$-1\r\n" && Encode(NullArray) == "*-1\r\n"
    ensures Encode(Array(items)) == "*" + DecimalText(|items|) + "\r\n" + EncodeAll(items)
  {
  }

  /** And they are read back from there. */
  lemma WireRead(s: Bytes, n: int, rest: Bytes)
    requires Utf8(s) && NoNewline(s) && |s| <= I64_MAX && I64_MIN <= n <= I64_MAX
    ensures Decode("+" + s + "\r\n" + rest) == Ok(SimpleString(s), rest)
    ensures Decode("-" + s + "\r\n" + rest) == Ok(SimpleError(s), rest)
    ensures Decode(":" + DecimalText(n) + "\r\n" + rest) == Ok(Integer(n), rest)
  {
    DecodeHeader('+', s, rest);
    DecodeHeader('-', s, rest);
    DecodeNumberHeader(':', n, rest);
  }

  /** The nulls are a length of -1. */
  lemma NullRead(prefix: Byte, rest: Bytes)
    requires prefix == '$' || prefix == '*'
    ensures Decode([prefix] + "-1\r\n" + rest) == Ok(if prefix == '$' then NullBulkString else NullArray, rest)
  {
    assert [prefix] + "-1\r\n" == Header(prefix, "-1");
    DecodeEncodeNull(prefix, rest);
  }

  // ----- Lines -----

  /** A line ends with the first newline, or with the stream. */
  lemma {:induction false} LineEnds(b: Bytes)
    ensures var n := LineLength(b);
      && NoNewline(b[..if n == 0 then 0 else n - 1])
      && (n < |b| || (n > 0 && b[n - 1] == '\n') || NoNewline(b))
      && (n < |b| ==> n > 0 && b[n - 1] == '\n')
  {
    if b != [] && b[0] != '\n' {
      LineEnds(b[1..]);
      var n := LineLength(b);
      assert n > 1 ==> b[..n - 1] == [b[0]] + b[1..][..n - 2];
      assert n == 1 ==> b[..0] == [];
    }
  }

  function LineEndings(k: nat): Bytes {
    if k == 0 then [] else LineEndings(k - 1) + CRLF
  }

  /** All the CRLFs a line ends with are trimmed, and nothing else. */
  lemma {:induction false} TrimEndExactly(s: Bytes) returns (k: nat)
    ensures s == TrimEnd(s) + LineEndings(k)
    ensures !(|TrimEnd(s)| >= 2 && TrimEnd(s)[|TrimEnd(s)| - 2..] == "\r\n")
  {
    if |s| >= 2 && s[|s| - 2..] == CRLF {
      k := TrimEndExactly(s[..|s| - 2]);
      assert s == s[..|s| - 2] + CRLF;
      Associate(TrimEnd(s), LineEndings(k), CRLF);
      k := k + 1;
    } else {
      k := 0;
    }
  }

  // ----- What is malformed -----

  /** A header line whose text is no number, or a length below -1, is an invalid integer; an unknown prefix is named. */
  lemma HeaderErrors(prefix: Byte, text: Bytes, rest: Bytes)
    requires prefix as int <= 0x7F && prefix != '\n' && NoNewline(text) && Utf8(text)
    ensures var d := Decode([prefix] + text + "\r\n" + rest);
      && (prefix == ':' && ParseI64(text).None? ==> d == Err(InvalidInteger))
      && ((prefix == '$' || prefix == '*') && (ParseI64(text).None? || ParseI64(text).value < -1) ==> d == Err(InvalidInteger))
      && (prefix != '+' && prefix != '-' && prefix != ':' && prefix != '$' && prefix != '*' ==> d == Err(UnknownPrefix(prefix)))
  {
    DecodeHeader(prefix, text, rest);
  }

  /** A line that is not UTF-8 ends the stream, and one that starts with a longer character brings the reader down. */
  lemma LineErrors(line: Bytes, rest: Bytes)
    requires NoNewline(line)
    ensures !Utf8(line + "\n") ==> Decode(line + "\n" + rest) == Err(UnexpectedEof)
    ensures Utf8(line + "\n") && line != [] && line[0] as int > 0x7F ==> Decode(line + "\n" + rest) == Decoded.Panic
    ensures Decode([]) == Err(UnexpectedEof)
  {
    var b := line + "\n" + rest;
    LineLengthOfLine(line, rest);
    assert b[..|line| + 1] == line + "\n";
  }

  lemma {:induction false} LineLengthOfLine(line: Bytes, rest: Bytes)
    requires NoNewline(line)
    ensures LineLength(line + "\n" + rest) == |line| + 1
  {
    var b := line + "\n" + rest;
    if line != [] {
      assert b[1..] == line[1..] + "\n" + rest;
      LineLengthOfLine(line[1..], rest);
    }
  }

  /** The body of a bulk string must be UTF-8; the two bytes after it may be any. */
  lemma BulkErrors(s: Bytes, end: Bytes, rest: Bytes)
    requires |s| <= I64_MAX && |end| == 2
    ensures Decode("$" + DecimalText(|s|) + "\r\n" + (s + end + rest)) ==
      if Utf8(s) then Ok(BulkString(s), rest) else Err(InvalidUtf8)
  {
    var tail := s + end + rest;
    DecodeNumberHeader('$', |s|, tail);
    assert tail[..|s|] == s && tail[|s| + 2..] == rest;
    BulkRead(DecimalText(|s|), |s|, tail);
  }

  lemma BulkRead(text: Bytes, n: nat, rest: Bytes)
    requires ParseI64(text) == Some(n) && |rest| >= n + 2
    ensures DecodeBody('$', text, rest) == if Utf8(rest[..n]) then Ok(BulkString(rest[..n]), rest[n + 2..]) else Err(InvalidUtf8)
  {
  }
}
