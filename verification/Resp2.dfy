/** The RESP2 wire format: values, their encoding, and the decoder that reads them back from a stream. */
module Resp2 {
  import opened Bytes
  import opened Decimal

  datatype RespValue =
    | SimpleString(text: Bytes)
    | SimpleError(text: Bytes)
    | Integer(n: int)
    | BulkString(body: Bytes)
    | NullBulkString
    | Array(items: seq<RespValue>)
    | NullArray

  /** What Rust's types say of a value: strings are UTF-8, integers are `i64`, lengths fit. */
  ghost predicate WellTyped(v: RespValue) {
    match v
    case SimpleString(s) => Utf8(s)
    case SimpleError(s) => Utf8(s)
    case Integer(n) => I64_MIN <= n <= I64_MAX
    case BulkString(s) => Utf8(s) && |s| <= I64_MAX
    case Array(items) => |items| <= I64_MAX && forall i :: 0 <= i < |items| ==> WellTyped(items[i])
    case _ => true
  }

  /** No simple string or error inside `v` holds a newline. */
  ghost predicate OneLiners(v: RespValue) {
    match v
    case SimpleString(s) => NoNewline(s)
    case SimpleError(s) => NoNewline(s)
    case Array(items) => forall i :: 0 <= i < |items| ==> OneLiners(items[i])
    case _ => true
  }

  // ----- Encoding -----

  function Header(prefix: Byte, text: Bytes): Bytes {
    [prefix] + text + CRLF
  }

  function Encode(v: RespValue): (b: Bytes)
    ensures b != []
    decreases v, 0
  {
    match v
    case SimpleString(s) => Header('+', s)
    case SimpleError(s) => Header('-', s)
    case Integer(n) => Header(':', DecimalText(n))
    case BulkString(s) => Header('$', DecimalText(|s|)) + s + CRLF
    case NullBulkString => Header('$', "-1")
    case Array(items) => Header('*', DecimalText(|items|)) + EncodeAll(items)
    case NullArray => Header('*', "-1")
  }

  function EncodeAll(items: seq<RespValue>): Bytes
    decreases items, 1
  {
    if items == [] then [] else Encode(items[0]) + EncodeAll(items[1..])
  }

  // ----- Decoding -----

  datatype RespError =
    | UnknownPrefix(prefix: Byte)
    | InvalidInteger
    | InvalidUtf8
    | UnexpectedEof

  /** `Panic` is the slice `line[1..]` cutting a multi-byte first character. */
  datatype Decoded<+T> = Ok(value: T, rest: Bytes) | Err(error: RespError) | Panic

  /** Length of the first line of `b`, its newline included. */
  function LineLength(b: Bytes): (n: nat)
    ensures n <= |b| && (n == 0 <==> b == [])
  {
    if b == [] then 0 else if b[0] == '\n' then 1 else 1 + LineLength(b[1..])
  }

  /** Rust's `trim_end_matches("\r\n")`. */
  function TrimEnd(s: Bytes): Bytes {
    if |s| >= 2 && s[|s| - 2..] == CRLF then TrimEnd(s[..|s| - 2]) else s
  }

  function ParseLength(text: Bytes): (r: Option<int>)
    ensures r.Some? ==> r.value >= -1
  {
    var n := ParseI64(text);
    if n.Some? && n.value >= -1 then n else None
  }

  /** Reads one value off the front of the stream. */
  function Decode(b: Bytes): (r: Decoded<RespValue>)
    ensures r.Ok? ==> |r.rest| < |b|
    decreases |b|, 0
  {
    var n := LineLength(b);
    var line, rest := b[..n], b[n..];
    if n == 0 || !Utf8(line) then Err(UnexpectedEof)
    else if line[0] as int > 0x7F then Panic
    else DecodeBody(line[0], TrimEnd(line[1..]), rest)
  }

  function DecodeBody(prefix: Byte, text: Bytes, rest: Bytes): (r: Decoded<RespValue>)
    ensures r.Ok? ==> |r.rest| <= |rest|
    decreases |rest|, 3
  {
    if prefix == '+' then Ok(SimpleString(text), rest)
    else if prefix == '-' then Ok(SimpleError(text), rest)
    else if prefix == ':' then
      var n := ParseI64(text);
      if n.Some? then Ok(Integer(n.value), rest) else Err(InvalidInteger)
    else if prefix == '$' then DecodeBulkString(text, rest)
    else if prefix == '*' then
      var n := ParseLength(text);
      if n.None? then Err(InvalidInteger) else DecodeArray(n.value, rest)
    else Err(UnknownPrefix(prefix))
  }

  function DecodeArray(n: int, rest: Bytes): (r: Decoded<RespValue>)
    requires n >= -1
    ensures r.Ok? ==> |r.rest| <= |rest|
    decreases |rest|, 2
  {
    if n == -1 then Ok(NullArray, rest)
    else if n == 0 then Ok(Array([]), rest)
    else
      match DecodeItems(n, rest)
      case Ok(items, r) => Ok(Array(items), r)
      case Err(e) => Err(e)
      case Panic => Panic
  }

  function DecodeBulkString(text: Bytes, rest: Bytes): (r: Decoded<RespValue>)
    ensures r.Ok? ==> |r.rest| <= |rest|
  {
    var n := ParseLength(text);
    if n.None? then Err(InvalidInteger)
    else if n.value == -1 then Ok(NullBulkString, rest)
    else if |rest| < n.value + 2 then Err(UnexpectedEof)
    else if !Utf8(rest[..n.value]) then Err(InvalidUtf8)
    else Ok(BulkString(rest[..n.value]), rest[n.value + 2..])
  }

  function DecodeItems(n: nat, b: Bytes): (r: Decoded<seq<RespValue>>)
    ensures r.Ok? ==> |r.rest| <= |b| && |r.value| == n
    decreases |b|, 1
  {
    if n == 0 then Ok([], b)
    else
      match Decode(b)
      case Ok(v, rest) => Cons(v, DecodeItems(n - 1, rest))
      case Err(e) => Err(e)
      case Panic => Panic
  }

  function Cons(v: RespValue, tail: Decoded<seq<RespValue>>): Decoded<seq<RespValue>> {
    if tail.Ok? then Ok([v] + tail.value, tail.rest) else tail
  }

  lemma DecodeLine(b: Bytes)
    requires var line := b[..LineLength(b)]; line != [] && Utf8(line) && line[0] as int <= 0x7F
    ensures var n := LineLength(b); Decode(b) == DecodeBody(b[0], TrimEnd(b[..n][1..]), b[n..])
  {
  }

  // ----- Decoding undoes encoding -----

  lemma {:induction false} LineLengthOf(body: Bytes, rest: Bytes)
    requires NoNewline(body)
    ensures LineLength(body + CRLF + rest) == |body| + 2
  {
    var b := body + CRLF + rest;
    if body == [] {
      assert b[1..][1..] == rest && b[1] == '\n';
      assert LineLength(b[1..]) == 1;
    } else {
      assert b[1..] == body[1..] + CRLF + rest;
      LineLengthOf(body[1..], rest);
    }
  }

  lemma TrimEndOf(body: Bytes)
    requires NoNewline(body)
    ensures TrimEnd(body + CRLF) == body
  {
    var s := body + CRLF;
    assert s[|s| - 2..] == CRLF && s[..|s| - 2] == body;
    assert |body| >= 2 ==> body[|body| - 2..][1] != '\n';
  }

  /** A header line is read back as its prefix byte and its text, leaving what follows it. */
  lemma DecodeHeader(prefix: Byte, text: Bytes, rest: Bytes)
    requires prefix as int <= 0x7F && prefix != '\n'
    requires NoNewline(text) && Utf8(text)
    ensures Decode(Header(prefix, text) + rest) == DecodeBody(prefix, text, rest)
  {
    var b := Header(prefix, text) + rest;
    LineLengthOf([prefix] + text, rest);
    var n := LineLength(b);
    assert b[..n] == Header(prefix, text);
    assert b[n..] == rest;
    assert b[..n][1..] == text + CRLF;
    TrimEndOf(text);
    AsciiIsUtf8([prefix]);
    AsciiIsUtf8(CRLF);
    Utf8Concat([prefix], text);
    Utf8Concat([prefix] + text, CRLF);
    DecodeLine(b);
  }

  lemma DecodeNumberHeader(prefix: Byte, n: int, rest: Bytes)
    requires prefix as int <= 0x7F && prefix != '\n' && I64_MIN <= n <= I64_MAX
    ensures Decode(Header(prefix, DecimalText(n)) + rest) == DecodeBody(prefix, DecimalText(n), rest)
    ensures ParseI64(DecimalText(n)) == Some(n)
  {
    TextIsPlain(n);
    AsciiIsUtf8(DecimalText(n));
    DecodeHeader(prefix, DecimalText(n), rest);
    ParseI64OfText(n);
  }

  lemma DecodeEncodeInteger(n: int, rest: Bytes)
    requires I64_MIN <= n <= I64_MAX
    ensures Decode(Encode(Integer(n)) + rest) == Ok(Integer(n), rest)
  {
    DecodeNumberHeader(':', n, rest);
  }

  lemma DecodeEncodeNull(prefix: Byte, rest: Bytes)
    requires prefix == '$' || prefix == '*'
    ensures Decode(Header(prefix, "-1") + rest) == Ok(if prefix == '$' then NullBulkString else NullArray, rest)
  {
    assert DecimalText(-1) == "-1";
    DecodeNumberHeader(prefix, -1, rest);
  }

  lemma DecodeBulkBody(text: Bytes, s: Bytes, rest: Bytes)
    requires ParseI64(text) == Some(|s|) && Utf8(s)
    ensures DecodeBody('$', text, s + CRLF + rest) == Ok(BulkString(s), rest)
  {
    var tail := s + CRLF + rest;
    assert tail[..|s|] == s && tail[|s| + 2..] == rest;
  }

  lemma DecodeEncodeBulkString(s: Bytes, rest: Bytes)
    requires Utf8(s) && |s| <= I64_MAX
    ensures Decode(Encode(BulkString(s)) + rest) == Ok(BulkString(s), rest)
  {
    var text := DecimalText(|s|);
    DecodeNumberHeader('$', |s|, s + CRLF + rest);
    DecodeBulkBody(text, s, rest);
    Regroup(Header('$', text), s, CRLF, rest);
  }

  lemma DecodeArrayBody(text: Bytes, items: seq<RespValue>, b: Bytes, rest: Bytes)
    requires ParseI64(text) == Some(|items|)
    requires DecodeItems(|items|, b) == Ok(items, rest)
    ensures DecodeBody('*', text, b) == Ok(Array(items), rest)
  {
  }

  lemma DecodeArrayHeader(items: seq<RespValue>, rest: Bytes)
    requires |items| <= I64_MAX
    ensures Decode(Encode(Array(items)) + rest) == DecodeBody('*', DecimalText(|items|), EncodeAll(items) + rest)
    ensures ParseI64(DecimalText(|items|)) == Some(|items|)
  {
    var head := Header('*', DecimalText(|items|));
    DecodeNumberHeader('*', |items|, EncodeAll(items) + rest);
    assert head + EncodeAll(items) + rest == head + (EncodeAll(items) + rest);
  }

  lemma DecodeEncodeArray(items: seq<RespValue>, rest: Bytes)
    requires |items| <= I64_MAX
    requires DecodeItems(|items|, EncodeAll(items) + rest) == Ok(items, rest)
    ensures Decode(Encode(Array(items)) + rest) == Ok(Array(items), rest)
  {
    DecodeArrayHeader(items, rest);
    DecodeArrayBody(DecimalText(|items|), items, EncodeAll(items) + rest, rest);
  }

  lemma Regroup(a: Bytes, b: Bytes, c: Bytes, d: Bytes)
    ensures a + b + c + d == a + (b + c + d)
  {
  }

  /** Every well-typed one-line value is read back whole, and exactly its bytes are consumed. */
  lemma {:induction false} DecodeEncode(v: RespValue, rest: Bytes)
    requires WellTyped(v) && OneLiners(v)
    ensures Decode(Encode(v) + rest) == Ok(v, rest)
    decreases v, 0
  {
    match v
    case SimpleString(s) => DecodeHeader('+', s, rest);
    case SimpleError(s) => DecodeHeader('-', s, rest);
    case Integer(n) => DecodeEncodeInteger(n, rest);
    case BulkString(s) => DecodeEncodeBulkString(s, rest);
    case NullBulkString => DecodeEncodeNull('$', rest);
    case Array(items) =>
      DecodeEncodeAll(items, rest);
      DecodeEncodeArray(items, rest);
    case NullArray => DecodeEncodeNull('*', rest);
  }

  lemma {:induction false} DecodeEncodeAll(items: seq<RespValue>, rest: Bytes)
    requires forall i :: 0 <= i < |items| ==> WellTyped(items[i]) && OneLiners(items[i])
    ensures DecodeItems(|items|, EncodeAll(items) + rest) == Ok(items, rest)
    decreases items, 1
  {
    if items == [] {
      assert EncodeAll(items) + rest == rest;
    } else {
      var tail := EncodeAll(items[1..]) + rest;
      assert EncodeAll(items) + rest == Encode(items[0]) + tail;
      DecodeEncode(items[0], tail);
      DecodeEncodeAll(items[1..], rest);
      assert [items[0]] + items[1..] == items;
    }
  }
}
