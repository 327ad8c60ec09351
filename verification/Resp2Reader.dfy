/** The codec as it runs: a reader that consumes its input, and an encoder that fills a buffer. */
module Resp2Reader {
  import opened Bytes
  import opened Decimal
  import opened Resp2

  datatype Outcome<+T> = Value(value: T) | Failure(error: RespError) | Panicked

  /** The outcome and the unread input after it agree with the specification of the decoder. */
  ghost predicate Agrees<T>(outcome: Outcome<T>, input: Bytes, spec: Decoded<T>) {
    match spec
    case Ok(v, rest) => outcome == Value(v) && input == rest
    case Err(e) => outcome == Failure(e)
    case Panic => outcome == Panicked
  }

  class Reader {
    /** What has not been read yet. */
    var input: Bytes

    constructor (stream: Bytes)
      ensures input == stream
    {
      input := stream;
    }

    method ReadLine() returns (line: Bytes)
      modifies this
      ensures line == old(input)[..LineLength(old(input))]
      ensures input == old(input)[LineLength(old(input))..]
    {
      var n := 0;
      while n < |input|
        invariant n <= |input|
        invariant LineLength(input) == n + LineLength(input[n..])
      {
        n := n + 1;
        if input[n - 1] == '\n' {
          break;
        }
      }
      line := input[..n];
      input := input[n..];
    }

    method ReadExact(n: nat) returns (bytes: Option<Bytes>)
      modifies this
      ensures bytes.Some? <==> n <= |old(input)|
      ensures bytes.Some? ==> bytes.value == old(input)[..n] && input == old(input)[n..]
    {
      if |input| < n {
        input := [];
        return None;
      }
      bytes := Some(input[..n]);
      input := input[n..];
    }

    method DecodeNext() returns (r: Outcome<RespValue>)
      modifies this
      ensures Agrees(r, input, Decode(old(input)))
      decreases |input|, 1
    {
      var line := ReadLine();
      if line == [] || !Utf8(line) {
        return Failure(UnexpectedEof);
      }
      if line[0] as int > 0x7F {
        return Panicked;
      }
      var prefix, text := line[0], TrimEnd(line[1..]);
      DecodeLine(old(input));
      if prefix == '+' {
        r := Value(SimpleString(text));
      } else if prefix == '-' {
        r := Value(SimpleError(text));
      } else if prefix == ':' {
        var n := ParseI64(text);
        r := if n.Some? then Value(Integer(n.value)) else Failure(InvalidInteger);
      } else if prefix == '$' {
        r := ParseBulkString(text);
      } else if prefix == '*' {
        r := ParseArray(text);
      } else {
        r := Failure(UnknownPrefix(prefix));
      }
    }

    method ParseBulkString(text: Bytes) returns (r: Outcome<RespValue>)
      modifies this
      ensures Agrees(r, input, DecodeBulkString(text, old(input)))
    {
      var length := ParseLength(text);
      if length.None? {
        return Failure(InvalidInteger);
      }
      if length.value == -1 {
        return Value(NullBulkString);
      }
      var body := ReadExact(length.value + 2);
      if body.None? {
        return Failure(UnexpectedEof);
      }
      var value := body.value[..length.value];
      assert value == old(input)[..length.value];
      if !Utf8(value) {
        return Failure(InvalidUtf8);
      }
      r := Value(BulkString(value));
    }

    method ParseArray(text: Bytes) returns (r: Outcome<RespValue>)
      modifies this
      ensures Agrees(r, input, DecodeBody('*', text, old(input)))
      decreases |input|, 2
    {
      var length := ParseLength(text);
      if length.None? {
        return Failure(InvalidInteger);
      }
      if length.value == -1 {
        return Value(NullArray);
      }
      if length.value == 0 {
        return Value(Array([]));
      }
      var items: seq<RespValue> := [];
      PrependNone(DecodeItems(length.value, input));
      while |items| < length.value
        invariant |items| <= length.value && |input| <= |old(input)|
        invariant DecodeItems(length.value, old(input)) == Prepend(items, DecodeItems(length.value - |items|, input))
      {
        ghost var before := input;
        var next := DecodeNext();
        if next.Panicked? {
          return Panicked;
        }
        if next.Failure? {
          return Failure(next.error);
        }
        PrependCons(items, next.value, DecodeItems(length.value - |items| - 1, input));
        items := items + [next.value];
      }
      assert items + [] == items;
      r := Value(Array(items));
    }
  }

  ghost function Prepend(items: seq<RespValue>, tail: Decoded<seq<RespValue>>): Decoded<seq<RespValue>> {
    if tail.Ok? then Ok(items + tail.value, tail.rest) else tail
  }

  lemma PrependNone(tail: Decoded<seq<RespValue>>)
    ensures Prepend([], tail) == tail
  {
    if tail.Ok? {
      assert [] + tail.value == tail.value;
    }
  }

  lemma PrependCons(items: seq<RespValue>, v: RespValue, tail: Decoded<seq<RespValue>>)
    ensures Prepend(items, Cons(v, tail)) == Prepend(items + [v], tail)
  {
    if tail.Ok? {
      assert items + ([v] + tail.value) == items + [v] + tail.value;
    }
  }

  /** Fills a fresh buffer with the wire form of `v`. */
  method EncodeValue(v: RespValue) returns (buffer: Bytes)
    ensures buffer == Encode(v)
    decreases v, 1
  {
    match v
    case SimpleString(s) => buffer := "+" + s + CRLF;
    case SimpleError(s) => buffer := "-" + s + CRLF;
    case Integer(n) => buffer := ":" + DecimalText(n) + CRLF;
    case BulkString(s) => buffer := "$" + DecimalText(|s|) + CRLF + s + CRLF;
    case NullBulkString => buffer := "$-1\r\n";
    case NullArray => buffer := "*-1\r\n";
    case Array(items) => buffer := EncodeArray(items);
  }

  method EncodeArray(items: seq<RespValue>) returns (buffer: Bytes)
    ensures buffer == Encode(Array(items))
    decreases items, 0
  {
    if items == [] {
      EmptyArray();
      return "*0\r\n";
    }
    buffer := "*" + DecimalText(|items|) + CRLF;
    ghost var head := buffer;
    for i := 0 to |items|
      invariant buffer == head + EncodeAll(items[..i])
    {
      var encodedItem := EncodeValue(items[i]);
      BufferGrows(head, items, i);
      buffer := buffer + encodedItem;
    }
    assert items[..|items|] == items;
  }

  lemma BufferGrows(head: Bytes, items: seq<RespValue>, i: nat)
    requires i < |items|
    ensures head + EncodeAll(items[..i]) + Encode(items[i]) == head + EncodeAll(items[..i + 1])
  {
    EncodeAllAppend(items[..i], items[i]);
    assert items[..i] + [items[i]] == items[..i + 1];
    assert head + EncodeAll(items[..i]) + Encode(items[i]) == head + (EncodeAll(items[..i]) + Encode(items[i]));
  }

  lemma EmptyArray()
    ensures Encode(Array([])) == "*0\r\n"
  {
    assert DecimalText(0) == "0";
    assert Header('*', "0") + [] == "*0\r\n";
  }

  lemma {:induction false} EncodeAllAppend(items: seq<RespValue>, v: RespValue)
    ensures EncodeAll(items + [v]) == EncodeAll(items) + Encode(v)
  {
    if items == [] {
      assert items + [v] == [v] && [v][1..] == [];
    } else {
      assert (items + [v])[1..] == items[1..] + [v];
      EncodeAllAppend(items[1..], v);
    }
  }
}
