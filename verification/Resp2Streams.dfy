/** What decoding a stream can and cannot yield: truncated commands, sizes, and exact round trips. */
module Resp2Streams {
  import opened Bytes
  import opened Decimal
  import opened Resp2

  // ----- A torn command never decodes -----

  function Bulks(args: seq<Bytes>): (items: seq<RespValue>)
    ensures |items| == |args|
    ensures forall i :: 0 <= i < |args| ==> items[i] == BulkString(args[i])
  {
    seq(|args|, i requires 0 <= i < |args| => BulkString(args[i]))
  }

  /** A command is an array of bulk strings. */
  function Request(args: seq<Bytes>): RespValue {
    Array(Bulks(args))
  }

  lemma CutConcat(a: Bytes, b: Bytes, k: nat)
    requires k <= |a + b|
    ensures (a + b)[..k] == if k < |a| then a[..k] else a + b[..k - |a|]
  {
  }

  ghost predicate IsSuffix(r: Bytes, b: Bytes) {
    |r| <= |b| && r == b[|b| - |r|..]
  }

  lemma SuffixOfSuffix(r: Bytes, rest: Bytes, b: Bytes)
    requires IsSuffix(r, rest) && IsSuffix(rest, b)
    ensures IsSuffix(r, b)
  {
  }

  lemma {:induction false} WholeLine(b: Bytes)
    requires NoNewline(b)
    ensures LineLength(b) == |b|
  {
    if b != [] {
      WholeLine(b[1..]);
    }
  }

  /** A header cut anywhere is read as the last line of the stream. */
  lemma TornHeader(prefix: Byte, text: Bytes, k: nat)
    requires prefix as int <= 0x7F && prefix != '\n'
    requires NoNewline(text) && IsAscii(text) && 1 <= k < |Header(prefix, text)|
    ensures Decode(Header(prefix, text)[..k]) == DecodeBody(prefix, (text + CRLF)[..k - 1], [])
  {
    var b := Header(prefix, text)[..k];
    var cut := (text + CRLF)[..k - 1];
    assert b == [prefix] + cut;
    assert NoNewline(b);
    WholeLine(b);
    assert b[..|b|] == b && b[|b|..] == [] && b[1..] == cut;
    NothingToTrim(cut);
    AsciiIsUtf8(b);
    DecodeLine(b);
  }

  lemma NothingToTrim(s: Bytes)
    requires NoNewline(s)
    ensures TrimEnd(s) == s
  {
    assert |s| >= 2 ==> s[|s| - 2..][1] != '\n';
  }

  /** A cut right after the prefix byte of a length, or between its CR and LF. */
  predicate HeaderEdge(n: nat, k: nat) {
    k == 1 || k == |Digits(n)| + 2
  }

  /** The error a cut that is, or is not, at such an edge leads to. */
  function TornError(edge: bool): RespError {
    if edge then InvalidInteger else UnexpectedEof
  }

  /** A length cut short is no number at the two edges, and a smaller number elsewhere. */
  lemma TornLength(n: nat, k: nat)
    requires n <= I64_MAX && k <= |Digits(n)| + 1
    ensures var r := ParseI64((Digits(n) + CRLF)[..k]);
      && (r.None? <==> k == 0 || k == |Digits(n)| + 1)
      && (r.Some? ==> r.value >= 0 && (n > 0 ==> r.value > 0))
  {
    var d := Digits(n);
    var cut := (d + CRLF)[..k];
    if k == |d| + 1 {
      assert cut == d + "\r";
      DigitsValue(n);
      assert DigitValue(d[0], 10) < 10 && cut[0] == d[0];
      assert cut[|d|] == '\r' && DigitValue('\r', 10) == 10;
    } else if k > 0 {
      assert cut == d[..k];
      if n > 0 {
        var m := PrefixOfDigits(n, k);
        ParseI64OfText(m);
      } else {
        assert cut == Digits(0);
        ParseI64OfText(0);
      }
    }
  }

  /** A cut inside a length leaves nothing to read after it, and an array or bulk string needs more. */
  lemma TornLengthHeader(prefix: Byte, n: nat, k: nat)
    requires prefix == '$' || (prefix == '*' && n > 0)
    requires n <= I64_MAX && k < |Header(prefix, Digits(n))|
    ensures Decode(Header(prefix, Digits(n))[..k]) == Err(TornError(HeaderEdge(n, k)))
  {
    if k == 0 {
      assert Header(prefix, Digits(n))[..k] == [];
    } else {
      TextIsPlain(n);
      TornHeader(prefix, Digits(n), k);
      TornLength(n, k - 1);
      EmptyRest(prefix, (Digits(n) + CRLF)[..k - 1]);
    }
  }

  lemma EmptyRest(prefix: Byte, text: Bytes)
    requires prefix == '$' || prefix == '*'
    requires var n := ParseI64(text); n.Some? ==> n.value >= 0 && (prefix == '*' ==> n.value > 0)
    ensures DecodeBody(prefix, text, []) == Err(TornError(ParseI64(text).None?))
  {
    assert Decode([]) == Err(UnexpectedEof);
  }

  lemma TornBulkString(s: Bytes, k: nat)
    requires |s| <= I64_MAX && k < |Encode(BulkString(s))|
    ensures Decode(Encode(BulkString(s))[..k]) == Err(TornError(HeaderEdge(|s|, k)))
  {
    var head := Header('$', Digits(|s|));
    var b := Encode(BulkString(s))[..k];
    if k < |head| {
      assert b == head[..k];
      TornLengthHeader('$', |s|, k);
    } else {
      var tail := (s + CRLF)[..k - |head|];
      assert b == head + tail;
      DecodeNumberHeader('$', |s|, tail);
      ShortBulkBody(DecimalText(|s|), |s|, tail);
    }
  }

  lemma ShortBulkBody(text: Bytes, n: nat, rest: Bytes)
    requires ParseI64(text) == Some(n) && |rest| < n + 2
    ensures DecodeBody('$', text, rest) == Err(UnexpectedEof)
  {
  }

  /** A cut of the bulk strings of a command at an edge of one of their lengths. */
  predicate EdgeOfItems(args: seq<Bytes>, k: nat) {
    args != [] && (
      var first := |Encode(BulkString(args[0]))|;
      if k < first then HeaderEdge(|args[0]|, k) else EdgeOfItems(args[1..], k - first))
  }

  /** A cut of a command at an edge of one of its lengths: two places for the array and two for each argument. */
  predicate EdgeOfCommand(args: seq<Bytes>, k: nat) {
    var head := |Header('*', Digits(|args|))|;
    if k < head then HeaderEdge(|args|, k) else EdgeOfItems(args, k - head)
  }

  /** A cut within the first of the arguments. */
  lemma CutFirst(args: seq<Bytes>, k: nat)
    requires args != [] && k < |Encode(BulkString(args[0]))|
    ensures EncodeAll(Bulks(args))[..k] == Encode(BulkString(args[0]))[..k]
    ensures EdgeOfItems(args, k) == HeaderEdge(|args[0]|, k)
  {
    EncodeBulks(args);
    CutConcat(Encode(BulkString(args[0])), EncodeAll(Bulks(args[1..])), k);
  }

  /** A cut after it. */
  lemma CutLater(args: seq<Bytes>, k: nat)
    requires args != [] && |Encode(BulkString(args[0]))| <= k < |EncodeAll(Bulks(args))|
    ensures var first, tail, j := Encode(BulkString(args[0])), EncodeAll(Bulks(args[1..])), k - |Encode(BulkString(args[0]))|;
      && j < |tail| && EncodeAll(Bulks(args))[..k] == first + tail[..j]
      && EdgeOfItems(args, k) == EdgeOfItems(args[1..], j)
  {
    EncodeBulks(args);
    CutConcat(Encode(BulkString(args[0])), EncodeAll(Bulks(args[1..])), k);
  }

  lemma TornFirstItem(args: seq<Bytes>, k: nat)
    requires args != [] && Utf8(args[0]) && |args[0]| <= I64_MAX && k < |Encode(BulkString(args[0]))|
    ensures DecodeItems(|args|, EncodeAll(Bulks(args))[..k]) == Err(TornError(EdgeOfItems(args, k)))
  {
    CutFirst(args, k);
    TornBulkString(args[0], k);
    FirstFails(|args|, Encode(BulkString(args[0]))[..k], TornError(HeaderEdge(|args[0]|, k)));
  }

  lemma TornLaterItem(args: seq<Bytes>, k: nat)
    requires args != [] && Utf8(args[0]) && |args[0]| <= I64_MAX
    requires |Encode(BulkString(args[0]))| <= k < |EncodeAll(Bulks(args))|
    requires var j := k - |Encode(BulkString(args[0]))|;
      j <= |EncodeAll(Bulks(args[1..]))| ==>
        DecodeItems(|args[1..]|, EncodeAll(Bulks(args[1..]))[..j]) == Err(TornError(EdgeOfItems(args[1..], j)))
    ensures DecodeItems(|args|, EncodeAll(Bulks(args))[..k]) == Err(TornError(EdgeOfItems(args, k)))
  {
    CutLater(args, k);
    var j := k - |Encode(BulkString(args[0]))|;
    LaterFails(|args[1..]| + 1, args[0], EncodeAll(Bulks(args[1..]))[..j], TornError(EdgeOfItems(args[1..], j)));
  }

  lemma {:induction false} TornItems(args: seq<Bytes>, k: nat)
    requires forall i :: 0 <= i < |args| ==> Utf8(args[i]) && |args[i]| <= I64_MAX
    requires k < |EncodeAll(Bulks(args))|
    ensures DecodeItems(|args|, EncodeAll(Bulks(args))[..k]) == Err(TornError(EdgeOfItems(args, k)))
    decreases |args|
  {
    assert args != [];
    var first := |Encode(BulkString(args[0]))|;
    if k < first {
      TornFirstItem(args, k);
    } else {
      CutLater(args, k);
      TornItems(args[1..], k - first);
      TornLaterItem(args, k);
    }
  }

  lemma EncodeBulks(args: seq<Bytes>)
    requires args != []
    ensures EncodeAll(Bulks(args)) == Encode(BulkString(args[0])) + EncodeAll(Bulks(args[1..]))
  {
    assert Bulks(args)[1..] == Bulks(args[1..]);
  }

  lemma FirstFails(n: nat, b: Bytes, e: RespError)
    requires n > 0 && Decode(b) == Err(e)
    ensures DecodeItems(n, b) == Err(e)
  {
  }

  lemma LaterFails(n: nat, first: Bytes, rest: Bytes, e: RespError)
    requires n > 0 && Utf8(first) && |first| <= I64_MAX && DecodeItems(n - 1, rest) == Err(e)
    ensures DecodeItems(n, Encode(BulkString(first)) + rest) == Err(e)
  {
    DecodeEncodeBulkString(first, rest);
  }

  /**
   * A command cut at any byte is an error. It reads as the end of the stream, unless the cut is at an edge of
   * a length: what is left there is no number, and reads as a malformed one.
   */
  lemma TornCommand(args: seq<Bytes>, k: nat)
    requires args != [] && |args| <= I64_MAX
    requires forall i :: 0 <= i < |args| ==> Utf8(args[i]) && |args[i]| <= I64_MAX
    requires k < |Encode(Request(args))|
    ensures Decode(Encode(Request(args))[..k]) == Err(TornError(EdgeOfCommand(args, k)))
  {
    var head, items := Header('*', Digits(|args|)), EncodeAll(Bulks(args));
    CutConcat(head, items, k);
    if k < |head| {
      TornLengthHeader('*', |args|, k);
    } else {
      TornItems(args, k - |head|);
      ArrayFails(|args|, items[..k - |head|], TornError(EdgeOfItems(args, k - |head|)));
    }
  }

  lemma ArrayFails(n: nat, b: Bytes, e: RespError)
    requires 0 < n <= I64_MAX && DecodeItems(n, b) == Err(e)
    ensures Decode(Header('*', Digits(n)) + b) == Err(e)
  {
    DecodeNumberHeader('*', n, b);
    ShortArrayBody(DecimalText(n), n, b, e);
  }

  lemma ShortArrayBody(text: Bytes, n: nat, rest: Bytes, e: RespError)
    requires ParseI64(text) == Some(n) && n > 0 && DecodeItems(n, rest) == Err(e)
    ensures DecodeBody('*', text, rest) == Err(e)
  {
  }

  // ----- Decoding is well typed and cannot invent data -----

  ghost function Nodes(v: RespValue): nat
    decreases v, 0
  {
    match v
    case Array(items) => 1 + NodesOfAll(items)
    case _ => 1
  }

  ghost function NodesOfAll(items: seq<RespValue>): nat
    decreases items, 1
  {
    if items == [] then 0 else Nodes(items[0]) + NodesOfAll(items[1..])
  }

  /** Whatever lengths the stream claims, a decoded value has no more nodes than the bytes it took. */
  lemma {:induction false} DecodedSize(b: Bytes)
    ensures var r := Decode(b);
      r.Ok? ==> Nodes(r.value) <= |b| - |r.rest| && IsSuffix(r.rest, b)
    decreases |b|, 0
  {
    var n := LineLength(b);
    if n > 0 {
      DecodedBodySize(b[0], TrimEnd(b[..n][1..]), b[n..]);
    }
  }

  lemma {:induction false} DecodedBodySize(prefix: Byte, text: Bytes, b: Bytes)
    ensures var r := DecodeBody(prefix, text, b);
      r.Ok? ==> Nodes(r.value) <= 1 + |b| - |r.rest| && IsSuffix(r.rest, b)
    decreases |b|, 2
  {
    var n := ParseLength(text);
    if prefix == '*' && n.Some? && n.value > 0 {
      DecodedItemsSize(n.value, b);
    }
  }

  lemma {:induction false} DecodedItemsSize(n: nat, b: Bytes)
    ensures var r := DecodeItems(n, b);
      r.Ok? ==> NodesOfAll(r.value) <= |b| - |r.rest| && IsSuffix(r.rest, b)
    decreases |b|, 1
  {
    if n > 0 {
      ItemsAreCons(n, b);
      var d := Decode(b);
      if d.Ok? {
        DecodedSize(b);
        DecodedItemsSize(n - 1, d.rest);
        ConsSize(d.value, DecodeItems(n - 1, d.rest), d.rest, b);
      }
    }
  }

  lemma ItemsAreCons(n: nat, b: Bytes)
    requires n > 0
    ensures var d := Decode(b);
      if d.Ok? then DecodeItems(n, b) == Cons(d.value, DecodeItems(n - 1, d.rest)) else !DecodeItems(n, b).Ok?
  {
  }

  lemma ConsSize(v: RespValue, tail: Decoded<seq<RespValue>>, rest: Bytes, b: Bytes)
    requires Nodes(v) <= |b| - |rest| && IsSuffix(rest, b)
    requires tail.Ok? ==> NodesOfAll(tail.value) <= |rest| - |tail.rest| && IsSuffix(tail.rest, rest)
    ensures var r := Cons(v, tail); r.Ok? ==> NodesOfAll(r.value) <= |b| - |r.rest| && IsSuffix(r.rest, b)
  {
    if tail.Ok? {
      assert ([v] + tail.value)[1..] == tail.value;
      SuffixOfSuffix(tail.rest, rest, b);
    }
  }

  lemma {:induction false} TrimEndUtf8(s: Bytes)
    requires Utf8(s)
    ensures Utf8(TrimEnd(s))
  {
    if |s| >= 2 && s[|s| - 2..] == CRLF {
      assert s == s[..|s| - 2] + CRLF;
      Utf8WithoutAsciiEnd(s[..|s| - 2], CRLF);
      TrimEndUtf8(s[..|s| - 2]);
    }
  }

  lemma {:induction false} DecodeWellTyped(b: Bytes)
    ensures Decode(b).Ok? ==> WellTyped(Decode(b).value)
    decreases |b|, 0
  {
    if Decode(b).Ok? {
      var n := LineLength(b);
      assert CharLength(b[..n]) == 1;
      TrimEndUtf8(b[..n][1..]);
      DecodeBodyWellTyped(b[0], TrimEnd(b[..n][1..]), b[n..]);
    }
  }

  ghost predicate AllWellTyped(items: seq<RespValue>) {
    forall i :: 0 <= i < |items| ==> WellTyped(items[i])
  }

  lemma WellTypedArray(items: seq<RespValue>)
    requires AllWellTyped(items) && |items| <= I64_MAX
    ensures WellTyped(Array(items))
  {
  }

  lemma WellTypedCons(v: RespValue, items: seq<RespValue>)
    requires WellTyped(v) && AllWellTyped(items)
    ensures AllWellTyped([v] + items)
  {
  }

  lemma {:induction false} DecodeBodyWellTyped(prefix: Byte, text: Bytes, b: Bytes)
    requires Utf8(text)
    ensures var r := DecodeBody(prefix, text, b); r.Ok? ==> WellTyped(r.value)
    decreases |b|, 3
  {
    if prefix == '$' {
      DecodeBulkWellTyped(text, b);
    } else if prefix == '*' {
      var n := ParseLength(text);
      if n.Some? {
        DecodeArrayWellTyped(n.value, b);
      }
    }
  }

  lemma DecodeBulkWellTyped(text: Bytes, b: Bytes)
    ensures var r := DecodeBulkString(text, b); r.Ok? ==> WellTyped(r.value)
  {
  }

  lemma {:induction false} DecodeArrayWellTyped(n: int, b: Bytes)
    requires -1 <= n <= I64_MAX
    ensures var r := DecodeArray(n, b); r.Ok? ==> WellTyped(r.value)
    decreases |b|, 2
  {
    if n > 0 {
      DecodeItemsWellTyped(n, b);
      var items := DecodeItems(n, b);
      if items.Ok? {
        WellTypedArray(items.value);
      }
    }
  }

  lemma {:induction false} DecodeItemsWellTyped(n: nat, b: Bytes)
    ensures var r := DecodeItems(n, b); r.Ok? ==> AllWellTyped(r.value)
    decreases |b|, 1
  {
    if n > 0 && DecodeItems(n, b).Ok? {
      var d := Decode(b);
      DecodeWellTyped(b);
      DecodeItemsWellTyped(n - 1, d.rest);
      WellTypedCons(d.value, DecodeItems(n - 1, d.rest).value);
    }
  }

  // ----- Exactly which values survive the wire -----

  lemma {:induction false} FirstLine(s: Bytes, rest: Bytes)
    requires !NoNewline(s)
    ensures LineLength(s + rest) <= |s|
  {
    if s[0] != '\n' {
      assert (s + rest)[1..] == s[1..] + rest;
      var i :| 0 <= i < |s| && s[i] == '\n';
      assert s[1..][i - 1] == '\n';
      FirstLine(s[1..], rest);
    }
  }

  lemma {:induction false} TrimEndShortens(s: Bytes)
    ensures |TrimEnd(s)| <= |s|
    ensures TrimEnd(s) != s ==> |TrimEnd(s)| < |s|
  {
    if |s| >= 2 && s[|s| - 2..] == CRLF {
      TrimEndShortens(s[..|s| - 2]);
    }
  }

  /** A simple string with a newline is cut there; at best its own CRLF is left over. */
  lemma CutHeader(prefix: Byte, s: Bytes, rest: Bytes)
    requires (prefix == '+' || prefix == '-') && !NoNewline(s)
    ensures var d := Decode(Header(prefix, s) + rest);
      d.Ok? && (d.value == SimpleString(s) || d.value == SimpleError(s)) ==> d.rest == CRLF + rest
  {
    var b := Header(prefix, s) + rest;
    var i :| 0 <= i < |s| && s[i] == '\n';
    assert ([prefix] + s)[i + 1] == '\n';
    assert b == ([prefix] + s) + (CRLF + rest);
    FirstLine([prefix] + s, CRLF + rest);
    var n := LineLength(b);
    assert b[..n][1..] == s[..n - 1];
    TrimEndShortens(s[..n - 1]);
    if n == 1 + |s| {
      assert b[n..] == CRLF + rest;
    }
  }

  lemma StrayCrlf(rest: Bytes)
    ensures Decode(CRLF + rest).Err?
  {
    var b := CRLF + rest;
    assert b[1..][1..] == rest;
    assert LineLength(b[1..]) == 1 && LineLength(b) == 2;
    assert b[..2] == CRLF;
    AsciiIsUtf8(CRLF);
  }

  /** A value with a newline in a simple string is not read back, or not all of its bytes are. */
  lemma {:induction false} NewlineBreaks(v: RespValue, rest: Bytes)
    requires WellTyped(v) && !OneLiners(v)
    ensures var d := Decode(Encode(v) + rest); d.Ok? && d.value == v ==> d.rest == CRLF + rest
    decreases v, 0
  {
    match v
    case SimpleString(s) => CutHeader('+', s, rest);
    case SimpleError(s) => CutHeader('-', s, rest);
    case Array(items) =>
      NewlineBreaksItems(items, rest);
      NewlineBreaksArray(items, rest);
    case _ =>
  }

  lemma NewlineBreaksArray(items: seq<RespValue>, rest: Bytes)
    requires items != [] && |items| <= I64_MAX
    requires var d := DecodeItems(|items|, EncodeAll(items) + rest); d.Ok? && d.value == items ==> d.rest == CRLF + rest
    ensures var d := Decode(Encode(Array(items)) + rest); d.Ok? && d.value == Array(items) ==> d.rest == CRLF + rest
  {
    DecodeArrayHeader(items, rest);
    ArrayBody(DecimalText(|items|), |items|, EncodeAll(items) + rest);
  }

  lemma ArrayBody(text: Bytes, n: nat, b: Bytes)
    requires ParseI64(text) == Some(n) && n > 0
    ensures var d, items := DecodeBody('*', text, b), DecodeItems(n, b);
      d.Ok? ==> items.Ok? && d == Ok(Array(items.value), items.rest)
  {
    assert DecodeBody('*', text, b) == DecodeArray(n, b);
  }

  lemma {:induction false} NewlineBreaksItems(items: seq<RespValue>, rest: Bytes)
    requires forall i :: 0 <= i < |items| ==> WellTyped(items[i])
    requires exists i :: 0 <= i < |items| && !OneLiners(items[i])
    ensures var d := DecodeItems(|items|, EncodeAll(items) + rest); d.Ok? && d.value == items ==> d.rest == CRLF + rest
    decreases items, 1
  {
    var tail := EncodeAll(items[1..]) + rest;
    assert EncodeAll(items) + rest == Encode(items[0]) + tail;
    if OneLiners(items[0]) {
      DecodeEncode(items[0], tail);
      var i :| 0 <= i < |items| && !OneLiners(items[i]);
      assert !OneLiners(items[1..][i - 1]);
      NewlineBreaksItems(items[1..], rest);
      BrokenTail(items, EncodeAll(items) + rest, tail, rest);
    } else {
      NewlineBreaks(items[0], tail);
      BrokenHead(items[0], items[1..], EncodeAll(items) + rest, rest);
      assert [items[0]] + items[1..] == items;
    }
  }

  lemma BrokenTail(items: seq<RespValue>, b: Bytes, tail: Bytes, rest: Bytes)
    requires items != [] && Decode(b) == Ok(items[0], tail)
    requires var d := DecodeItems(|items[1..]|, tail); d.Ok? && d.value == items[1..] ==> d.rest == CRLF + rest
    ensures var d := DecodeItems(|items|, b); d.Ok? && d.value == items ==> d.rest == CRLF + rest
  {
    var d := DecodeItems(|items|, b);
    assert |items[1..]| == |items| - 1;
    if d.Ok? {
      assert d.value[1..] == DecodeItems(|items| - 1, tail).value;
    }
  }

  lemma BrokenHead(v: RespValue, items: seq<RespValue>, b: Bytes, rest: Bytes)
    requires var d := Decode(b); d.Ok? && d.value == v ==> d.rest == CRLF + (EncodeAll(items) + rest)
    ensures var d := DecodeItems(1 + |items|, b); d.Ok? && d.value == [v] + items ==> d.rest == CRLF + rest
  {
    StrayCrlf(EncodeAll(items) + rest);
    var d, head := DecodeItems(1 + |items|, b), Decode(b);
    if d.Ok? {
      assert d.value[0] == head.value;
      if items == [] {
        assert EncodeAll(items) + rest == rest;
        assert DecodeItems(0, head.rest) == Ok([], head.rest);
      }
    }
  }

  /** The round trip holds for a value exactly when no simple string inside it holds a newline. */
  lemma RoundTripExactly(v: RespValue)
    requires WellTyped(v)
    ensures (forall rest :: Decode(Encode(v) + rest) == Ok(v, rest)) <==> OneLiners(v)
  {
    if OneLiners(v) {
      forall rest ensures Decode(Encode(v) + rest) == Ok(v, rest) {
        DecodeEncode(v, rest);
      }
    } else {
      NewlineBreaks(v, []);
      assert Decode(Encode(v) + []) != Ok(v, []);
    }
  }
}
