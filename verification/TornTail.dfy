/** What is read when an entry is appended after a torn one: never the entry that was appended. */
module TornTail {
  import opened Bytes
  import opened Decimal
  import opened Resp2
  import opened Resp2Streams

  // ----- What was decoded instead -----

  /** Nothing can be read after it, and it is not the string `v`. */
  ghost predicate Stray(d: Decoded<RespValue>, v: Bytes) {
    d.Ok? ==> Decode(d.rest).Err? && d.value != BulkString(v)
  }

  ghost predicate StrayItems(d: Decoded<seq<RespValue>>, v: Bytes) {
    d.Ok? ==> Decode(d.rest).Err? && BulkString(v) !in d.value
  }

  lemma StrayFirst(n: nat, b: Bytes, v: Bytes)
    requires n > 0 && Stray(Decode(b), v)
    ensures StrayItems(DecodeItems(n, b), v)
  {
    var d := Decode(b);
    if d.Ok? && n == 1 {
      assert DecodeItems(0, d.rest) == Ok([], d.rest);
      assert DecodeItems(n, b) == Ok([d.value] + [], d.rest);
    }
  }

  lemma StrayLater(n: nat, b: Bytes, first: Bytes, rest: Bytes, v: Bytes)
    requires n > 0 && first != v && Decode(b) == Ok(BulkString(first), rest)
    requires StrayItems(DecodeItems(n - 1, rest), v)
    ensures StrayItems(DecodeItems(n, b), v)
  {
  }

  // ----- Cuts inside a length -----

  lemma NotANumber(digits: Bytes, more: Bytes)
    requires digits != [] && AllDigits(digits, 10)
    ensures ParseI64(digits + "*" + more).None?
  {
    var text := digits + "*" + more;
    assert DigitValue(digits[0], 10) < 10 && text[0] == digits[0];
    assert text[|digits|] == '*' && DigitValue('*', 10) == 10;
  }

  lemma RunOnText(n: nat, k: nat, count: nat)
    requires 0 < k <= |Digits(n)|
    ensures var text := Digits(n)[..k] + "*" + Digits(count);
      Utf8(text) && NoNewline(text) && ParseI64(text).None?
  {
    var text := Digits(n)[..k] + "*" + Digits(count);
    TextIsPlain(n);
    TextIsPlain(count);
    assert IsAscii(text) && NoNewline(text);
    AsciiIsUtf8(text);
    DigitsValue(n);
    NotANumber(Digits(n)[..k], Digits(count));
  }

  lemma RunOnBytes(prefix: Byte, digits: Bytes, k: nat, more: Bytes, rest: Bytes)
    requires 0 < k <= |digits|
    ensures Header(prefix, digits)[..k + 1] + (Header('*', more) + rest) == Header(prefix, digits[..k] + "*" + more) + rest
  {
    assert Header(prefix, digits)[..k + 1] == [prefix] + digits[..k];
  }

  /** The digits left of a length run into the prefix of the next entry. */
  lemma LengthRunsOn(prefix: Byte, n: nat, k: nat, count: nat, rest: Bytes)
    requires prefix == '$' || prefix == '*'
    requires 2 <= k <= |Digits(n)| + 1
    ensures Decode(Header(prefix, Digits(n))[..k] + (Header('*', Digits(count)) + rest)).Err?
  {
    var text := Digits(n)[..k - 1] + "*" + Digits(count);
    RunOnText(n, k - 1, count);
    RunOnBytes(prefix, Digits(n), k - 1, Digits(count), rest);
    DecodeHeader(prefix, text, rest);
    BadLength(prefix, text, rest);
  }

  lemma BadLength(prefix: Byte, text: Bytes, rest: Bytes)
    requires (prefix == '$' || prefix == '*') && ParseI64(text).None?
    ensures DecodeBody(prefix, text, rest).Err?
  {
  }

  // ----- Cuts anywhere -----

  /** The next entry: the header of an array, and the rest of it. */
  ghost predicate IsNextEntry(next: Bytes, count: nat, rest: Bytes) {
    next == Header('*', Digits(count)) + rest && Decode(next).Ok? && Decode(next).value.Array? && Decode(next).rest == []
  }

  /** The next entry makes no sense without its first `q` bytes. */
  ghost predicate Unreadable(next: Bytes, q: nat) {
    0 < q <= |next| ==> Decode(next[q..]).Err?
  }

  lemma StrayWhole(next: Bytes, count: nat, rest: Bytes, v: Bytes)
    requires IsNextEntry(next, count, rest)
    ensures Stray(Decode(next), v)
  {
    assert Decode([]).Err?;
  }

  /** The body of a torn bulk string is filled up with the head of the next entry. */
  lemma BodyFilledUp(s: Bytes, have: nat, next: Bytes, v: Bytes)
    requires |s| <= I64_MAX && have < |s| + 2 && |v| != |s| && Unreadable(next, |s| + 2 - have)
    ensures Stray(Decode(Header('$', Digits(|s|)) + ((s + CRLF)[..have] + next)), v)
  {
    var rest := (s + CRLF)[..have] + next;
    DecodeNumberHeader('$', |s|, rest);
    if |rest| >= |s| + 2 {
      assert rest[|s| + 2..] == next[|s| + 2 - have..];
    }
    BulkBody(DecimalText(|s|), |s|, rest, v);
  }

  lemma BulkBody(text: Bytes, n: nat, rest: Bytes, v: Bytes)
    requires ParseI64(text) == Some(n) && |v| != n
    requires |rest| >= n + 2 ==> Decode(rest[n + 2..]).Err?
    ensures Stray(DecodeBody('$', text, rest), v)
  {
    assert DecodeBody('$', text, rest) == DecodeBulkString(text, rest);
  }

  lemma TornBodyThen(s: Bytes, k: nat, next: Bytes, v: Bytes)
    requires |s| <= I64_MAX && |v| != |s|
    requires |Header('$', Digits(|s|))| <= k < |Encode(BulkString(s))| && Unreadable(next, |Encode(BulkString(s))| - k)
    ensures Stray(Decode(Encode(BulkString(s))[..k] + next), v)
  {
    var head, body := Header('$', Digits(|s|)), s + CRLF;
    var have := k - |head|;
    assert Encode(BulkString(s)) == head + body;
    CutConcat(head, body, k);
    Associate(head, body[..have], next);
    BodyFilledUp(s, have, next, v);
  }

  lemma TornLengthThen(s: Bytes, k: nat, next: Bytes, count: nat, rest: Bytes, v: Bytes)
    requires next == Header('*', Digits(count)) + rest
    requires 0 < k < |Header('$', Digits(|s|))| && !HeaderEdge(|s|, k)
    ensures Stray(Decode(Encode(BulkString(s))[..k] + next), v)
  {
    var head := Header('$', Digits(|s|));
    assert Encode(BulkString(s)) == head + s + CRLF;
    assert Encode(BulkString(s))[..k] == head[..k];
    LengthRunsOn('$', |s|, k, count, rest);
  }

  lemma TornNowhereThen(b: Bytes, next: Bytes, count: nat, rest: Bytes, v: Bytes)
    requires IsNextEntry(next, count, rest)
    ensures Stray(Decode(b[..0] + next), v)
  {
    assert b[..0] + next == next;
    StrayWhole(next, count, rest, v);
  }

  /** A bulk string cut anywhere but at an edge of its length, and another entry after it. */
  lemma TornBulkThen(s: Bytes, k: nat, next: Bytes, count: nat, rest: Bytes, v: Bytes)
    requires |s| <= I64_MAX && |v| != |s| && IsNextEntry(next, count, rest)
    requires k < |Encode(BulkString(s))| && !HeaderEdge(|s|, k) && Unreadable(next, |Encode(BulkString(s))| - k)
    ensures Stray(Decode(Encode(BulkString(s))[..k] + next), v)
  {
    if k == 0 {
      TornNowhereThen(Encode(BulkString(s)), next, count, rest, v);
    } else if k < |Header('$', Digits(|s|))| {
      TornLengthThen(s, k, next, count, rest, v);
    } else {
      TornBodyThen(s, k, next, v);
    }
  }

  /** How much of the bulk string a cut falls into is missing. */
  function Missing(args: seq<Bytes>, k: nat): nat {
    if args == [] then 0
    else
      var first := |Encode(BulkString(args[0]))|;
      if k < first then first - k else Missing(args[1..], k - first)
  }

  predicate ShorterText(s: Bytes, v: Bytes) {
    Utf8(s) && |s| <= I64_MAX && |s| < |v|
  }

  ghost predicate Shorter(args: seq<Bytes>, v: Bytes) {
    forall i :: 0 <= i < |args| ==> ShorterText(args[i], v)
  }

  lemma TornFirstThen(n: nat, s: Bytes, k: nat, next: Bytes, count: nat, rest: Bytes, v: Bytes)
    requires n > 0 && IsNextEntry(next, count, rest) && ShorterText(s, v)
    requires k < |Encode(BulkString(s))| && !HeaderEdge(|s|, k) && Unreadable(next, |Encode(BulkString(s))| - k)
    ensures StrayItems(DecodeItems(n, Encode(BulkString(s))[..k] + next), v)
  {
    TornBulkThen(s, k, next, count, rest, v);
    StrayFirst(n, Encode(BulkString(s))[..k] + next, v);
  }

  lemma MissingFirst(args: seq<Bytes>, k: nat)
    requires args != [] && k < |Encode(BulkString(args[0]))|
    ensures Missing(args, k) == |Encode(BulkString(args[0]))| - k
  {
  }

  lemma MissingLater(args: seq<Bytes>, k: nat)
    requires args != [] && |Encode(BulkString(args[0]))| <= k
    ensures Missing(args, k) == Missing(args[1..], k - |Encode(BulkString(args[0]))|)
  {
  }

  lemma ShorterTail(args: seq<Bytes>, v: Bytes)
    requires args != [] && Shorter(args, v)
    ensures ShorterText(args[0], v) && Shorter(args[1..], v)
  {
  }

  lemma TornFirstItemThen(args: seq<Bytes>, k: nat, next: Bytes, count: nat, rest: Bytes, v: Bytes)
    requires args != [] && IsNextEntry(next, count, rest) && ShorterText(args[0], v)
    requires k < |Encode(BulkString(args[0]))| && !EdgeOfItems(args, k) && Unreadable(next, Missing(args, k))
    ensures StrayItems(DecodeItems(|args|, EncodeAll(Bulks(args))[..k] + next), v)
  {
    CutFirst(args, k);
    MissingFirst(args, k);
    TornFirstThen(|args|, args[0], k, next, count, rest, v);
  }

  lemma TornLaterItemThen(args: seq<Bytes>, k: nat, j: nat, next: Bytes, v: Bytes)
    requires args != [] && ShorterText(args[0], v)
    requires k == |Encode(BulkString(args[0]))| + j < |EncodeAll(Bulks(args))| && j < |EncodeAll(Bulks(args[1..]))|
    requires StrayItems(DecodeItems(|args[1..]|, EncodeAll(Bulks(args[1..]))[..j] + next), v)
    ensures StrayItems(DecodeItems(|args|, EncodeAll(Bulks(args))[..k] + next), v)
  {
    var left := EncodeAll(Bulks(args[1..]))[..j];
    ItemsGoOn(|args|, args[0], left, next, v);
    CutLater(args, k);
  }

  lemma {:induction false} TornItemsThen(args: seq<Bytes>, k: nat, next: Bytes, count: nat, rest: Bytes, v: Bytes)
    requires IsNextEntry(next, count, rest) && Shorter(args, v)
    requires k < |EncodeAll(Bulks(args))| && !EdgeOfItems(args, k) && Unreadable(next, Missing(args, k))
    ensures StrayItems(DecodeItems(|args|, EncodeAll(Bulks(args))[..k] + next), v)
    decreases |args|
  {
    assert args != [];
    ShorterTail(args, v);
    var first := |Encode(BulkString(args[0]))|;
    if k < first {
      TornFirstItemThen(args, k, next, count, rest, v);
    } else {
      CutLater(args, k);
      MissingLater(args, k);
      TornItemsThen(args[1..], k - first, next, count, rest, v);
      TornLaterItemThen(args, k, k - first, next, v);
    }
  }

  lemma ItemsGoOn(n: nat, first: Bytes, left: Bytes, next: Bytes, v: Bytes)
    requires n > 0 && ShorterText(first, v) && StrayItems(DecodeItems(n - 1, left + next), v)
    ensures StrayItems(DecodeItems(n, Encode(BulkString(first)) + left + next), v)
  {
    Associate(Encode(BulkString(first)), left, next);
    DecodeEncodeBulkString(first, left + next);
    StrayLater(n, Encode(BulkString(first)) + (left + next), first, left + next, v);
  }

  function MissingOfCommand(args: seq<Bytes>, k: nat): nat {
    var head := |Header('*', Digits(|args|))|;
    if k < head then 0 else Missing(args, k - head)
  }

  /** A command read across the tear: an array without `v` in it, after which nothing can be read. */
  ghost predicate StrayCommand(d: Decoded<RespValue>, v: Bytes) {
    d.Ok? ==> Decode(d.rest).Err? && d.value.Array? && BulkString(v) !in d.value.items
  }

  lemma StrayArray(n: nat, b: Bytes, v: Bytes)
    requires 0 < n <= I64_MAX && StrayItems(DecodeItems(n, b), v)
    ensures StrayCommand(Decode(Header('*', Digits(n)) + b), v)
  {
    DecodeNumberHeader('*', n, b);
    ArrayBody(DecimalText(n), n, b);
  }

  lemma StrayAcross(n: nat, left: Bytes, next: Bytes, v: Bytes)
    requires 0 < n <= I64_MAX && StrayItems(DecodeItems(n, left + next), v)
    ensures StrayCommand(Decode(Header('*', Digits(n)) + left + next), v)
  {
    Associate(Header('*', Digits(n)), left, next);
    StrayArray(n, left + next, v);
  }

  lemma RequestCut(args: seq<Bytes>, k: nat)
    requires k < |Encode(Request(args))|
    ensures var head, items := Header('*', Digits(|args|)), EncodeAll(Bulks(args));
      if k < |head| then Encode(Request(args))[..k] == head[..k]
      else k - |head| < |items| && Encode(Request(args))[..k] == head + items[..k - |head|]
  {
    CutConcat(Header('*', Digits(|args|)), EncodeAll(Bulks(args)), k);
  }

  lemma TornCountThen(n: nat, k: nat, next: Bytes, count: nat, rest: Bytes, v: Bytes)
    requires next == Header('*', Digits(count)) + rest
    requires 0 < k < |Header('*', Digits(n))| && !HeaderEdge(n, k)
    ensures StrayCommand(Decode(Header('*', Digits(n))[..k] + next), v)
  {
    LengthRunsOn('*', n, k, count, rest);
  }

  lemma TornArgumentsThen(args: seq<Bytes>, k: nat, next: Bytes, count: nat, rest: Bytes, v: Bytes)
    requires args != [] && |args| <= I64_MAX && IsNextEntry(next, count, rest) && Shorter(args, v)
    requires k < |EncodeAll(Bulks(args))| && !EdgeOfItems(args, k) && Unreadable(next, Missing(args, k))
    ensures StrayCommand(Decode(Header('*', Digits(|args|)) + EncodeAll(Bulks(args))[..k] + next), v)
  {
    TornItemsThen(args, k, next, count, rest, v);
    StrayAcross(|args|, EncodeAll(Bulks(args))[..k], next, v);
  }

  /** A command cut strictly inside, but not at an edge of a length, and another entry after it. */
  lemma TornCommandThen(args: seq<Bytes>, k: nat, next: Bytes, count: nat, rest: Bytes, v: Bytes)
    requires args != [] && |args| <= I64_MAX && IsNextEntry(next, count, rest) && Shorter(args, v)
    requires 0 < k < |Encode(Request(args))| && !EdgeOfCommand(args, k) && Unreadable(next, MissingOfCommand(args, k))
    ensures StrayCommand(Decode(Encode(Request(args))[..k] + next), v)
  {
    var head := |Header('*', Digits(|args|))|;
    RequestCut(args, k);
    if k < head {
      TornCountThen(|args|, k, next, count, rest, v);
    } else {
      TornArgumentsThen(args, k - head, next, count, rest, v);
    }
  }

  // ----- An entry that fits no tear -----

  /** The value the appended entry sets. */
  function Filler(n: nat): (v: Bytes)
    ensures |v| == n && IsAscii(v)
  {
    seq(n, i => 'v')
  }

  const KEY: Bytes := "x"

  function Pairs(wide: bool, v: Bytes): seq<Bytes> {
    if wide then [KEY, v, KEY, v, KEY, v, KEY, v, KEY, v] else [KEY, v]
  }

  /** An MSET of one key, once or, to shift its bytes by one, five times. */
  function Arguments(wide: bool, n: nat): seq<Bytes> {
    ["MSET"] + Pairs(wide, Filler(n))
  }

  function Count(wide: bool): nat {
    if wide then 11 else 3
  }

  /** The bytes between the header of the array and the length of the value. */
  const MIDDLE: Bytes := "$4\r\nMSET\r\n$1\r\nx\r\n"

  lemma EntryShape(wide: bool, n: nat) returns (tail: Bytes)
    ensures Encode(Request(Arguments(wide, n))) ==
      Header('*', Digits(Count(wide))) + (MIDDLE + (Header('$', Digits(n)) + (Filler(n) + tail)))
  {
    var args := Arguments(wide, n);
    assert args[1..] == Pairs(wide, Filler(n));
    tail := PairsShape(wide, Filler(n));
    EncodeBulks(args);
    Associate(Encode(BulkString("MSET")), Encode(BulkString(KEY)), Header('$', Digits(n)) + (Filler(n) + tail));
    MiddleBytes();
  }

  lemma PairsShape(wide: bool, v: Bytes) returns (tail: Bytes)
    ensures EncodeAll(Bulks(Pairs(wide, v))) == Encode(BulkString(KEY)) + (Header('$', Digits(|v|)) + (v + tail))
  {
    var pairs := Pairs(wide, v);
    var rest := pairs[1..];
    assert rest[0] == v;
    EncodeBulks(pairs);
    EncodeBulks(rest);
    tail := CRLF + EncodeAll(Bulks(rest[1..]));
    Associate(Header('$', Digits(|v|)), v + CRLF, EncodeAll(Bulks(rest[1..])));
    Associate(Header('$', Digits(|v|)), v, CRLF);
    Associate(v, CRLF, EncodeAll(Bulks(rest[1..])));
  }

  lemma MiddleBytes()
    ensures Encode(BulkString("MSET")) + Encode(BulkString(KEY)) == MIDDLE
  {
    assert DecimalText(4) == "4" && DecimalText(1) == "1";
    assert Encode(BulkString("MSET")) == "$4\r\nMSET\r\n";
    assert Encode(BulkString(KEY)) == "$1\r\nx\r\n";
  }

  predicate NoPrefix(c: Byte) {
    c as int <= 0x7F && c != '+' && c != '-' && c != ':' && c != '$' && c != '*'
  }

  lemma NothingDecodes(b: Bytes)
    requires b != [] && NoPrefix(b[0])
    ensures Decode(b).Err?
  {
    var n := LineLength(b);
    assert b[..n][0] == b[0];
  }

  /** The places where a bulk string of the entry starts, up to its first value. */
  predicate Aligned(wide: bool, q: nat) {
    var h := if wide then 5 else 4;
    q == h || q == h + 10 || q == h + 17
  }

  lemma HeaderBytes(prefix: Byte, n: nat, i: nat)
    requires 0 < i < |Header(prefix, Digits(n))|
    ensures NoPrefix(Header(prefix, Digits(n))[i])
  {
    DigitsValue(n);
    if i <= |Digits(n)| {
      assert DigitValue(Digits(n)[i - 1], 10) < 10;
    }
  }

  lemma CountBytes(wide: bool)
    ensures |Header('*', Digits(Count(wide)))| == if wide then 5 else 4
  {
    assert Digits(3) == "3";
    assert Digits(1) == "1";
    assert Digits(11) == Digits(1) + "1";
  }

  lemma MiddleByte(i: nat)
    requires i < |MIDDLE| && i != 0 && i != 10
    ensures NoPrefix(MIDDLE[i])
  {
  }

  /** Read from anywhere else, the entry makes no sense. */
  lemma Misaligned(wide: bool, n: nat, q: nat)
    requires 0 < q <= n && !Aligned(wide, q)
    ensures var next := Encode(Request(Arguments(wide, n))); q < |next| && Decode(next[q..]).Err?
  {
    var tail := EntryShape(wide, n);
    var next := Encode(Request(Arguments(wide, n)));
    var h, d := Header('*', Digits(Count(wide))), Header('$', Digits(n));
    CountBytes(wide);
    assert |MIDDLE| == 17;
    if q < |h| {
      HeaderBytes('*', Count(wide), q);
      assert next[q] == h[q];
    } else if q < |h| + 17 {
      MiddleByte(q - |h|);
      assert next[q] == MIDDLE[q - |h|];
    } else if q < |h| + 17 + |d| {
      HeaderBytes('$', n, q - |h| - 17);
      assert next[q] == d[q - |h| - 17];
    } else {
      assert next[q] == Filler(n)[q - |h| - 17 - |d|];
    }
    NothingDecodes(next[q..]);
  }

  /** For any number of missing bytes one of the two entries is misaligned. */
  lemma Misalignable(n: nat, q: nat) returns (wide: bool)
    requires q <= n
    ensures q > 0 ==> !Aligned(wide, q)
  {
    wide := Aligned(false, q);
  }
}
