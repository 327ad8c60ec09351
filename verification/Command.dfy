/** Commands, and how a request is parsed into one. */
module Command {
  import opened Bytes
  import opened Decimal
  import opened Resp2

  datatype SetCondition = NX | XX | IfEq(text: Bytes) | IfNe(text: Bytes) | IfDeq(digest: int) | IfDne(digest: int)

  datatype SetExpiry = Ex(n: nat) | Px(n: nat) | ExAt(n: nat) | PxAt(n: nat) | KeepTtl

  datatype FlushMode = Sync | Async

  datatype Command =
    | Ping(message: Option<Bytes>)
    | Get(key: Bytes)
    | Set(key: Bytes, value: Bytes, options: SetOptions)
    | Delete(keys: seq<Bytes>)
    | GetDel(key: Bytes)
    | Exists(keys: seq<Bytes>)
    | MGet(keys: seq<Bytes>)
    | MSet(items: seq<(Bytes, Bytes)>)
    | StrLen(key: Bytes)
    | LPush(key: Bytes, elements: seq<Bytes>)
    | RPush(key: Bytes, elements: seq<Bytes>)
    | LPushX(key: Bytes, elements: seq<Bytes>)
    | RPushX(key: Bytes, elements: seq<Bytes>)
    | LPop(key: Bytes, count: Option<nat>)
    | RPop(key: Bytes, count: Option<nat>)
    | LSet(key: Bytes, index: int, element: Bytes)
    | LLen(key: Bytes)
    | LIndex(key: Bytes, index: int)
    | LRange(key: Bytes, start: int, stop: int)
    | SAdd(key: Bytes, members: seq<Bytes>)
    | SMembers(key: Bytes)
    | SIsMember(key: Bytes, member: Bytes)
    | SMIsMember(key: Bytes, members: seq<Bytes>)
    | SRandMember(key: Bytes, sample: Option<int>)
    | SCard(key: Bytes)
    | SMove(source: Bytes, destination: Bytes, member: Bytes)
    | SPop(key: Bytes, count: Option<nat>)
    | SRem(key: Bytes, members: seq<Bytes>)
    | Ttl(key: Bytes)
    | PTtl(key: Bytes)
    | ExpireTime(key: Bytes)
    | PExpireTime(key: Bytes)
    | Persist(key: Bytes)
    | Expire(key: Bytes, seconds: nat)
    | PExpire(key: Bytes, milliseconds: nat)
    | ExpireAt(key: Bytes, deadlineSecs: nat)
    | PExpireAt(key: Bytes, deadlineMs: nat)
    | Keys(pattern: Bytes)
    | Digest(key: Bytes)
    | Select(db: nat)
    | DbSize
    | FlushDb(mode: Option<FlushMode>)

  datatype SetOptions = SetOptions(condition: Option<SetCondition>, expiry: Option<SetExpiry>, get: bool)

  datatype HandlerError =
    | UnexpectedType
    | UnknownCommand(name: Bytes)
    | WrongArity(expected: nat, got: nat)
    | NotAnInteger(text: Bytes)
    | DbIndexOutOfRange
    | SyntaxError

  /** `Crash` is the index `args[0]` into an empty array. */
  datatype ParseResult<+T> = Parsed(value: T) | Rejected(error: HandlerError) | Crash

  /** Whether the handler must log the command. LSET is not listed. */
  predicate IsWrite(c: Command) {
    c.Set? || c.Delete? || c.GetDel? || c.MSet? || c.LPush? || c.RPush? || c.LPushX? || c.RPushX? || c.LPop? || c.RPop?
    || c.SAdd? || c.SMove? || c.SPop? || c.SRem? || c.Persist? || c.Expire? || c.PExpire? || c.ExpireAt? || c.PExpireAt?
    || c.FlushDb?
  }

  // ----- Arguments -----

  /** The arguments of a request, if it is an array of bulk strings. */
  function Arguments(v: RespValue): (args: Option<seq<Bytes>>)
    ensures args.Some? <==> v.Array? && forall i :: 0 <= i < |v.items| ==> v.items[i].BulkString?
    ensures args.Some? ==> |args.value| == |v.items|
    ensures args.Some? ==> forall i :: 0 <= i < |args.value| ==> v.items[i] == BulkString(args.value[i])
  {
    if v.Array? && forall i :: 0 <= i < |v.items| ==> v.items[i].BulkString?
    then Some(seq(|v.items|, i requires 0 <= i < |v.items| && v.items[i].BulkString? => v.items[i].body))
    else None
  }

  /** An arity error; its numbers are kept in one byte. */
  function BadArity(expected: nat, args: seq<Bytes>): HandlerError {
    WrongArity(expected % 256, |args| % 256)
  }

  function ParseKey(args: seq<Bytes>, make: Bytes -> Command): ParseResult<Command> {
    if |args| != 2 then Rejected(BadArity(2, args)) else Parsed(make(args[1]))
  }

  function ParseKeys(args: seq<Bytes>, make: seq<Bytes> -> Command): ParseResult<Command> {
    if |args| < 2 then Rejected(BadArity(2, args)) else Parsed(make(args[1..]))
  }

  function ParseKeyWithElements(args: seq<Bytes>, make: (Bytes, seq<Bytes>) -> Command): ParseResult<Command> {
    if |args| < 3 then Rejected(BadArity(3, args)) else Parsed(make(args[1], args[2..]))
  }

  function ParsePop(args: seq<Bytes>, make: (Bytes, Option<nat>) -> Command): ParseResult<Command> {
    if |args| < 2 then Rejected(BadArity(2, args))
    else if |args| == 2 then Parsed(make(args[1], None))
    else
      var n := ParseU64(args[2]);
      if n.None? then Rejected(NotAnInteger(args[2])) else Parsed(make(args[1], Some(n.value)))
  }

  function ParseExpire(args: seq<Bytes>, make: (Bytes, nat) -> Command): ParseResult<Command> {
    if |args| != 3 then Rejected(BadArity(3, args))
    else
      var n := ParseU64(args[2]);
      if n.None? then Rejected(NotAnInteger(args[2])) else Parsed(make(args[1], n.value))
  }

  function ParsePing(args: seq<Bytes>): ParseResult<Command>
    requires args != []
  {
    if |args| == 1 then Parsed(Ping(None)) else Parsed(Ping(Some(args[1])))
  }

  function Pairs(args: seq<Bytes>): seq<(Bytes, Bytes)> {
    if |args| < 2 then [] else [(args[0], args[1])] + Pairs(args[2..])
  }

  function ParseMSet(args: seq<Bytes>): ParseResult<Command> {
    if |args| < 3 then Rejected(BadArity(3, args))
    else if |args| % 2 == 0 then Rejected(WrongArity(|args| % 256 + 1, |args| % 256))
    else Parsed(MSet(Pairs(args[1..])))
  }

  function ParseLSet(args: seq<Bytes>): ParseResult<Command> {
    if |args| != 4 then Rejected(BadArity(4, args))
    else
      var n := ParseI64(args[2]);
      if n.None? then Rejected(NotAnInteger(args[2])) else Parsed(LSet(args[1], n.value, args[3]))
  }

  function ParseLIndex(args: seq<Bytes>): ParseResult<Command> {
    if |args| != 3 then Rejected(BadArity(3, args))
    else
      var n := ParseI64(args[2]);
      if n.None? then Rejected(NotAnInteger(args[2])) else Parsed(LIndex(args[1], n.value))
  }

  function ParseLRange(args: seq<Bytes>): ParseResult<Command> {
    if |args| != 4 then Rejected(BadArity(4, args))
    else
      var start, stop := ParseI64(args[2]), ParseI64(args[3]);
      if start.None? then Rejected(NotAnInteger(args[2]))
      else if stop.None? then Rejected(NotAnInteger(args[3]))
      else Parsed(LRange(args[1], start.value, stop.value))
  }

  function ParseSIsMember(args: seq<Bytes>): ParseResult<Command> {
    if |args| != 3 then Rejected(BadArity(3, args)) else Parsed(SIsMember(args[1], args[2]))
  }

  function ParseSRandMember(args: seq<Bytes>): ParseResult<Command> {
    if |args| < 2 then Rejected(BadArity(2, args))
    else if |args| == 2 then Parsed(SRandMember(args[1], None))
    else
      var n := ParseI64(args[2]);
      if n.None? then Rejected(NotAnInteger(args[2])) else Parsed(SRandMember(args[1], n))
  }

  function ParseSMove(args: seq<Bytes>): ParseResult<Command> {
    if |args| != 4 then Rejected(BadArity(4, args)) else Parsed(SMove(args[1], args[2], args[3]))
  }

  function ParseSelect(args: seq<Bytes>): ParseResult<Command> {
    if |args| != 2 then Rejected(BadArity(2, args))
    else
      var n := ParseNumber(args[1], 10, 0, 255);
      if n.Some? && n.value >= 0 then Parsed(Select(n.value))
      else if ParseI64(args[1]).Some? then Rejected(DbIndexOutOfRange)
      else Rejected(NotAnInteger(args[1]))
  }

  function ParseFlushDb(args: seq<Bytes>): ParseResult<Command> {
    if |args| > 2 then Rejected(BadArity(1, args))
    else if |args| < 2 then Parsed(FlushDb(None))
    else if args[1] == "SYNC" then Parsed(FlushDb(Some(Sync)))
    else if args[1] == "ASYNC" then Parsed(FlushDb(Some(Async)))
    else Rejected(SyntaxError)
  }

  // ----- SET -----

  const NO_OPTIONS := SetOptions(None, None, false)

  predicate IsConditionWord(t: Bytes) {
    t == "NX" || t == "XX" || t == "IFEQ" || t == "IFNE" || t == "IFDEQ" || t == "IFDNE"
  }

  predicate IsExpiryWord(t: Bytes) {
    t == "EX" || t == "PX" || t == "EXAT" || t == "PXAT" || t == "KEEPTTL"
  }

  /** Reads the option tokens left to right, each with the operand that follows it. */
  function ScanOptions(tokens: seq<Bytes>, acc: SetOptions): ParseResult<SetOptions> {
    if tokens == [] then Parsed(acc)
    else
      match ScanOne(tokens, acc)
      case Parsed((options, n)) => ScanOptions(tokens[n..], options)
      case Rejected(e) => Rejected(e)
      case Crash => Crash
  }

  /** Adds the first option to those read so far, and counts the tokens it takes. */
  function ScanOne(tokens: seq<Bytes>, acc: SetOptions): (r: ParseResult<(SetOptions, nat)>)
    requires tokens != []
    ensures r.Parsed? ==> 1 <= r.value.1 <= |tokens|
    ensures !r.Crash?
  {
    if tokens[0] == "GET" then Parsed((acc.(get := true), 1))
    else if IsConditionWord(tokens[0]) then
      if acc.condition.Some? then Rejected(SyntaxError)
      else
        match ReadCondition(tokens)
        case Parsed((c, n)) => Parsed((acc.(condition := Some(c)), n))
        case Rejected(e) => Rejected(e)
    else if IsExpiryWord(tokens[0]) then
      if acc.expiry.Some? then Rejected(SyntaxError)
      else
        match ReadExpiry(tokens)
        case Parsed((e, n)) => Parsed((acc.(expiry := Some(e)), n))
        case Rejected(e) => Rejected(e)
    else Rejected(SyntaxError)
  }

  /** A condition and the number of tokens it takes. */
  function ReadCondition(tokens: seq<Bytes>): (r: ParseResult<(SetCondition, nat)>)
    requires tokens != []
    ensures r.Parsed? ==> 1 <= r.value.1 <= |tokens|
    ensures !r.Crash?
  {
    if tokens[0] == "NX" then Parsed((NX, 1))
    else if tokens[0] == "XX" then Parsed((XX, 1))
    else if |tokens| < 2 then Rejected(SyntaxError)
    else if tokens[0] == "IFEQ" then Parsed((IfEq(tokens[1]), 2))
    else if tokens[0] == "IFNE" then Parsed((IfNe(tokens[1]), 2))
    else
      var n := ParseHexU64(tokens[1]);
      if n.None? then Rejected(NotAnInteger(tokens[1]))
      else Parsed((if tokens[0] == "IFDEQ" then IfDeq(n.value) else IfDne(n.value), 2))
  }

  function ReadExpiry(tokens: seq<Bytes>): (r: ParseResult<(SetExpiry, nat)>)
    requires tokens != []
    ensures r.Parsed? ==> 1 <= r.value.1 <= |tokens|
    ensures !r.Crash?
  {
    if tokens[0] == "KEEPTTL" then Parsed((KeepTtl, 1))
    else if |tokens| < 2 then Rejected(SyntaxError)
    else
      var n := ParseU64(tokens[1]);
      if n.None? then Rejected(NotAnInteger(tokens[1]))
      else
        Parsed((
          if tokens[0] == "EX" then Ex(n.value)
          else if tokens[0] == "PX" then Px(n.value)
          else if tokens[0] == "EXAT" then ExAt(n.value)
          else PxAt(n.value), 2))
  }

  function ParseSet(args: seq<Bytes>): ParseResult<Command> {
    if |args| < 3 then Rejected(BadArity(3, args))
    else
      match ScanOptions(args[3..], NO_OPTIONS)
      case Parsed(o) => Parsed(Set(args[1], args[2], o))
      case Rejected(e) => Rejected(e)
      case Crash => Crash
  }

  /** The option loop as it runs. */
  method ParseSetCommand(args: seq<Bytes>) returns (r: ParseResult<Command>)
    ensures r == ParseSet(args)
  {
    if |args| < 3 {
      return Rejected(BadArity(3, args));
    }
    var options, i := NO_OPTIONS, 3;
    while i < |args|
      invariant 3 <= i <= |args|
      invariant ScanOptions(args[3..], NO_OPTIONS) == ScanOptions(args[i..], options)
    {
      var next := ScanOne(args[i..], options);
      if next.Rejected? {
        return Rejected(next.error);
      }
      assert args[i..][next.value.1..] == args[i + next.value.1..];
      options := next.value.0;
      i := i + next.value.1;
    }
    assert args[i..] == [];
    r := Parsed(Set(args[1], args[2], options));
  }

  // ----- Dispatch -----

  function ParseArguments(args: seq<Bytes>): ParseResult<Command>
    requires args != []
  {
    var name := args[0];
    if name == "PING" then ParsePing(args)
    else if name == "GET" then ParseKey(args, k => Get(k))
    else if name == "SET" then ParseSet(args)
    else if name == "DEL" then ParseKeys(args, ks => Delete(ks))
    else if name == "GETDEL" then ParseKey(args, k => GetDel(k))
    else if name == "EXISTS" then ParseKeys(args, ks => Exists(ks))
    else if name == "MGET" then ParseKeys(args, ks => MGet(ks))
    else if name == "MSET" then ParseMSet(args)
    else if name == "STRLEN" then ParseKey(args, k => StrLen(k))
    else ParseServerArguments(args)
  }

  function ParseServerArguments(args: seq<Bytes>): ParseResult<Command>
    requires args != []
  {
    var name := args[0];
    if name == "DIGEST" then ParseKey(args, k => Digest(k))
    else if name == "KEYS" then ParseKey(args, p => Keys(p))
    else if name == "SELECT" then ParseSelect(args)
    else if name == "DBSIZE" then if |args| != 1 then Rejected(BadArity(1, args)) else Parsed(DbSize)
    else if name == "FLUSHDB" then ParseFlushDb(args)
    else ParseListArguments(args)
  }

  function ParseListArguments(args: seq<Bytes>): ParseResult<Command>
    requires args != []
  {
    var name := args[0];
    if name == "LPUSH" then ParseKeyWithElements(args, (k, es) => LPush(k, es))
    else if name == "RPUSH" then ParseKeyWithElements(args, (k, es) => RPush(k, es))
    else if name == "LPUSHX" then ParseKeyWithElements(args, (k, es) => LPushX(k, es))
    else if name == "RPUSHX" then ParseKeyWithElements(args, (k, es) => RPushX(k, es))
    else if name == "LPOP" then ParsePop(args, (k, n) => LPop(k, n))
    else if name == "RPOP" then ParsePop(args, (k, n) => RPop(k, n))
    else if name == "LSET" then ParseLSet(args)
    else if name == "LLEN" then ParseKey(args, k => LLen(k))
    else if name == "LINDEX" then ParseLIndex(args)
    else if name == "LRANGE" then ParseLRange(args)
    else ParseSetArguments(args)
  }

  function ParseSetArguments(args: seq<Bytes>): ParseResult<Command>
    requires args != []
  {
    var name := args[0];
    if name == "SADD" then ParseKeyWithElements(args, (k, ms) => SAdd(k, ms))
    else if name == "SMEMBERS" then ParseKey(args, k => SMembers(k))
    else if name == "SISMEMBER" then ParseSIsMember(args)
    else if name == "SMISMEMBER" then ParseKeyWithElements(args, (k, ms) => SMIsMember(k, ms))
    else if name == "SRANDMEMBER" then ParseSRandMember(args)
    else if name == "SCARD" then ParseKey(args, k => SCard(k))
    else if name == "SMOVE" then ParseSMove(args)
    else if name == "SPOP" then ParsePop(args, (k, n) => SPop(k, n))
    else if name == "SREM" then ParseKeyWithElements(args, (k, ms) => SRem(k, ms))
    else ParseExpiryArguments(args)
  }

  function ParseExpiryArguments(args: seq<Bytes>): ParseResult<Command>
    requires args != []
  {
    var name := args[0];
    if name == "TTL" then ParseKey(args, k => Ttl(k))
    else if name == "PTTL" then ParseKey(args, k => PTtl(k))
    else if name == "EXPIRETIME" then ParseKey(args, k => ExpireTime(k))
    else if name == "PEXPIRETIME" then ParseKey(args, k => PExpireTime(k))
    else if name == "PERSIST" then ParseKey(args, k => Persist(k))
    else if name == "EXPIRE" then ParseExpire(args, (k: Bytes, n: nat) => Expire(k, n))
    else if name == "PEXPIRE" then ParseExpire(args, (k: Bytes, n: nat) => PExpire(k, n))
    else if name == "EXPIREAT" then ParseExpire(args, (k: Bytes, n: nat) => ExpireAt(k, n))
    else if name == "PEXPIREAT" then ParseExpire(args, (k: Bytes, n: nat) => PExpireAt(k, n))
    else Rejected(UnknownCommand(name))
  }

  function FromResp2(v: RespValue): ParseResult<Command> {
    var args := Arguments(v);
    if args.None? then Rejected(UnexpectedType)
    else if args.value == [] then Crash
    else ParseArguments(args.value)
  }

  // ----- What the log relies on -----

  /** The shape every parsed command has. */
  predicate WellFormed(c: Command) {
    match c
    case LPush(_, es) => es != []
    case RPush(_, es) => es != []
    case LPushX(_, es) => es != []
    case RPushX(_, es) => es != []
    case SAdd(_, ms) => ms != []
    case SRem(_, ms) => ms != []
    case Expire(_, n) => n <= U64_MAX
    case PExpire(_, n) => n <= U64_MAX
    case ExpireAt(_, n) => n <= U64_MAX
    case PExpireAt(_, n) => n <= U64_MAX
    case Set(_, _, options) => OptionsFit(options)
    case _ => true
  }

  /** The operands of SET's options are 64-bit numbers. */
  predicate OptionsFit(options: SetOptions) {
    && (match options.condition
        case Some(IfDeq(n)) => 0 <= n <= U64_MAX
        case Some(IfDne(n)) => 0 <= n <= U64_MAX
        case _ => true)
    && (match options.expiry
        case Some(Ex(n)) => n <= U64_MAX
        case Some(Px(n)) => n <= U64_MAX
        case Some(ExAt(n)) => n <= U64_MAX
        case Some(PxAt(n)) => n <= U64_MAX
        case _ => true)
  }

  lemma ScanOneFits(tokens: seq<Bytes>, acc: SetOptions)
    requires tokens != [] && OptionsFit(acc) && ScanOne(tokens, acc).Parsed?
    ensures OptionsFit(ScanOne(tokens, acc).value.0)
  {
  }

  lemma {:induction false} ScanOptionsFit(tokens: seq<Bytes>, acc: SetOptions)
    requires OptionsFit(acc) && ScanOptions(tokens, acc).Parsed?
    ensures OptionsFit(ScanOptions(tokens, acc).value)
    decreases |tokens|
  {
    if tokens != [] {
      ScanOneFits(tokens, acc);
      var next := ScanOne(tokens, acc).value;
      ScanOptionsFit(tokens[next.1..], next.0);
    }
  }

  lemma SetWellFormed(args: seq<Bytes>)
    ensures Fine(ParseSet(args), args)
  {
    if ParseSet(args).Parsed? {
      ScanOptionsFit(args[3..], NO_OPTIONS);
    }
  }

  /** A relative deadline is set on the key the client named. */
  predicate RelativeOn(c: Command, args: seq<Bytes>) {
    match c
    case Expire(key, _) => |args| == 3 && key == args[1]
    case PExpire(key, _) => |args| == 3 && key == args[1]
    case _ => true
  }

  predicate Fine(r: ParseResult<Command>, args: seq<Bytes>) {
    r.Parsed? ==> WellFormed(r.value) && RelativeOn(r.value, args)
  }

  lemma ParsedWellFormed(args: seq<Bytes>)
    requires args != []
    ensures Fine(ParseArguments(args), args)
  {
    SetWellFormed(args);
    ParsedServerWellFormed(args);
  }

  lemma ParsedServerWellFormed(args: seq<Bytes>)
    requires args != []
    ensures Fine(ParseServerArguments(args), args)
  {
    ParsedListWellFormed(args);
  }

  lemma ParsedListWellFormed(args: seq<Bytes>)
    requires args != []
    ensures Fine(ParseListArguments(args), args)
  {
    ParsedSetWellFormed(args);
  }

  lemma ParsedSetWellFormed(args: seq<Bytes>)
    requires args != []
    ensures Fine(ParseSetArguments(args), args)
  {
    ParsedExpiryWellFormed(args);
  }

  lemma ParsedExpiryWellFormed(args: seq<Bytes>)
    requires args != []
    ensures Fine(ParseExpiryArguments(args), args)
  {
  }

  /** The strings a command may store. */
  function StoredBy(c: Command): seq<Bytes> {
    match c
    case Set(_, value, _) => [value]
    case MSet(items) => seq(|items|, i requires 0 <= i < |items| => items[i].1)
    case _ => []
  }

  lemma {:induction false} PairsFromArguments(args: seq<Bytes>, i: nat)
    requires i < |Pairs(args)|
    ensures Pairs(args)[i].0 in args && Pairs(args)[i].1 in args
  {
    if i > 0 {
      PairsFromArguments(args[2..], i - 1);
    }
  }

  /** Whatever string a parsed command stores, the client sent it. */
  lemma StoredFromArguments(args: seq<Bytes>, s: Bytes)
    requires args != [] && ParseArguments(args).Parsed? && s in StoredBy(ParseArguments(args).value)
    ensures s in args
  {
    StoresNoString(args);
    if args[0] == "MSET" {
      var i :| 0 <= i < |Pairs(args[1..])| && Pairs(args[1..])[i].1 == s;
      PairsFromArguments(args[1..], i);
    }
  }

  predicate NoString(r: ParseResult<Command>) {
    r.Parsed? ==> !r.value.Set? && !r.value.MSet?
  }

  lemma StoresNoString(args: seq<Bytes>)
    requires args != []
    ensures NoString(ParseServerArguments(args))
  {
    ListStoresNoString(args);
  }

  lemma ListStoresNoString(args: seq<Bytes>)
    requires args != []
    ensures NoString(ParseListArguments(args))
  {
    SetStoresNoString(args);
  }

  lemma SetStoresNoString(args: seq<Bytes>)
    requires args != []
    ensures NoString(ParseSetArguments(args))
  {
    assert NoString(ParseExpiryArguments(args));
  }

  const PEXPIREAT: Bytes := "PEXPIREAT"

  lemma NameIsUtf8()
    ensures Utf8(PEXPIREAT)
  {
    forall i | 0 <= i < |PEXPIREAT| ensures 'A' <= PEXPIREAT[i] <= 'Z' {
    }
    AsciiIsUtf8(PEXPIREAT);
  }

  /** The entry the log writes for a relative deadline is parsed as the absolute one. */
  lemma ParsePExpireAt(key: Bytes, deadline: nat)
    requires deadline <= U64_MAX
    ensures ParseArguments([PEXPIREAT, key, DecimalText(deadline)]) == Parsed(PExpireAt(key, deadline))
  {
    ParseU64OfText(deadline);
  }
}
