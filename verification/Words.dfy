/** The words of the protocol: how a client asks for each command, and that it is what the server understands. */
module Words {
  import opened Bytes
  import opened Decimal
  import opened Resp2
  import opened Resp2Streams
  import opened Command

  // ----- The words -----

  /** The word a client asks for a command with. */
  function Word(c: Command): Bytes {
    match c
    case Ping(_) => "PING"
    case Get(_) => "GET"
    case Set(_, _, _) => "SET"
    case Delete(_) => "DEL"
    case GetDel(_) => "GETDEL"
    case Exists(_) => "EXISTS"
    case MGet(_) => "MGET"
    case MSet(_) => "MSET"
    case StrLen(_) => "STRLEN"
    case Digest(_) => "DIGEST"
    case Keys(_) => "KEYS"
    case Select(_) => "SELECT"
    case DbSize => "DBSIZE"
    case FlushDb(_) => "FLUSHDB"
    case LPush(_, _) => "LPUSH"
    case RPush(_, _) => "RPUSH"
    case LPushX(_, _) => "LPUSHX"
    case RPushX(_, _) => "RPUSHX"
    case LPop(_, _) => "LPOP"
    case RPop(_, _) => "RPOP"
    case LSet(_, _, _) => "LSET"
    case LLen(_) => "LLEN"
    case LIndex(_, _) => "LINDEX"
    case LRange(_, _, _) => "LRANGE"
    case SAdd(_, _) => "SADD"
    case SMembers(_) => "SMEMBERS"
    case SIsMember(_, _) => "SISMEMBER"
    case SMIsMember(_, _) => "SMISMEMBER"
    case SRandMember(_, _) => "SRANDMEMBER"
    case SCard(_) => "SCARD"
    case SMove(_, _, _) => "SMOVE"
    case SPop(_, _) => "SPOP"
    case SRem(_, _) => "SREM"
    case Ttl(_) => "TTL"
    case PTtl(_) => "PTTL"
    case ExpireTime(_) => "EXPIRETIME"
    case PExpireTime(_) => "PEXPIRETIME"
    case Persist(_) => "PERSIST"
    case Expire(_, _) => "EXPIRE"
    case PExpire(_, _) => "PEXPIRE"
    case ExpireAt(_, _) => "EXPIREAT"
    case PExpireAt(_, _) => "PEXPIREAT"
  }

  predicate IsBasic(w: Bytes) {
    w == "PING" || w == "GET" || w == "SET" || w == "DEL" || w == "GETDEL" || w == "EXISTS" || w == "MGET" || w == "MSET"
    || w == "STRLEN"
  }

  predicate IsServer(w: Bytes) {
    w == "DIGEST" || w == "KEYS" || w == "SELECT" || w == "DBSIZE" || w == "FLUSHDB"
  }

  predicate IsList(w: Bytes) {
    w == "LPUSH" || w == "RPUSH" || w == "LPUSHX" || w == "RPUSHX" || w == "LPOP" || w == "RPOP" || w == "LSET" || w == "LLEN"
    || w == "LINDEX" || w == "LRANGE"
  }

  predicate IsSet(w: Bytes) {
    w == "SADD" || w == "SMEMBERS" || w == "SISMEMBER" || w == "SMISMEMBER" || w == "SRANDMEMBER" || w == "SCARD" || w == "SMOVE"
    || w == "SPOP" || w == "SREM"
  }

  // ----- Commands in words -----

  function Amount(count: Option<int>): seq<Bytes> {
    if count.Some? then [DecimalText(count.value)] else []
  }

  function ConditionWords(condition: Option<SetCondition>): seq<Bytes> {
    match condition
    case None => []
    case Some(NX) => ["NX"]
    case Some(XX) => ["XX"]
    case Some(IfEq(s)) => ["IFEQ", s]
    case Some(IfNe(s)) => ["IFNE", s]
    case Some(IfDeq(n)) => ["IFDEQ", if n < 0 then [] else HexText(n, 16)]
    case Some(IfDne(n)) => ["IFDNE", if n < 0 then [] else HexText(n, 16)]
  }

  function ExpiryWords(expiry: Option<SetExpiry>): seq<Bytes> {
    match expiry
    case None => []
    case Some(Ex(n)) => ["EX", DecimalText(n)]
    case Some(Px(n)) => ["PX", DecimalText(n)]
    case Some(ExAt(n)) => ["EXAT", DecimalText(n)]
    case Some(PxAt(n)) => ["PXAT", DecimalText(n)]
    case Some(KeepTtl) => ["KEEPTTL"]
  }

  function OptionWords(options: SetOptions): seq<Bytes> {
    ConditionWords(options.condition) + (ExpiryWords(options.expiry) + if options.get then ["GET"] else [])
  }

  function PairWords(items: seq<(Bytes, Bytes)>): seq<Bytes> {
    if items == [] then [] else [items[0].0, items[0].1] + PairWords(items[1..])
  }

  /** What follows the word. */
  function Operands(c: Command): seq<Bytes> {
    match c
    case Ping(message) => if message.Some? then [message.value] else []
    case Set(key, value, options) => [key, value] + OptionWords(options)
    case Delete(keys) => keys
    case Exists(keys) => keys
    case MGet(keys) => keys
    case MSet(items) => PairWords(items)
    case Keys(pattern) => [pattern]
    case Select(n) => [DecimalText(n)]
    case DbSize => []
    case FlushDb(mode) => if mode.None? then [] else [if mode.value.Sync? then "SYNC" else "ASYNC"]
    case LPush(key, elements) => [key] + elements
    case RPush(key, elements) => [key] + elements
    case LPushX(key, elements) => [key] + elements
    case RPushX(key, elements) => [key] + elements
    case LPop(key, count) => [key] + Amount(count)
    case RPop(key, count) => [key] + Amount(count)
    case LSet(key, index, element) => [key, DecimalText(index), element]
    case LIndex(key, index) => [key, DecimalText(index)]
    case LRange(key, start, stop) => [key, DecimalText(start), DecimalText(stop)]
    case SAdd(key, members) => [key] + members
    case SIsMember(key, member) => [key, member]
    case SMIsMember(key, members) => [key] + members
    case SRandMember(key, sample) => [key] + Amount(sample)
    case SMove(source, destination, member) => [source, destination, member]
    case SPop(key, count) => [key] + Amount(count)
    case SRem(key, members) => [key] + members
    case Expire(key, n) => [key, DecimalText(n)]
    case PExpire(key, n) => [key, DecimalText(n)]
    case ExpireAt(key, n) => [key, DecimalText(n)]
    case PExpireAt(key, n) => [key, DecimalText(n)]
    case Get(key) => [key]
    case GetDel(key) => [key]
    case StrLen(key) => [key]
    case Digest(key) => [key]
    case LLen(key) => [key]
    case SMembers(key) => [key]
    case SCard(key) => [key]
    case Ttl(key) => [key]
    case PTtl(key) => [key]
    case ExpireTime(key) => [key]
    case PExpireTime(key) => [key]
    case Persist(key) => [key]
  }

  /** A command as a client asks for it. */
  function Saying(c: Command): (args: seq<Bytes>)
    ensures args != []
  {
    [Word(c)] + Operands(c)
  }

  predicate IsCount(count: Option<nat>) {
    count.Some? ==> count.value <= U64_MAX
  }

  predicate IsIndex(n: int) {
    I64_MIN <= n <= I64_MAX
  }

  /** The commands there are: something to add or to ask for, and numbers of the width the server reads. */
  predicate Sayable(c: Command) {
    WellFormed(c) && match c
    case Delete(keys) => keys != []
    case Exists(keys) => keys != []
    case MGet(keys) => keys != []
    case MSet(items) => items != []
    case SMIsMember(_, members) => members != []
    case Select(n) => n <= 255
    case LPop(_, count) => IsCount(count)
    case RPop(_, count) => IsCount(count)
    case SPop(_, count) => IsCount(count)
    case LSet(_, index, _) => IsIndex(index)
    case LIndex(_, index) => IsIndex(index)
    case LRange(_, start, stop) => IsIndex(start) && IsIndex(stop)
    case SRandMember(_, sample) => sample.Some? ==> IsIndex(sample.value)
    case _ => true
  }

  // ----- The server understands them -----

  lemma ParseRequest(args: seq<Bytes>)
    requires args != []
    ensures FromResp2(Request(args)) == ParseArguments(args)
  {
    var got := Arguments(Request(args)).value;
    forall i | 0 <= i < |args| ensures got[i] == args[i] {
      assert Request(args).items[i] == BulkString(args[i]);
    }
    assert got == args;
  }

  lemma OfServer(args: seq<Bytes>)
    requires args != [] && !IsBasic(args[0])
    ensures ParseArguments(args) == ParseServerArguments(args)
  {
  }

  lemma OfList(args: seq<Bytes>)
    requires args != [] && !IsBasic(args[0]) && !IsServer(args[0])
    ensures ParseArguments(args) == ParseListArguments(args)
  {
  }

  lemma OfSet(args: seq<Bytes>)
    requires args != [] && !IsBasic(args[0]) && !IsServer(args[0]) && !IsList(args[0])
    ensures ParseArguments(args) == ParseSetArguments(args)
  {
  }

  lemma OfExpiry(args: seq<Bytes>)
    requires args != [] && !IsBasic(args[0]) && !IsServer(args[0]) && !IsList(args[0]) && !IsSet(args[0])
    ensures ParseArguments(args) == ParseExpiryArguments(args)
  {
  }

  lemma ListWordsApart(w: Bytes)
    requires IsList(w)
    ensures !IsServer(w)
  {
  }

  lemma SetWordsNotList(w: Bytes)
    requires IsSet(w)
    ensures !IsList(w)
  {
  }

  // Commands with a key and no more, and with more.

  lemma ReadsSaid(c: Command)
    requires Sayable(c) && (c.Get? || c.GetDel? || c.StrLen? || c.Ping?)
    ensures ParseArguments(Saying(c)) == Parsed(c)
  {
  }

  lemma KeysSaid(c: Command)
    requires Sayable(c) && (c.Delete? || c.Exists? || c.MGet?)
    ensures ParseArguments(Saying(c)) == Parsed(c)
  {
    assert Saying(c)[1..] == Operands(c);
  }

  lemma {:induction false} PairsOfWords(items: seq<(Bytes, Bytes)>)
    ensures Pairs(PairWords(items)) == items && |PairWords(items)| == 2 * |items|
  {
    if items != [] {
      PairsOfWords(items[1..]);
      assert PairWords(items)[2..] == PairWords(items[1..]);
    }
  }

  lemma MSetSaid(c: Command)
    requires Sayable(c) && c.MSet?
    ensures ParseArguments(Saying(c)) == Parsed(c)
  {
    PairsOfWords(c.items);
    assert Saying(c)[1..] == PairWords(c.items);
  }

  lemma ServerSaid(c: Command)
    requires Sayable(c) && (c.Digest? || c.Keys? || c.DbSize? || c.FlushDb?)
    ensures ParseServerArguments(Saying(c)) == Parsed(c)
  {
  }

  lemma SelectSaid(c: Command)
    requires Sayable(c) && c.Select?
    ensures ParseServerArguments(Saying(c)) == Parsed(c)
  {
    DigitsValue(c.db);
    ParseUnsigned(Digits(c.db), 0, 255);
  }

  lemma PushSaid(c: Command)
    requires Sayable(c) && (c.LPush? || c.RPush? || c.LPushX? || c.RPushX?)
    ensures ParseListArguments(Saying(c)) == Parsed(c)
  {
    match c
    case LPush(key, elements) => WithKey("LPUSH", key, elements);
    case RPush(key, elements) => WithKey("RPUSH", key, elements);
    case LPushX(key, elements) => WithKey("LPUSHX", key, elements);
    case RPushX(key, elements) => WithKey("RPUSHX", key, elements);
  }

  lemma AmountRead(count: Option<int>)
    ensures count.Some? && 0 <= count.value <= U64_MAX ==> ParseU64(Amount(count)[0]) == count
    ensures count.Some? && IsIndex(count.value) ==> ParseI64(Amount(count)[0]) == count
  {
    if count.Some? && 0 <= count.value <= U64_MAX {
      ParseU64OfText(count.value);
    }
    if count.Some? && IsIndex(count.value) {
      ParseI64OfText(count.value);
    }
  }

  lemma ListPopSaid(c: Command)
    requires Sayable(c) && (c.LPop? || c.RPop?)
    ensures ParseListArguments(Saying(c)) == Parsed(c)
  {
    AmountRead(c.count);
  }

  lemma IndexSaid(c: Command)
    requires Sayable(c) && (c.LSet? || c.LIndex? || c.LRange? || c.LLen?)
    ensures ParseListArguments(Saying(c)) == Parsed(c)
  {
    match c
    case LSet(_, index, _) => ParseI64OfText(index);
    case LIndex(_, index) => ParseI64OfText(index);
    case LRange(_, start, stop) =>
      ParseI64OfText(start);
      ParseI64OfText(stop);
    case LLen(_) =>
  }

  lemma MembersSaid(c: Command)
    requires Sayable(c) && (c.SAdd? || c.SRem? || c.SMIsMember?)
    ensures ParseSetArguments(Saying(c)) == Parsed(c)
  {
    match c
    case SAdd(key, members) => WithKey("SADD", key, members);
    case SRem(key, members) => WithKey("SREM", key, members);
    case SMIsMember(key, members) => WithKey("SMISMEMBER", key, members);
  }

  lemma WithKey(word: Bytes, key: Bytes, more: seq<Bytes>)
    ensures var args := [word] + ([key] + more); |args| == 2 + |more| && args[0] == word && args[1] == key && args[2..] == more
  {
  }

  lemma SetReadsSaid(c: Command)
    requires Sayable(c) && (c.SMembers? || c.SIsMember? || c.SCard? || c.SMove?)
    ensures ParseSetArguments(Saying(c)) == Parsed(c)
  {
  }

  lemma SetAmountSaid(c: Command)
    requires Sayable(c) && (c.SPop? || c.SRandMember?)
    ensures ParseSetArguments(Saying(c)) == Parsed(c)
  {
    match c
    case SPop(_, count) => AmountRead(count);
    case SRandMember(_, sample) => AmountRead(sample);
  }

  lemma DeadlineSaid(c: Command)
    requires Sayable(c) && (c.Expire? || c.PExpire? || c.ExpireAt? || c.PExpireAt?)
    ensures ParseExpiryArguments(Saying(c)) == Parsed(c)
  {
    match c
    case Expire(_, n) => ParseU64OfText(n);
    case PExpire(_, n) => ParseU64OfText(n);
    case ExpireAt(_, n) => ParseU64OfText(n);
    case PExpireAt(_, n) => ParseU64OfText(n);
  }

  lemma TimeSaid(c: Command)
    requires Sayable(c) && (c.Ttl? || c.PTtl? || c.ExpireTime? || c.PExpireTime? || c.Persist?)
    ensures ParseExpiryArguments(Saying(c)) == Parsed(c)
  {
  }

  // SET reads its options one by one.

  lemma ConditionRead(condition: SetCondition, tokens: seq<Bytes>)
    requires OptionsFit(SetOptions(Some(condition), None, false)) && ConditionWords(Some(condition)) <= tokens
    ensures IsConditionWord(tokens[0]) && tokens[0] != "GET"
    ensures ReadCondition(tokens) == Parsed((condition, |ConditionWords(Some(condition))|))
  {
    var words := ConditionWords(Some(condition));
    assert tokens[0] == words[0] && (|words| > 1 ==> tokens[1] == words[1]);
    match condition
    case IfDeq(n) => ParseHexOfText(n);
    case IfDne(n) => ParseHexOfText(n);
    case _ =>
  }

  lemma ScanCondition(condition: Option<SetCondition>, rest: seq<Bytes>)
    requires OptionsFit(SetOptions(condition, None, false))
    ensures ScanOptions(ConditionWords(condition) + rest, NO_OPTIONS) == ScanOptions(rest, NO_OPTIONS.(condition := condition))
  {
    var words := ConditionWords(condition);
    var tokens := words + rest;
    assert tokens[|words|..] == rest;
    if condition.Some? {
      ConditionRead(condition.value, tokens);
    } else {
      assert tokens == rest;
    }
  }

  lemma ExpiryRead(expiry: SetExpiry, tokens: seq<Bytes>)
    requires OptionsFit(SetOptions(None, Some(expiry), false)) && ExpiryWords(Some(expiry)) <= tokens
    ensures IsExpiryWord(tokens[0]) && !IsConditionWord(tokens[0]) && tokens[0] != "GET"
    ensures ReadExpiry(tokens) == Parsed((expiry, |ExpiryWords(Some(expiry))|))
  {
    var words := ExpiryWords(Some(expiry));
    assert tokens[0] == words[0] && (|words| > 1 ==> tokens[1] == words[1]);
    match expiry
    case Ex(n) => ParseU64OfText(n);
    case Px(n) => ParseU64OfText(n);
    case ExAt(n) => ParseU64OfText(n);
    case PxAt(n) => ParseU64OfText(n);
    case KeepTtl =>
  }

  lemma ScanExpiry(expiry: Option<SetExpiry>, rest: seq<Bytes>, acc: SetOptions)
    requires OptionsFit(SetOptions(None, expiry, false)) && acc.expiry.None?
    ensures ScanOptions(ExpiryWords(expiry) + rest, acc) == ScanOptions(rest, acc.(expiry := expiry))
  {
    var words := ExpiryWords(expiry);
    var tokens := words + rest;
    assert tokens[|words|..] == rest;
    if expiry.Some? {
      ExpiryRead(expiry.value, tokens);
    } else {
      assert tokens == rest;
    }
  }

  lemma ScanGet(acc: SetOptions, get: bool)
    requires !acc.get
    ensures ScanOptions(if get then ["GET"] else [], acc) == Parsed(acc.(get := get))
  {
    assert ["GET"][1..] == [];
  }

  lemma SetSaid(key: Bytes, value: Bytes, options: SetOptions)
    requires OptionsFit(options)
    ensures ParseSet(Saying(Set(key, value, options))) == Parsed(Set(key, value, options))
  {
    OptionsSaid(options);
    SetOperands(Saying(Set(key, value, options)), key, value, OptionWords(options));
  }

  lemma SetWords(key: Bytes, value: Bytes, options: SetOptions)
    ensures Saying(Set(key, value, options)) == ["SET", key, value] + OptionWords(options)
  {
  }

  lemma OptionsSaid(options: SetOptions)
    requires OptionsFit(options)
    ensures ScanOptions(OptionWords(options), NO_OPTIONS) == Parsed(options)
  {
    var SetOptions(condition, expiry, get) := options;
    var last := if get then ["GET"] else [];
    ScanCondition(condition, ExpiryWords(expiry) + last);
    ScanExpiry(expiry, last, NO_OPTIONS.(condition := condition));
    ScanGet(SetOptions(condition, expiry, false), get);
  }

  lemma SetOperands(args: seq<Bytes>, key: Bytes, value: Bytes, tokens: seq<Bytes>)
    requires args == ["SET"] + ([key, value] + tokens) && ScanOptions(tokens, NO_OPTIONS).Parsed?
    ensures ParseSet(args) == Parsed(Set(key, value, ScanOptions(tokens, NO_OPTIONS).value))
  {
    assert args[3..] == tokens && args[1] == key && args[2] == value;
  }

  /** Everything a client can ask for is understood as what it is. */
  lemma Understood(c: Command)
    requires Sayable(c)
    ensures FromResp2(Request(Saying(c))) == Parsed(c)
  {
    ParseRequest(Saying(c));
    if IsBasic(Word(c)) {
      BasicSaid(c);
    } else {
      OthersSaid(c);
    }
  }

  lemma BasicSaid(c: Command)
    requires Sayable(c) && IsBasic(Word(c))
    ensures ParseArguments(Saying(c)) == Parsed(c)
  {
    if c.Set? {
      SetSaid(c.key, c.value, c.options);
    } else if c.MSet? {
      MSetSaid(c);
    } else if c.Delete? || c.Exists? || c.MGet? {
      KeysSaid(c);
    } else {
      ReadsSaid(c);
    }
  }

  lemma OthersSaid(c: Command)
    requires Sayable(c) && !IsBasic(Word(c))
    ensures ParseArguments(Saying(c)) == Parsed(c)
  {
    var w := Word(c);
    if IsServer(w) {
      OfServer(Saying(c));
      ServerGroupSaid(c);
    } else if IsList(w) {
      ListWordsApart(w);
      OfList(Saying(c));
      ListGroupSaid(c);
    } else if IsSet(w) {
      SetWordsNotList(w);
      OfSet(Saying(c));
      SetGroupSaid(c);
    } else {
      OfExpiry(Saying(c));
      ExpiryGroupSaid(c);
    }
  }

  lemma ServerGroupSaid(c: Command)
    requires Sayable(c) && IsServer(Word(c))
    ensures ParseServerArguments(Saying(c)) == Parsed(c)
  {
    if c.Select? {
      SelectSaid(c);
    } else {
      ServerSaid(c);
    }
  }

  lemma ListGroupSaid(c: Command)
    requires Sayable(c) && IsList(Word(c))
    ensures ParseListArguments(Saying(c)) == Parsed(c)
  {
    if c.LPop? || c.RPop? {
      ListPopSaid(c);
    } else if c.LSet? || c.LIndex? || c.LRange? || c.LLen? {
      IndexSaid(c);
    } else {
      PushSaid(c);
    }
  }

  lemma SetGroupSaid(c: Command)
    requires Sayable(c) && IsSet(Word(c))
    ensures ParseSetArguments(Saying(c)) == Parsed(c)
  {
    if c.SPop? || c.SRandMember? {
      SetAmountSaid(c);
    } else if c.SAdd? || c.SRem? || c.SMIsMember? {
      MembersSaid(c);
    } else {
      SetReadsSaid(c);
    }
  }

  lemma ExpiryGroupSaid(c: Command)
    requires Sayable(c) && !IsBasic(Word(c)) && !IsServer(Word(c)) && !IsList(Word(c)) && !IsSet(Word(c))
    ensures ParseExpiryArguments(Saying(c)) == Parsed(c)
  {
    if c.Expire? || c.PExpire? || c.ExpireAt? || c.PExpireAt? {
      DeadlineSaid(c);
    } else {
      TimeSaid(c);
    }
  }

  // ----- And nothing else -----

  /** How many arguments each word takes, its own included. */
  predicate TakesAsMany(w: Bytes, n: nat) {
    if w == "PING" then true
    else if w == "DBSIZE" then n == 1
    else if w == "FLUSHDB" then n <= 2
    else if w == "MSET" then n >= 3 && n % 2 == 1
    else if w == "DEL" || w == "EXISTS" || w == "MGET" || w == "LPOP" || w == "RPOP" || w == "SPOP" || w == "SRANDMEMBER" then n >= 2
    else if w == "SET" || w == "LPUSH" || w == "RPUSH" || w == "LPUSHX" || w == "RPUSHX" || w == "SADD" || w == "SREM"
      || w == "SMISMEMBER" then n >= 3
    else if w == "LSET" || w == "LRANGE" || w == "SMOVE" then n == 4
    else if w == "LINDEX" || w == "SISMEMBER" || w == "EXPIRE" || w == "PEXPIRE" || w == "EXPIREAT" || w == "PEXPIREAT" then n == 3
    else n == 2
  }

  predicate IsDeadlineWord(w: Bytes) {
    w == "TTL" || w == "PTTL" || w == "EXPIRETIME" || w == "PEXPIRETIME" || w == "PERSIST" || w == "EXPIRE" || w == "PEXPIRE"
    || w == "EXPIREAT" || w == "PEXPIREAT"
  }

  /** With another number of arguments the request is rejected for just that. */
  predicate MindsArity(r: ParseResult<Command>, args: seq<Bytes>)
    requires args != []
  {
    !TakesAsMany(args[0], |args|) ==> r.Rejected? && r.error.WrongArity?
  }

  lemma BasicArity(args: seq<Bytes>)
    requires args != [] && IsBasic(args[0])
    ensures MindsArity(ParseArguments(args), args)
  {
  }

  lemma ServerArity(args: seq<Bytes>)
    requires args != [] && IsServer(args[0])
    ensures MindsArity(ParseServerArguments(args), args)
  {
  }

  lemma ListArity(args: seq<Bytes>)
    requires args != [] && IsList(args[0])
    ensures MindsArity(ParseListArguments(args), args)
  {
  }

  lemma SetArity(args: seq<Bytes>)
    requires args != [] && IsSet(args[0])
    ensures MindsArity(ParseSetArguments(args), args)
  {
  }

  lemma ExpiryArity(args: seq<Bytes>)
    requires args != [] && IsDeadlineWord(args[0])
    ensures MindsArity(ParseExpiryArguments(args), args)
  {
  }

  lemma UnknownExpiry(args: seq<Bytes>)
    requires args != [] && !IsDeadlineWord(args[0])
    ensures ParseExpiryArguments(args) == Rejected(UnknownCommand(args[0]))
  {
  }

  /** A known word with the wrong number of arguments is rejected for that, and an unknown word as unknown. */
  lemma NotUnderstood(args: seq<Bytes>)
    requires args != []
    ensures var r, w := FromResp2(Request(args)), args[0];
      if IsBasic(w) || IsServer(w) || IsList(w) || IsSet(w) || IsDeadlineWord(w) then MindsArity(r, args)
      else r == Rejected(UnknownCommand(w))
  {
    ParseRequest(args);
    var w := args[0];
    if IsBasic(w) {
      BasicArity(args);
    } else if IsServer(w) {
      OfServer(args);
      ServerArity(args);
    } else if IsList(w) {
      OfList(args);
      ListArity(args);
    } else if IsSet(w) {
      OfSet(args);
      SetArity(args);
    } else {
      OfExpiry(args);
      if IsDeadlineWord(w) {
        ExpiryArity(args);
      } else {
        UnknownExpiry(args);
      }
    }
  }
}
