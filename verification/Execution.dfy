/** What every command does to the store, and what it replies. */
module Execution {
  import opened Bytes
  import opened Decimal
  import opened Resp2
  import opened Database
  import C = Command
  import Pattern

  const MILLISECOND: nat := 1_000_000
  const SECOND: nat := 1_000_000_000

  /** First time an `Instant` cannot hold: its seconds are an `i64`. */
  const INSTANT_LIMIT: nat := 0x8000_0000_0000_0000 * SECOND

  /**
   * What a command takes from outside: one clock reading, the digest function, and the random sampler,
   * which draws a subset of the given size from a set.
   */
  datatype Env = Env(now: Time, digest: Bytes -> int, draw: (set<Bytes>, nat) -> set<Bytes>)

  ghost predicate ValidSampler(draw: (set<Bytes>, nat) -> set<Bytes>) {
    forall s, n :: draw(s, n) <= s && |draw(s, n)| == Min(n, |s|)
  }

  /**
   * A reply. An array whose order the source leaves open is kept as the set of its members, and a random
   * sample as what it was sampled from. `Panics` is a command that brings its handler down.
   */
  datatype Reply =
    | Value(value: RespValue)
    | Members(members: set<Bytes>)
    | OneOf(members: set<Bytes>)
    | Sample(pool: set<Bytes>, count: Option<int>)
    | Panics

  datatype Outcome = Outcome(db: Db, reply: Reply)

  const OK := Value(SimpleString("OK"))

  /** Error replies; their wording is shortened. */
  function ErrorReply(e: StoreError): Reply {
    match e
    case WrongType => Value(SimpleError("WRONGTYPE"))
    case OutOfIndex => Value(SimpleError("ERR index"))
    case NoSuchKey => Value(SimpleError("ERR key"))
  }

  function Number(n: int): Reply {
    Value(Integer(n))
  }

  function Flag(b: bool): Reply {
    Number(if b then 1 else 0)
  }

  function NumberReply(r: Result<nat>): Reply {
    if r.Success? then Number(r.value) else ErrorReply(r.error)
  }

  function Bulk(s: Option<Bytes>): RespValue {
    if s.Some? then BulkString(s.value) else NullBulkString
  }

  function BulkArray(s: seq<Bytes>): RespValue {
    Array(seq(|s|, i requires 0 <= i < |s| => BulkString(s[i])))
  }

  // ----- Deadlines -----

  /** The instant of a Unix time given in `unit`s, counted from now. */
  function UnixToInstant(deadline: nat, now: Time, unit: nat): Time
    requires unit > 0
  {
    var elapsed := now / unit;
    now + (if deadline > elapsed then deadline - elapsed else 0) * unit
  }

  function ExpireIn(db: Db, key: Key, now: Time, delay: nat): Outcome {
    if now + delay >= INSTANT_LIMIT
    then Outcome(db, Value(SimpleError("ERR expire")))
    else Outcome(SetTtl(db, key, now + delay), Flag(key in db.data))
  }

  /** A deadline already past deletes the key, and still replies 0. */
  function ExpireAtUnix(db: Db, key: Key, now: Time, deadline: nat, unit: nat): Outcome
    requires unit > 0
  {
    if deadline <= now / unit then Outcome(Remove(db, {key}), Number(0))
    else if UnixToInstant(deadline, now, unit) >= INSTANT_LIMIT then Outcome(db, Panics)
    else Outcome(SetTtl(db, key, UnixToInstant(deadline, now, unit)), Flag(key in db.data))
  }

  function WrapI64(n: int): int {
    (n - I64_MIN) % 0x1_0000_0000_0000_0000 + I64_MIN
  }

  /** TTL, PTTL, EXPIRETIME and PEXPIRETIME: the physical deadline, from `origin`, in `unit`s. */
  function ResolveExpiry(db: Db, key: Key, now: Time, origin: int, unit: nat): Reply
    requires unit > 0
  {
    if key in db.expiry then
      if db.expiry[key] >= now then Number(WrapI64(origin + (db.expiry[key] - now) / unit)) else Number(-2)
    else Number(if Live(db, key, now) then -1 else -2)
  }

  // ----- SET -----

  predicate ConditionMet(condition: Option<C.SetCondition>, prev: Option<Bytes>, digest: Bytes -> int) {
    match condition
    case None => true
    case Some(NX) => prev.None?
    case Some(XX) => prev.Some?
    case Some(IfEq(s)) => prev.Some? && prev.value == s
    case Some(IfNe(s)) => prev.Some? && prev.value != s
    case Some(IfDeq(n)) => prev.Some? && digest(prev.value) == n
    case Some(IfDne(n)) => prev.Some? && digest(prev.value) != n
  }

  datatype NewDeadline = Never | At(time: Time) | Invalid | Overflow

  /** A delay counted from now, as EX and PX do. */
  function After(delay: nat, now: Time): NewDeadline {
    if now + delay >= INSTANT_LIMIT then Invalid else At(now + delay)
  }

  /** A Unix time, as EXAT and PXAT take it. */
  function AtUnix(n: nat, now: Time, unit: nat): NewDeadline
    requires unit > 0
  {
    if UnixToInstant(n, now, unit) >= INSTANT_LIMIT then Overflow else At(UnixToInstant(n, now, unit))
  }

  function DeadlineFor(expiry: Option<C.SetExpiry>, prev: Option<Time>, now: Time): NewDeadline {
    match expiry
    case None => Never
    case Some(Ex(n)) => After(n * SECOND, now)
    case Some(Px(n)) => After(n * MILLISECOND, now)
    case Some(ExAt(n)) => AtUnix(n, now, SECOND)
    case Some(PxAt(n)) => AtUnix(n, now, MILLISECOND)
    case Some(KeepTtl) => if prev.Some? then At(prev.value) else Never
  }

  function PrevTtl(db: Db, key: Key): Option<Time> {
    if key in db.expiry then Some(db.expiry[key]) else None
  }

  function ExecSet(db: Db, key: Key, value: Bytes, options: C.SetOptions, env: Env): Outcome {
    match GetString(db, key, env.now)
    case Failure(e) => Outcome(db, ErrorReply(e))
    case Success(prev) =>
      if !ConditionMet(options.condition, prev, env.digest)
      then Outcome(db, Value(if options.get then Bulk(prev) else NullBulkString))
      else
        var written := Put(db, key, Str(value));
        var reply := if options.get then Value(Bulk(prev)) else OK;
        match DeadlineFor(options.expiry, PrevTtl(db, key), env.now)
        case Never => Outcome(written, reply)
        case At(t) => Outcome(SetTtl(written, key, t), reply)
        case Invalid => Outcome(written, Value(SimpleError("ERR expire")))
        case Overflow => Outcome(written, Panics)
  }

  // ----- Strings and keys -----

  function ExecGet(db: Db, key: Key, now: Time): Reply {
    match GetString(db, key, now)
    case Success(s) => Value(Bulk(s))
    case Failure(e) => ErrorReply(e)
  }

  /** A key of another type is removed all the same. */
  function ExecGetDel(db: Db, key: Key, now: Time): Outcome {
    Outcome(Database.GetDel(db, key, now), ExecGet(db, key, now))
  }

  function ExecStrLen(db: Db, key: Key, now: Time): Reply {
    match GetString(db, key, now)
    case Success(s) => Number(if s.Some? then |s.value| else 0)
    case Failure(e) => ErrorReply(e)
  }

  function ExecDigest(db: Db, key: Key, env: Env): Reply {
    match GetString(db, key, env.now)
    case Success(None) => Value(NullBulkString)
    case Success(Some(s)) => Value(BulkString(HexText(env.digest(s) % 0x1_0000_0000_0000_0000, 16)))
    case Failure(e) => ErrorReply(e)
  }

  function ExecDelete(db: Db, keys: seq<Key>): Outcome {
    Outcome(Remove(db, ToSet(keys)), Number(|ToSet(keys) * db.data.Keys|))
  }

  function CountLive(db: Db, keys: seq<Key>, now: Time): nat {
    if keys == [] then 0
    else CountLive(db, keys[..|keys| - 1], now) + if Live(db, keys[|keys| - 1], now) then 1 else 0
  }

  function ExecMGet(db: Db, keys: seq<Key>, now: Time): Reply {
    var values := Database.MGet(db, keys, now);
    Value(Array(seq(|values|, i requires 0 <= i < |values| => Bulk(values[i]))))
  }

  ghost function MatchingKeys(db: Db, pattern: Bytes, now: Time): set<Key> {
    set k | k in db.data && Live(db, k, now) && (pattern == "*" || Pattern.GlobMatch(k, pattern))
  }

  // ----- Lists -----

  function PushAll(db: Db, key: Key, elements: seq<Bytes>, create: bool, end: End, now: Time): (Db, Result<nat>) {
    if elements == [] then (db, Success(0))
    else
      var (db', r) := PushAll(db, key, elements[..|elements| - 1], create, end, now);
      if r.Failure? then (db', r) else Push(db', key, elements[|elements| - 1], create, end, now)
  }

  function ExecPush(db: Db, key: Key, elements: seq<Bytes>, create: bool, end: End, now: Time): Outcome {
    var (db', r) := PushAll(db, key, elements, create, end, now);
    Outcome(db', NumberReply(r))
  }

  function PopReply(r: Result<Option<seq<Bytes>>>, single: bool): Reply {
    match r
    case Failure(e) => ErrorReply(e)
    case Success(None) => Value(NullBulkString)
    case Success(Some(popped)) =>
      Value(if !single then BulkArray(popped) else if popped == [] then NullBulkString else BulkString(popped[0]))
  }

  function CountOr1(count: Option<nat>): nat {
    if count.Some? then count.value else 1
  }

  function ExecPop(db: Db, key: Key, count: Option<nat>, end: End, now: Time): Outcome {
    var (db', r) := Pop(db, key, CountOr1(count), end, now);
    Outcome(db', PopReply(r, count.None?))
  }

  function ExecLSet(db: Db, key: Key, index: int, element: Bytes, now: Time): Outcome {
    var (db', r) := Database.LSet(db, key, index, element, now);
    Outcome(db', if r.Success? then OK else ErrorReply(r.error))
  }

  function ExecLIndex(db: Db, key: Key, index: int, now: Time): Reply {
    match Database.LIndex(db, key, index, now)
    case Success(x) => Value(Bulk(x))
    case Failure(e) => ErrorReply(e)
  }

  function ExecLRange(db: Db, key: Key, start: int, stop: int, now: Time): Reply {
    match Database.LRange(db, key, start, stop, now)
    case Success(xs) => Value(BulkArray(xs))
    case Failure(e) => ErrorReply(e)
  }

  // ----- Sets -----

  function ExecSAdd(db: Db, key: Key, members: seq<Bytes>, now: Time): Outcome {
    var (db', r) := Database.SAdd(db, key, members, now);
    Outcome(db', NumberReply(r))
  }

  function ExecSRem(db: Db, key: Key, members: seq<Bytes>, now: Time): Outcome {
    var (db', r) := Database.SRem(db, key, members, now);
    Outcome(db', NumberReply(r))
  }

  function ExecSMove(db: Db, source: Key, destination: Key, member: Bytes, now: Time): Outcome {
    var (db', r) := Database.SMove(db, source, destination, member, now);
    Outcome(db', if r.Success? then Flag(r.value) else ErrorReply(r.error))
  }

  function PopMembersReply(r: Result<Option<set<Bytes>>>, single: bool): Reply {
    match r
    case Failure(e) => ErrorReply(e)
    case Success(None) => if single then Value(NullBulkString) else Members({})
    case Success(Some(popped)) =>
      if !single then Members(popped) else if popped == {} then Value(NullBulkString) else OneOf(popped)
  }

  function ExecSPop(db: Db, key: Key, count: Option<nat>, env: Env): Outcome {
    var (db', r) := Database.SPop(db, key, Drawn(db, key, env.draw, CountOr1(count), env.now), env.now);
    Outcome(db', PopMembersReply(r, count.None?))
  }

  function ExecSMembers(db: Db, key: Key, now: Time): Reply {
    match Database.SMembers(db, key, now)
    case Success(s) => Members(s)
    case Failure(e) => ErrorReply(e)
  }

  function ExecSIsMember(db: Db, key: Key, member: Bytes, now: Time): Reply {
    match Database.SMembers(db, key, now)
    case Success(s) => Flag(member in s)
    case Failure(e) => ErrorReply(e)
  }

  function ExecSMIsMember(db: Db, key: Key, members: seq<Bytes>, now: Time): Reply {
    match Database.SMembers(db, key, now)
    case Success(s) =>
      Value(Array(seq(|members|, i requires 0 <= i < |members| => Integer(if members[i] in s then 1 else 0))))
    case Failure(e) => ErrorReply(e)
  }

  function ExecSCard(db: Db, key: Key, now: Time): Reply {
    match Database.SMembers(db, key, now)
    case Success(s) => Number(|s|)
    case Failure(e) => ErrorReply(e)
  }

  function ExecSRandMember(db: Db, key: Key, count: Option<int>, now: Time): Reply {
    match Database.SMembers(db, key, now)
    case Success(s) => Sample(s, count)
    case Failure(e) => ErrorReply(e)
  }

  // ----- Dispatch -----

  /** Commands that leave the store as it is. */
  predicate IsRead(c: C.Command) {
    !C.IsWrite(c) && !c.LSet?
  }

  ghost function Exec(db: Db, c: C.Command, env: Env): Outcome {
    if IsRead(c) then Outcome(db, Query(db, c, env)) else Mutate(db, c, env)
  }

  ghost function Query(db: Db, c: C.Command, env: Env): Reply
    requires IsRead(c)
  {
    var now := env.now;
    match c
    case Ping(message) => Value(if message.Some? then BulkString(message.value) else SimpleString("PONG"))
    case Get(key) => ExecGet(db, key, now)
    case Exists(keys) => Number(CountLive(db, keys, now))
    case MGet(keys) => ExecMGet(db, keys, now)
    case StrLen(key) => ExecStrLen(db, key, now)
    case LLen(key) => NumberReply(Database.LLen(db, key, now))
    case LIndex(key, index) => ExecLIndex(db, key, index, now)
    case LRange(key, start, stop) => ExecLRange(db, key, start, stop, now)
    case SMembers(key) => ExecSMembers(db, key, now)
    case SIsMember(key, member) => ExecSIsMember(db, key, member, now)
    case SMIsMember(key, members) => ExecSMIsMember(db, key, members, now)
    case SRandMember(key, count) => ExecSRandMember(db, key, count, now)
    case SCard(key) => ExecSCard(db, key, now)
    case Ttl(key) => ResolveExpiry(db, key, now, 0, SECOND)
    case PTtl(key) => ResolveExpiry(db, key, now, 0, MILLISECOND)
    case ExpireTime(key) => ResolveExpiry(db, key, now, now / SECOND, SECOND)
    case PExpireTime(key) => ResolveExpiry(db, key, now, now / MILLISECOND, MILLISECOND)
    case Keys(pattern) => Members(MatchingKeys(db, pattern, now))
    case Digest(key) => ExecDigest(db, key, env)
    case Select(index) => if index != 0 then Value(SimpleError("ERR db")) else OK
    case DbSize => Number(|db.data|)
  }

  predicate IsListWrite(c: C.Command) {
    c.LPush? || c.RPush? || c.LPushX? || c.RPushX? || c.LPop? || c.RPop? || c.LSet?
  }

  predicate IsSetWrite(c: C.Command) {
    c.SAdd? || c.SRem? || c.SMove? || c.SPop?
  }

  predicate IsExpiryWrite(c: C.Command) {
    c.Persist? || c.Expire? || c.PExpire? || c.ExpireAt? || c.PExpireAt?
  }

  function Mutate(db: Db, c: C.Command, env: Env): Outcome
    requires !IsRead(c)
  {
    if IsListWrite(c) then MutateList(db, c, env.now)
    else if IsSetWrite(c) then MutateSet(db, c, env)
    else if IsExpiryWrite(c) then MutateExpiry(db, c, env.now)
    else
      match c
      case Set(key, value, options) => ExecSet(db, key, value, options, env)
      case Delete(keys) => ExecDelete(db, keys)
      case GetDel(key) => ExecGetDel(db, key, env.now)
      case MSet(items) => Outcome(Database.MSet(db, items), OK)
      case FlushDb(_) => Outcome(EMPTY, OK)
  }

  function MutateList(db: Db, c: C.Command, now: Time): Outcome
    requires IsListWrite(c)
  {
    match c
    case LPush(key, es) => ExecPush(db, key, es, true, Front, now)
    case RPush(key, es) => ExecPush(db, key, es, true, Back, now)
    case LPushX(key, es) => ExecPush(db, key, es, false, Front, now)
    case RPushX(key, es) => ExecPush(db, key, es, false, Back, now)
    case LPop(key, count) => ExecPop(db, key, count, Front, now)
    case RPop(key, count) => ExecPop(db, key, count, Back, now)
    case LSet(key, index, element) => ExecLSet(db, key, index, element, now)
  }

  function MutateSet(db: Db, c: C.Command, env: Env): Outcome
    requires IsSetWrite(c)
  {
    match c
    case SAdd(key, members) => ExecSAdd(db, key, members, env.now)
    case SRem(key, members) => ExecSRem(db, key, members, env.now)
    case SMove(source, destination, member) => ExecSMove(db, source, destination, member, env.now)
    case SPop(key, count) => ExecSPop(db, key, count, env)
  }

  function MutateExpiry(db: Db, c: C.Command, now: Time): Outcome
    requires IsExpiryWrite(c)
  {
    match c
    case Persist(key) => Outcome(db.(expiry := db.expiry - {key}), Flag(key in db.expiry))
    case Expire(key, n) => ExpireIn(db, key, now, n * SECOND)
    case PExpire(key, n) => ExpireIn(db, key, now, n * MILLISECOND)
    case ExpireAt(key, n) => ExpireAtUnix(db, key, now, n, SECOND)
    case PExpireAt(key, n) => ExpireAtUnix(db, key, now, n, MILLISECOND)
  }
}
