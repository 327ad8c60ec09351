/** Replaying what was logged, command by command, rebuilds the store as the run left it. */
module RecoverySteps {
  import opened Bytes
  import opened Decimal
  import opened Database
  import opened Execution
  import opened Deadlines
  import opened Recovery
  import C = Command
  import L = Lists
  import Sets
  import Strings

  // ----- The relation between a run and its replay -----

  predicate IsUnit(unit: nat) {
    unit == MILLISECOND || unit == SECOND
  }

  predicate SameDeadline(a: Db, b: Db, key: Key, unit: nat)
    requires unit > 0
  {
    && (key in a.expiry <==> key in b.expiry)
    && (key in a.expiry ==> a.expiry[key] / unit == b.expiry[key] / unit)
  }

  /** The same data, and for every stored key the same deadline, to the unit. */
  ghost predicate Recovered(a: Db, b: Db, unit: nat)
    requires unit > 0
  {
    a.data == b.data && forall k :: k in a.data ==> SameDeadline(a, b, k, unit)
  }

  ghost predicate UnreachedAt(db: Db, key: Key, last: Time, unit: nat)
    requires unit > 0
  {
    key in db.expiry ==> db.expiry[key] / unit > last / unit
  }

  /** No stored key's deadline falls in the unit of `last` or earlier. */
  ghost predicate Unreached(db: Db, last: Time, unit: nat)
    requires unit > 0
  {
    forall k :: k in db.data ==> UnreachedAt(db, k, last, unit)
  }

  lemma RecoveredChain(a: Db, b: Db, c: Db, unit: nat)
    requires unit > 0 && Recovered(a, b, unit) && Recovered(a, c, unit)
    ensures Recovered(b, c, unit)
  {
    forall k | k in b.data ensures SameDeadline(b, c, k, unit) {
      assert SameDeadline(a, b, k, unit) && SameDeadline(a, c, k, unit);
    }
  }

  lemma StoredSameRecovered(a: Db, a': Db, b: Db, unit: nat)
    requires unit > 0 && Recovered(a, b, unit) && StoredSame(a, a')
    ensures Recovered(a', b, unit)
  {
    forall k | k in a'.data ensures SameDeadline(a', b, k, unit) {
      assert SameDeadline(a, b, k, unit) && PrevTtl(a, k) == PrevTtl(a', k);
    }
  }

  /** With no deadline reached, lookups see the physical data, in the run and in the replay alike. */
  lemma SameLookup(a: Db, b: Db, key: Key, t: Time, t': Time, last: Time, unit: nat)
    requires IsUnit(unit) && Recovered(a, b, unit) && Unreached(a, last, unit) && t <= last && t' <= last
    ensures Live(a, key, t) <==> key in a.data
    ensures Lookup(a, key, t) == Lookup(b, key, t')
  {
    if key in a.data {
      assert UnreachedAt(a, key, last, unit) && SameDeadline(a, b, key, unit);
    }
  }

  // ----- Store operations -----

  lemma PutRecovered(a: Db, b: Db, key: Key, value: StoreValue, unit: nat)
    requires unit > 0 && Recovered(a, b, unit)
    ensures Recovered(Put(a, key, value), Put(b, key, value), unit)
  {
    forall k | k in Put(a, key, value).data ensures SameDeadline(Put(a, key, value), Put(b, key, value), k, unit) {
      assert k != key ==> SameDeadline(a, b, k, unit);
    }
  }

  lemma UpdateRecovered(a: Db, b: Db, key: Key, value: StoreValue, unit: nat)
    requires unit > 0 && Recovered(a, b, unit) && key in a.data
    ensures Recovered(Update(a, key, value), Update(b, key, value), unit)
  {
    forall k | k in a.data ensures SameDeadline(Update(a, key, value), Update(b, key, value), k, unit) {
      assert SameDeadline(a, b, k, unit);
    }
  }

  /** Removing keys from the data; what happens to their index entries does not matter. */
  lemma DropRecovered(a: Db, b: Db, keys: set<Key>, a': Db, b': Db, unit: nat)
    requires unit > 0 && Recovered(a, b, unit)
    requires a'.data == a.data - keys && b'.data == b.data - keys
    requires a'.expiry - keys == a.expiry - keys && b'.expiry - keys == b.expiry - keys
    ensures Recovered(a', b', unit)
  {
    forall k | k in a'.data ensures SameDeadline(a', b', k, unit) {
      assert SameDeadline(a, b, k, unit);
      assert k in a.expiry <==> k in (a.expiry - keys);
      assert k in a'.expiry <==> k in (a'.expiry - keys);
      assert k in b.expiry <==> k in (b.expiry - keys);
      assert k in b'.expiry <==> k in (b'.expiry - keys);
      assert k in a.expiry ==> (a.expiry - keys)[k] == a.expiry[k] == (a'.expiry - keys)[k];
      assert k in b.expiry ==> (b.expiry - keys)[k] == b.expiry[k] == (b'.expiry - keys)[k];
    }
  }

  lemma RemoveRecovered(a: Db, b: Db, keys: set<Key>, unit: nat)
    requires unit > 0 && Recovered(a, b, unit)
    ensures Recovered(Remove(a, keys), Remove(b, keys), unit)
  {
    assert Remove(a, keys).expiry - keys == a.expiry - keys;
    assert Remove(b, keys).expiry - keys == b.expiry - keys;
    DropRecovered(a, b, keys, Remove(a, keys), Remove(b, keys), unit);
  }

  lemma SetTtlRecovered(a: Db, b: Db, key: Key, t: Time, t': Time, unit: nat)
    requires unit > 0 && Recovered(a, b, unit) && t / unit == t' / unit
    ensures Recovered(SetTtl(a, key, t), SetTtl(b, key, t'), unit)
  {
    forall k | k in a.data ensures SameDeadline(SetTtl(a, key, t), SetTtl(b, key, t'), k, unit) {
      assert SameDeadline(a, b, k, unit);
    }
  }

  lemma {:induction false} MSetRecovered(a: Db, b: Db, items: seq<(Key, Bytes)>, unit: nat)
    requires unit > 0 && Recovered(a, b, unit)
    ensures Recovered(MSet(a, items), MSet(b, items), unit)
  {
    if items != [] {
      var n := |items| - 1;
      MSetRecovered(a, b, items[..n], unit);
      PutRecovered(MSet(a, items[..n]), MSet(b, items[..n]), items[n].0, Str(items[n].1), unit);
    }
  }

  // ----- Deadlines -----

  /** `base` divides `unit`. */
  predicate Within(base: nat, unit: nat) {
    IsUnit(base) && IsUnit(unit) && base <= unit
  }

  lemma CoarserUnit(base: nat, unit: nat, n: nat, r: nat)
    requires Within(base, unit) && r < base
    ensures (n * base + r) / unit == (n * base) / unit
  {
  }

  lemma NotYetReached(base: nat, unit: nat, n: nat, r: nat, last: Time)
    requires Within(base, unit) && r < base && (n * base + r) / unit > last / unit
    ensures n > last / base
  {
    CoarserUnit(base, unit, n, r);
    var m := last / base;
    assert last == m * base + last % base;
    CoarserUnit(base, unit, m, last % base);
    assert n <= m ==> n * base <= m * base;
  }

  /** A Unix deadline not yet reached at `last` lands in the same unit whenever it is installed before. */
  lemma UnixRecovered(n: nat, now: Time, now': Time, last: Time, base: nat, unit: nat)
    requires Within(base, unit) && now <= last && now' <= last
    requires UnixToInstant(n, now, base) < INSTANT_LIMIT
    requires UnixToInstant(n, now, base) / unit > last / unit
    ensures n > now' / base
    ensures UnixToInstant(n, now', base) < INSTANT_LIMIT
    ensures UnixToInstant(n, now', base) / unit == UnixToInstant(n, now, base) / unit
  {
    AheadOfNow(n, now, last, base, unit);
    InstantOf(n, now, base);
    NotYetReached(base, unit, n, now % base, last);
    InstantOf(n, now', base);
    CoarserUnit(base, unit, n, now % base);
    CoarserUnit(base, unit, n, now' % base);
    BelowLimit(n, now % base, now' % base, base);
  }

  lemma DivMonotone(x: Time, y: Time, unit: nat)
    requires IsUnit(unit) && x <= y
    ensures x / unit <= y / unit
  {
  }

  lemma AheadOfNow(n: nat, now: Time, last: Time, base: nat, unit: nat)
    requires IsUnit(base) && IsUnit(unit) && now <= last && UnixToInstant(n, now, base) / unit > last / unit
    ensures n > now / base
  {
    DivMonotone(now, last, unit);
  }

  /** The limit of the clock is a whole number of units. */
  lemma BelowLimit(n: nat, r: nat, r': nat, base: nat)
    requires IsUnit(base) && r < base && r' < base && n * base + r < INSTANT_LIMIT
    ensures n * base + r' < INSTANT_LIMIT
  {
  }

  /** The deadline EXPIRE and PEXPIRE install, and the one their log entry names. */
  lemma RelativeRecovered(amount: nat, factor: nat, now: Time, now': Time, last: Time, unit: nat)
    requires IsUnit(unit) && now <= last && now' <= last
    requires factor == 1 || factor == 1000
    requires now / MILLISECOND + amount * factor <= U64_MAX
    requires now + amount * factor * MILLISECOND < INSTANT_LIMIT
    requires (now + amount * factor * MILLISECOND) / unit > last / unit
    ensures var n := LoggedDeadline(now, amount, factor);
      && n > now' / MILLISECOND
      && UnixToInstant(n, now', MILLISECOND) < INSTANT_LIMIT
      && UnixToInstant(n, now', MILLISECOND) / unit == (now + amount * factor * MILLISECOND) / unit
  {
    LoggedDeadlineExact(now, amount, factor);
    var n, ms := now / MILLISECOND + amount * factor, now / MILLISECOND;
    var t := now + amount * factor * MILLISECOND;
    assert amount * factor == 0 ==> t == now;
    assert n > ms;
    InstantOf(n, now, MILLISECOND);
    assert UnixToInstant(n, now, MILLISECOND) == t;
    UnixRecovered(n, now, now', last, MILLISECOND, unit);
  }

  // ----- Commands -----

  /** The two clocks a command and its replay read, both no later than `last`, and a common digest function. */
  ghost predicate Clocks(env: Env, env': Env, last: Time) {
    env.now <= last && env'.now <= last && env.digest == env'.digest
  }

  /** What the run and the replay have in common before a command. */
  ghost predicate Ready(a: Db, b: Db, env: Env, env': Env, last: Time, unit: nat) {
    IsUnit(unit) && Recovered(a, b, unit) && Unreached(a, last, unit) && Clocks(env, env', last)
  }

  // ----- When the entry of a logged command replays to the same effect -----

  /** Both readings are equally far into their second, to the millisecond. */
  predicate SameOffset(now: Time, now': Time) {
    now % SECOND / MILLISECOND == now' % SECOND / MILLISECOND
  }

  /** A delay counted from either reading ends in the same unit. */
  predicate SameDelayed(delay: nat, now: Time, now': Time, unit: nat)
    requires unit > 0
  {
    (now + delay) / unit == (now' + delay) / unit
  }

  /** SET's deadline as the run sets it and as the replay does are in the same unit. */
  predicate ExpiryReplays(a: Db, b: Db, key: Key, expiry: Option<C.SetExpiry>, now: Time, now': Time, unit: nat)
    requires unit > 0
  {
    match expiry
    case Some(Ex(n)) => SameDelayed(n * SECOND, now, now', unit)
    case Some(Px(n)) => SameDelayed(n * MILLISECOND, now, now', unit)
    case Some(ExAt(_)) => unit == SECOND || SameOffset(now, now')
    case Some(KeepTtl) => SameDeadline(a, b, key, unit)
    case _ => true
  }

  /** The members SPOP leaves. */
  function LeftBySPop(db: Db, key: Key, count: Option<nat>, env: Env): set<Bytes> {
    Sets.MembersAt(db, key, env.now) - Drawn(db, key, env.draw, CountOr1(count), env.now)
  }

  /**
   * Exactly when the replay of a logged command has its effect: a random pop draws alike, a SET that writes gets
   * its deadline in the same unit, a rewritten deadline fits in `u64`, and a deadline in seconds keeps its
   * offset where that is seen. Every other command always does.
   */
  predicate Replays(a: Db, b: Db, c: C.Command, env: Env, env': Env, unit: nat)
    requires unit > 0
  {
    match c
    case SPop(key, count) => LeftBySPop(a, key, count, env) == LeftBySPop(b, key, count, env')
    case Set(key, _, options) =>
      Strings.Writes(a, key, options, env) ==> ExpiryReplays(a, b, key, options.expiry, env.now, env'.now, unit)
    case Expire(_, n) => env.now / MILLISECOND + n * 1000 <= U64_MAX
    case PExpire(_, n) => env.now / MILLISECOND + n <= U64_MAX
    case ExpireAt(_, _) => unit == SECOND || SameOffset(env.now, env'.now)
    case _ => true
  }

  /** The store after a SET that wrote, with the deadline it found. */
  function Written(db: Db, key: Key, value: Bytes, d: NewDeadline): Db {
    if d.At? then SetTtl(Put(db, key, Str(value)), key, d.time) else Put(db, key, Str(value))
  }

  predicate SameNewDeadline(d: NewDeadline, d': NewDeadline, unit: nat)
    requires unit > 0
  {
    (d.At? <==> d'.At?) && (d.At? ==> d.time / unit == d'.time / unit)
  }

  lemma WrittenRecovered(a: Db, b: Db, key: Key, value: Bytes, d: NewDeadline, d': NewDeadline, unit: nat)
    requires unit > 0 && Recovered(a, b, unit)
    ensures Recovered(Written(a, key, value, d), Written(b, key, value, d'), unit) <==> SameNewDeadline(d, d', unit)
  {
    PutRecovered(a, b, key, Str(value), unit);
    var a', b' := Written(a, key, value, d), Written(b, key, value, d');
    if SameNewDeadline(d, d', unit) {
      if d.At? {
        SetTtlRecovered(Put(a, key, Str(value)), Put(b, key, Str(value)), key, d.time, d'.time, unit);
      }
    } else {
      assert !SameDeadline(a', b', key, unit);
    }
  }

  /** A deadline in seconds, installed by two readings: the same second, and the same millisecond if the offsets agree. */
  lemma SecondsExact(n: nat, now: Time, now': Time, last: Time)
    requires now <= last && now' <= last && n > now / SECOND
    requires UnixToInstant(n, now, SECOND) < INSTANT_LIMIT
    requires UnixToInstant(n, now, SECOND) / MILLISECOND > last / MILLISECOND
    ensures UnixToInstant(n, now', SECOND) < INSTANT_LIMIT
    ensures n > now' / SECOND && UnixToInstant(n, now', SECOND) / MILLISECOND == UnixToInstant(n, now, SECOND) / MILLISECOND
      <==> SameOffset(now, now')
    ensures n <= now' / SECOND ==>
      UnixToInstant(n, now', SECOND) / MILLISECOND != UnixToInstant(n, now, SECOND) / MILLISECOND
  {
    InstantOf(n, now, SECOND);
    var r, r' := now % SECOND, now' % SECOND;
    if n > now' / SECOND {
      InstantOf(n, now', SECOND);
      BelowLimit(n, r, r', SECOND);
      MillisOfSecond(n, r);
      MillisOfSecond(n, r');
    } else {
      MillisOfSecond(n, r);
      MillisOfSecond(now' / SECOND, r');
      assert now' / MILLISECOND <= last / MILLISECOND;
    }
  }

  lemma MillisOfSecond(n: nat, r: nat)
    requires r < SECOND
    ensures (n * SECOND + r) / MILLISECOND == n * 1000 + r / MILLISECOND
  {
  }

  lemma DelayExact(delay: nat, now: Time, now': Time, unit: nat)
    requires IsUnit(unit) && now + delay < INSTANT_LIMIT
    ensures now' + delay >= INSTANT_LIMIT ==> (now + delay) / unit != (now' + delay) / unit
  {
  }

  /** A Unix deadline not yet reached at `last`, installed by two readings. */
  lemma UnixExact(n: nat, now: Time, now': Time, last: Time, base: nat, unit: nat)
    requires IsUnit(base) && IsUnit(unit) && now <= last && now' <= last
    requires UnixToInstant(n, now, base) < INSTANT_LIMIT && UnixToInstant(n, now, base) / unit > last / unit
    ensures n > now / base && UnixToInstant(n, now', base) < INSTANT_LIMIT
    ensures UnixToInstant(n, now', base) / unit == UnixToInstant(n, now, base) / unit
      <==> base <= unit || SameOffset(now, now')
    ensures base <= unit || SameOffset(now, now') ==> n > now' / base
  {
    AheadOfNow(n, now, last, base, unit);
    if base <= unit {
      UnixRecovered(n, now, now', last, base, unit);
    } else {
      SecondsExact(n, now, now', last);
    }
  }

  lemma AfterExact(delay: nat, now: Time, now': Time, unit: nat)
    requires IsUnit(unit) && now + delay < INSTANT_LIMIT
    ensures SameNewDeadline(After(delay, now), After(delay, now'), unit) <==> SameDelayed(delay, now, now', unit)
  {
    DelayExact(delay, now, now', unit);
  }

  lemma AtUnixExact(n: nat, now: Time, now': Time, last: Time, base: nat, unit: nat)
    requires IsUnit(base) && IsUnit(unit) && now <= last && now' <= last
    requires var d := AtUnix(n, now, base); d.At? && d.time / unit > last / unit
    ensures !AtUnix(n, now', base).Overflow?
    ensures SameNewDeadline(AtUnix(n, now, base), AtUnix(n, now', base), unit) <==> base <= unit || SameOffset(now, now')
  {
    UnixExact(n, now, now', last, base, unit);
  }

  /** The deadlines a SET that writes finds in the run and in the replay. */
  lemma DeadlineForExact(a: Db, b: Db, key: Key, expiry: Option<C.SetExpiry>, env: Env, env': Env, last: Time, unit: nat)
    requires Ready(a, b, env, env', last, unit)
    requires var d := DeadlineFor(expiry, PrevTtl(a, key), env.now); d.Never? || (d.At? && d.time / unit > last / unit)
    ensures var d, d' := DeadlineFor(expiry, PrevTtl(a, key), env.now), DeadlineFor(expiry, PrevTtl(b, key), env'.now);
      && !d'.Overflow?
      && (SameNewDeadline(d, d', unit) <==> ExpiryReplays(a, b, key, expiry, env.now, env'.now, unit))
  {
    match expiry
    case Some(Ex(n)) => AfterExact(n * SECOND, env.now, env'.now, unit);
    case Some(Px(n)) => AfterExact(n * MILLISECOND, env.now, env'.now, unit);
    case Some(ExAt(n)) => AtUnixExact(n, env.now, env'.now, last, SECOND, unit);
    case Some(PxAt(n)) => AtUnixExact(n, env.now, env'.now, last, MILLISECOND, unit);
    case _ =>
  }

  lemma SetUnfold(db: Db, key: Key, value: Bytes, options: C.SetOptions, env: Env)
    ensures var o := ExecSet(db, key, value, options, env);
      var d := DeadlineFor(options.expiry, PrevTtl(db, key), env.now);
      if Strings.Writes(db, key, options, env)
      then o.db == Written(db, key, value, d) && (o.reply == Panics <==> d.Overflow?) && (d.Invalid? ==> o.reply.Value? && o.reply.value.SimpleError?)
      else o.db == db && o.reply != Panics
  {
  }

  lemma SetExact(a: Db, b: Db, key: Key, value: Bytes, options: C.SetOptions, env: Env, env': Env, last: Time, unit: nat)
    requires Ready(a, b, env, env', last, unit)
    requires Logged(C.Set(key, value, options), ExecSet(a, key, value, options, env).reply)
    requires Unreached(ExecSet(a, key, value, options, env).db, last, unit)
    ensures var o, o' := ExecSet(a, key, value, options, env), ExecSet(b, key, value, options, env');
      && o'.reply != Panics
      && (Recovered(o.db, o'.db, unit) <==> Replays(a, b, C.Set(key, value, options), env, env', unit))
  {
    SameLookup(a, b, key, env.now, env'.now, last, unit);
    SetUnfold(a, key, value, options, env);
    SetUnfold(b, key, value, options, env');
    if Strings.Writes(a, key, options, env) {
      var d := DeadlineFor(options.expiry, PrevTtl(a, key), env.now);
      var d' := DeadlineFor(options.expiry, PrevTtl(b, key), env'.now);
      if d.At? {
        assert UnreachedAt(Written(a, key, value, d), key, last, unit);
      }
      DeadlineForExact(a, b, key, options.expiry, env, env', last, unit);
      WrittenRecovered(a, b, key, value, d, d', unit);
    }
  }

  /** The store after a set was left with the members `left`. */
  function LeaveIn(db: Db, key: Key, left: set<Bytes>): Db {
    if left == {} then Remove(db, {key}) else Update(db, key, Set(left))
  }

  lemma SPopLeaves(db: Db, key: Key, count: Option<nat>, env: Env)
    ensures ExecSPop(db, key, count, env).db ==
      if Sets.HoldsSet(db, key, env.now) then LeaveIn(db, key, LeftBySPop(db, key, count, env)) else db
  {
  }

  lemma SPopExact(a: Db, b: Db, key: Key, count: Option<nat>, env: Env, env': Env, last: Time, unit: nat)
    requires Ready(a, b, env, env', last, unit)
    ensures Recovered(ExecSPop(a, key, count, env).db, ExecSPop(b, key, count, env').db, unit)
      <==> LeftBySPop(a, key, count, env) == LeftBySPop(b, key, count, env')
  {
    SameLookup(a, b, key, env.now, env'.now, last, unit);
    var left, left' := LeftBySPop(a, key, count, env), LeftBySPop(b, key, count, env');
    var a', b' := ExecSPop(a, key, count, env).db, ExecSPop(b, key, count, env').db;
    if left == left' {
      RemoveRecovered(a, b, {key}, unit);
      if Sets.HoldsSet(a, key, env.now) {
        UpdateRecovered(a, b, key, Set(left), unit);
      }
    } else {
      assert Sets.HoldsSet(a, key, env.now);
      assert left != {} ==> a'.data[key] == Set(left);
      assert left' != {} ==> b'.data[key] == Set(left');
      assert a'.data != b'.data;
    }
  }

  lemma PushRecovered(a: Db, b: Db, key: Key, es: seq<Bytes>, create: bool, end: End, env: Env, env': Env, last: Time, unit: nat)
    requires Ready(a, b, env, env', last, unit) && es != []
    ensures Recovered(ExecPush(a, key, es, create, end, env.now).db, ExecPush(b, key, es, create, end, env'.now).db, unit)
  {
    SameLookup(a, b, key, env.now, env'.now, last, unit);
    L.PushAllResult(a, key, es, create, end, env.now);
    L.PushAllResult(b, key, es, create, end, env'.now);
    match Lookup(a, key, env.now)
    case None => PutRecovered(a, b, key, List(L.PushedOnto([], es, end)), unit);
    case Some(List(items)) => UpdateRecovered(a, b, key, List(L.PushedOnto(items, es, end)), unit);
    case Some(_) =>
  }

  lemma PopRecovered(a: Db, b: Db, key: Key, count: nat, end: End, env: Env, env': Env, last: Time, unit: nat)
    requires Ready(a, b, env, env', last, unit)
    ensures Recovered(Pop(a, key, count, end, env.now).0, Pop(b, key, count, end, env'.now).0, unit)
  {
    SameLookup(a, b, key, env.now, env'.now, last, unit);
    match Lookup(a, key, env.now)
    case None =>
    case Some(List(items)) =>
      var rest := Unpopped(items, count, end);
      if rest == [] {
        DropRecovered(a, b, {key}, a.(data := a.data - {key}), b.(data := b.data - {key}), unit);
      } else {
        UpdateRecovered(a, b, key, List(rest), unit);
      }
    case Some(_) =>
  }

  lemma SAddRecovered(a: Db, b: Db, key: Key, members: seq<Bytes>, env: Env, env': Env, last: Time, unit: nat)
    requires Ready(a, b, env, env', last, unit)
    ensures Recovered(SAdd(a, key, members, env.now).0, SAdd(b, key, members, env'.now).0, unit)
  {
    SameLookup(a, b, key, env.now, env'.now, last, unit);
    match Lookup(a, key, env.now)
    case None => PutRecovered(a, b, key, Set(ToSet(members)), unit);
    case Some(Set(s)) => UpdateRecovered(a, b, key, Set(s + ToSet(members)), unit);
    case Some(_) =>
  }

  lemma SRemRecovered(a: Db, b: Db, key: Key, members: seq<Bytes>, env: Env, env': Env, last: Time, unit: nat)
    requires Ready(a, b, env, env', last, unit)
    ensures Recovered(SRem(a, key, members, env.now).0, SRem(b, key, members, env'.now).0, unit)
  {
    SameLookup(a, b, key, env.now, env'.now, last, unit);
    match Lookup(a, key, env.now)
    case None =>
    case Some(Set(s)) => UpdateRecovered(a, b, key, Set(s - ToSet(members)), unit);
    case Some(_) =>
  }

  lemma TakeMemberRecovered(a: Db, b: Db, source: Key, s: set<Bytes>, member: Bytes, env: Env, env': Env, last: Time, unit: nat)
    requires Ready(a, b, env, env', last, unit) && source in a.data
    ensures Ready(TakeMember(a, source, s, member), TakeMember(b, source, s, member), env, env', last, unit)
  {
    var a' := TakeMember(a, source, s, member);
    RemoveRecovered(a, b, {source}, unit);
    UpdateRecovered(a, b, source, Set(s - {member}), unit);
    forall k | k in a'.data ensures UnreachedAt(a', k, last, unit) {
      assert UnreachedAt(a, k, last, unit);
    }
  }

  lemma SMoveRecovered(a: Db, b: Db, source: Key, destination: Key, member: Bytes, env: Env, env': Env, last: Time, unit: nat)
    requires Ready(a, b, env, env', last, unit)
    ensures Recovered(SMove(a, source, destination, member, env.now).0, SMove(b, source, destination, member, env'.now).0, unit)
  {
    SameLookup(a, b, source, env.now, env'.now, last, unit);
    SameLookup(a, b, destination, env.now, env'.now, last, unit);
    match Lookup(a, source, env.now)
    case None =>
    case Some(Set(s)) =>
      if member in s {
        var a', b' := TakeMember(a, source, s, member), TakeMember(b, source, s, member);
        TakeMemberRecovered(a, b, source, s, member, env, env', last, unit);
        SameLookup(a', b', destination, env.now, env'.now, last, unit);
        PutRecovered(a', b', destination, Set({member}), unit);
        var target := Lookup(a', destination, env.now);
        if target.Some? && target.value.Set? {
          UpdateRecovered(a', b', destination, Set(target.value.members + {member}), unit);
        }
      }
    case Some(_) =>
  }

  lemma GetDelRecovered(a: Db, b: Db, key: Key, env: Env, env': Env, last: Time, unit: nat)
    requires Ready(a, b, env, env', last, unit)
    ensures Recovered(GetDel(a, key, env.now), GetDel(b, key, env'.now), unit)
  {
    var a', b' := GetDel(a, key, env.now), GetDel(b, key, env'.now);
    SameLookup(a, b, key, env.now, env'.now, last, unit);
    if key in a.data {
      assert SameDeadline(a, b, key, unit);
      RemoveRecovered(a, b, {key}, unit);
    } else {
      assert a.data - {key} == a.data && b.data - {key} == b.data;
      assert a'.expiry - {key} == a.expiry - {key} && b'.expiry - {key} == b.expiry - {key};
      DropRecovered(a, b, {key}, a', b', unit);
    }
  }

  lemma PersistRecovered(a: Db, b: Db, key: Key, unit: nat)
    requires unit > 0 && Recovered(a, b, unit)
    ensures Recovered(a.(expiry := a.expiry - {key}), b.(expiry := b.expiry - {key}), unit)
  {
    var a', b' := a.(expiry := a.expiry - {key}), b.(expiry := b.expiry - {key});
    forall k | k in a.data ensures SameDeadline(a', b', k, unit) {
      assert SameDeadline(a, b, k, unit);
    }
  }

  ghost predicate Rebuilt(o: Outcome, o': Outcome, unit: nat)
    requires unit > 0
  {
    o'.reply != Panics && Recovered(o.db, o'.db, unit)
  }

  /** Two deadlines for a stored key. */
  lemma SetTtlExact(a: Db, b: Db, key: Key, t: Time, t': Time, unit: nat)
    requires unit > 0 && Recovered(a, b, unit) && key in a.data
    ensures Recovered(SetTtl(a, key, t), SetTtl(b, key, t'), unit) <==> t / unit == t' / unit
  {
    if t / unit == t' / unit {
      SetTtlRecovered(a, b, key, t, t', unit);
    } else {
      assert !SameDeadline(SetTtl(a, key, t), SetTtl(b, key, t'), key, unit);
    }
  }

  /** EXPIREAT and PEXPIREAT with the deadline ahead. */
  lemma AbsoluteExact(a: Db, b: Db, key: Key, n: nat, base: nat, env: Env, env': Env, last: Time, unit: nat)
    requires Ready(a, b, env, env', last, unit) && IsUnit(base)
    requires ExpireAtUnix(a, key, env.now, n, base).reply == Number(1)
    requires Unreached(ExpireAtUnix(a, key, env.now, n, base).db, last, unit)
    ensures var o, o' := ExpireAtUnix(a, key, env.now, n, base), ExpireAtUnix(b, key, env'.now, n, base);
      && o'.reply != Panics
      && (Recovered(o.db, o'.db, unit) <==> base <= unit || SameOffset(env.now, env'.now))
  {
    var t, t' := UnixToInstant(n, env.now, base), UnixToInstant(n, env'.now, base);
    assert UnreachedAt(ExpireAtUnix(a, key, env.now, n, base).db, key, last, unit);
    SetTtlExact(a, b, key, t, t', unit);
    UnixExact(n, env.now, env'.now, last, base, unit);
    if n <= env'.now / base {
      assert key !in Remove(b, {key}).data;
    }
  }

  /** A rewritten deadline that does not fit is, wherever it lands, earlier by a unit or more. */
  lemma WrappedDeadline(now: Time, amount: nat, factor: nat, unit: nat)
    requires IsUnit(unit) && now / MILLISECOND + amount * factor > U64_MAX
    requires (factor == 1 && amount <= U64_MAX) || factor == 1000
    ensures var n := LoggedDeadline(now, amount, factor);
      n <= U64_MAX && n * MILLISECOND / unit < (now / MILLISECOND + amount * factor) * MILLISECOND / unit
  {
    var n, ms := LoggedDeadline(now, amount, factor), now / MILLISECOND;
    assert n < TWO_64;
    if amount * factor > U64_MAX {
      assert ms % TWO_64 == 0 ==> n == TWO_64 - 1;
      assert amount * factor >= 18446744073709552 * 1000;
    }
  }

  /** The deadline a rewritten entry installs, when it installs one. */
  lemma RewrittenDeadline(amount: nat, factor: nat, now: Time, now': Time, last: Time, unit: nat)
    requires IsUnit(unit) && now <= last && now' <= last
    requires (factor == 1 && amount <= U64_MAX) || factor == 1000
    requires now + amount * factor * MILLISECOND < INSTANT_LIMIT
    requires (now + amount * factor * MILLISECOND) / unit > last / unit
    ensures var n := LoggedDeadline(now, amount, factor);
      var same := UnixToInstant(n, now', MILLISECOND) / unit == (now + amount * factor * MILLISECOND) / unit;
      && (n > now' / MILLISECOND ==> UnixToInstant(n, now', MILLISECOND) < INSTANT_LIMIT)
      && (n > now' / MILLISECOND && same <==> now / MILLISECOND + amount * factor <= U64_MAX)
  {
    var n := LoggedDeadline(now, amount, factor);
    if now / MILLISECOND + amount * factor <= U64_MAX {
      RelativeRecovered(amount, factor, now, now', last, unit);
    } else if n > now' / MILLISECOND {
      WrappedDeadline(now, amount, factor, unit);
      InstantOf(n, now', MILLISECOND);
      CoarserUnit(MILLISECOND, unit, n, now' % MILLISECOND);
      RunDeadline(now, amount * factor, unit);
    }
  }

  /** EXPIRE and PEXPIRE, replayed as the PEXPIREAT the log holds. */
  lemma RewrittenExact(a: Db, b: Db, key: Key, amount: nat, factor: nat, env: Env, env': Env, last: Time, unit: nat)
    requires Ready(a, b, env, env', last, unit)
    requires (factor == 1 && amount <= U64_MAX) || factor == 1000
    requires var o := ExpireIn(a, key, env.now, amount * factor * MILLISECOND); o.reply == Number(1) && Unreached(o.db, last, unit)
    ensures var o := ExpireIn(a, key, env.now, amount * factor * MILLISECOND);
      var o' := ExpireAtUnix(b, key, env'.now, LoggedDeadline(env.now, amount, factor), MILLISECOND);
      && o'.reply != Panics
      && (Recovered(o.db, o'.db, unit) <==> env.now / MILLISECOND + amount * factor <= U64_MAX)
  {
    var t, n := env.now + amount * factor * MILLISECOND, LoggedDeadline(env.now, amount, factor);
    assert UnreachedAt(ExpireIn(a, key, env.now, amount * factor * MILLISECOND).db, key, last, unit);
    RewrittenDeadline(amount, factor, env.now, env'.now, last, unit);
    if n <= env'.now / MILLISECOND {
      assert key !in Remove(b, {key}).data;
    } else {
      SetTtlExact(a, b, key, t, UnixToInstant(n, env'.now, MILLISECOND), unit);
    }
  }

  lemma RunDeadline(now: Time, millis: nat, unit: nat)
    requires IsUnit(unit)
    ensures (now + millis * MILLISECOND) / unit == (now / MILLISECOND + millis) * MILLISECOND / unit
  {
    var q, r := now / MILLISECOND, now % MILLISECOND;
    assert now + millis * MILLISECOND == (q + millis) * MILLISECOND + r;
    CoarserUnit(MILLISECOND, unit, q + millis, r);
  }

  lemma ListStep(a: Db, b: Db, c: C.Command, env: Env, env': Env, last: Time, unit: nat)
    requires Ready(a, b, env, env', last, unit) && C.WellFormed(c) && IsListWrite(c) && !c.LSet?
    ensures Rebuilt(MutateList(a, c, env.now), MutateList(b, c, env'.now), unit)
  {
    match c
    case LPush(key, es) => PushRecovered(a, b, key, es, true, Front, env, env', last, unit);
    case RPush(key, es) => PushRecovered(a, b, key, es, true, Back, env, env', last, unit);
    case LPushX(key, es) => PushRecovered(a, b, key, es, false, Front, env, env', last, unit);
    case RPushX(key, es) => PushRecovered(a, b, key, es, false, Back, env, env', last, unit);
    case LPop(key, count) => PopRecovered(a, b, key, CountOr1(count), Front, env, env', last, unit);
    case RPop(key, count) => PopRecovered(a, b, key, CountOr1(count), Back, env, env', last, unit);
  }

  /** What a replayed entry does: it never panics, and has the effect of the command exactly under its condition. */
  ghost predicate ReplaysExactly(o: Outcome, o': Outcome, unit: nat, condition: bool)
    requires unit > 0
  {
    o'.reply != Panics && (Recovered(o.db, o'.db, unit) <==> condition)
  }

  lemma SetStep(a: Db, b: Db, c: C.Command, env: Env, env': Env, last: Time, unit: nat)
    requires Ready(a, b, env, env', last, unit) && IsSetWrite(c)
    ensures ReplaysExactly(MutateSet(a, c, env), MutateSet(b, c, env'), unit, Replays(a, b, c, env, env', unit))
  {
    match c
    case SAdd(key, members) => SAddRecovered(a, b, key, members, env, env', last, unit);
    case SRem(key, members) => SRemRecovered(a, b, key, members, env, env', last, unit);
    case SMove(source, destination, member) => SMoveRecovered(a, b, source, destination, member, env, env', last, unit);
    case SPop(key, count) => SPopExact(a, b, key, count, env, env', last, unit);
  }

  lemma RelativeStep(a: Db, b: Db, key: Key, n: nat, factor: nat, base: nat, env: Env, env': Env, last: Time, unit: nat)
    requires Ready(a, b, env, env', last, unit) && n <= U64_MAX
    requires (factor == 1 && base == MILLISECOND) || (factor == 1000 && base == SECOND)
    requires var o := ExpireIn(a, key, env.now, n * base); o.reply == Number(1) && Unreached(o.db, last, unit)
    ensures ReplaysExactly(ExpireIn(a, key, env.now, n * base),
                           ExpireAtUnix(b, key, env'.now, LoggedDeadline(env.now, n, factor), MILLISECOND), unit,
                           env.now / MILLISECOND + n * factor <= U64_MAX)
  {
    assert n * base == n * factor * MILLISECOND;
    RewrittenExact(a, b, key, n, factor, env, env', last, unit);
  }

  lemma ExpiryStep(a: Db, b: Db, c: C.Command, env: Env, env': Env, last: Time, unit: nat)
    requires Ready(a, b, env, env', last, unit) && IsExpiryWrite(c) && C.WellFormed(c)
    requires Logged(c, MutateExpiry(a, c, env.now).reply) && Unreached(MutateExpiry(a, c, env.now).db, last, unit)
    ensures ReplaysExactly(MutateExpiry(a, c, env.now), MutateExpiry(b, LoggedCommand(c, env.now), env'.now), unit,
                           Replays(a, b, c, env, env', unit))
  {
    if c.Persist? {
      PersistRecovered(a, b, c.key, unit);
    } else if c.ExpireAt? || c.PExpireAt? {
      AbsoluteStep(a, b, c, env, env', last, unit);
    } else {
      match c
      case Expire(key, n) => RelativeStep(a, b, key, n, 1000, SECOND, env, env', last, unit);
      case PExpire(key, n) => RelativeStep(a, b, key, n, 1, MILLISECOND, env, env', last, unit);
    }
  }

  lemma AbsoluteStep(a: Db, b: Db, c: C.Command, env: Env, env': Env, last: Time, unit: nat)
    requires Ready(a, b, env, env', last, unit) && (c.ExpireAt? || c.PExpireAt?)
    requires Logged(c, MutateExpiry(a, c, env.now).reply) && Unreached(MutateExpiry(a, c, env.now).db, last, unit)
    ensures ReplaysExactly(MutateExpiry(a, c, env.now), MutateExpiry(b, c, env'.now), unit, Replays(a, b, c, env, env', unit))
  {
    match c
    case ExpireAt(key, n) => AbsoluteExact(a, b, key, n, SECOND, env, env', last, unit);
    case PExpireAt(key, n) => AbsoluteExact(a, b, key, n, MILLISECOND, env, env', last, unit);
  }

  lemma ListLogged(a: Db, b: Db, c: C.Command, env: Env, env': Env, last: Time, unit: nat)
    requires Ready(a, b, env, env', last, unit) && C.WellFormed(c) && IsListWrite(c) && !c.LSet?
    ensures ReplaysExactly(Exec(a, c, env), Exec(b, c, env'), unit, true)
  {
    ListStep(a, b, c, env, env', last, unit);
  }

  lemma SetLogged(a: Db, b: Db, c: C.Command, env: Env, env': Env, last: Time, unit: nat)
    requires Ready(a, b, env, env', last, unit) && IsSetWrite(c)
    ensures ReplaysExactly(Exec(a, c, env), Exec(b, c, env'), unit, Replays(a, b, c, env, env', unit))
  {
    SetStep(a, b, c, env, env', last, unit);
  }

  lemma ExpiryLogged(a: Db, b: Db, c: C.Command, env: Env, env': Env, last: Time, unit: nat)
    requires Ready(a, b, env, env', last, unit) && IsExpiryWrite(c) && C.WellFormed(c)
    requires Logged(c, Exec(a, c, env).reply) && Unreached(Exec(a, c, env).db, last, unit)
    ensures ReplaysExactly(Exec(a, c, env), Exec(b, LoggedCommand(c, env.now), env'), unit, Replays(a, b, c, env, env', unit))
  {
    ExpiryStep(a, b, c, env, env', last, unit);
  }

  lemma GroupedStep(a: Db, b: Db, c: C.Command, env: Env, env': Env, last: Time, unit: nat)
    requires IsListWrite(c) || IsSetWrite(c) || IsExpiryWrite(c)
    requires Ready(a, b, env, env', last, unit) && C.WellFormed(c)
    requires Logged(c, Exec(a, c, env).reply) && Unreached(Exec(a, c, env).db, last, unit)
    ensures ReplaysExactly(Exec(a, c, env), Exec(b, LoggedCommand(c, env.now), env'), unit, Replays(a, b, c, env, env', unit))
  {
    if IsListWrite(c) {
      ListLogged(a, b, c, env, env', last, unit);
    } else if IsSetWrite(c) {
      SetLogged(a, b, c, env, env', last, unit);
    } else {
      ExpiryLogged(a, b, c, env, env', last, unit);
    }
  }

  /** The entry of a logged command never makes a replay panic, and has the command's effect exactly when `Replays` holds. */
  lemma LoggedStep(a: Db, b: Db, c: C.Command, env: Env, env': Env, last: Time, unit: nat)
    requires Ready(a, b, env, env', last, unit) && C.WellFormed(c)
    requires Logged(c, Exec(a, c, env).reply) && Unreached(Exec(a, c, env).db, last, unit)
    ensures ReplaysExactly(Exec(a, c, env), Exec(b, LoggedCommand(c, env.now), env'), unit, Replays(a, b, c, env, env', unit))
  {
    if IsListWrite(c) || IsSetWrite(c) || IsExpiryWrite(c) {
      GroupedStep(a, b, c, env, env', last, unit);
    } else if c.Set? {
      var Set(key, value, options) := c;
      SetExact(a, b, key, value, options, env, env', last, unit);
    } else if c.Delete? {
      var Delete(keys) := c;
      RemoveRecovered(a, b, ToSet(keys), unit);
    } else if c.GetDel? {
      var GetDel(key) := c;
      GetDelRecovered(a, b, key, env, env', last, unit);
    } else if c.MSet? {
      MSetRecovered(a, b, c.items, unit);
    }
  }

  /** A lost write shows: the data differ, or a stored key has lost its deadline. */
  lemma LossShows(db: Db, c: C.Command, env: Env)
    requires Loses(db, c, env) && !Logged(c, Exec(db, c, env).reply)
    ensures var db' := Exec(db, c, env).db;
      db'.data != db.data || exists k :: k in db.data && k in db.expiry && k !in db'.expiry
  {
    if c.Set? {
      var Set(key, value, options) := c;
      SetUnfold(db, key, value, options, env);
      if Put(db, key, Str(value)).data == db.data {
        assert key in Put(db, key, Str(value)).data;
      }
    } else if c.LSet? {
      var LSet(key, index, element) := c;
      var items := db.data[key].items;
      var i := ResolveIndex(index, |items|).value;
      assert items[i := element][i] != items[i];
      assert LSet(db, key, index, element, env.now).0.data[key] != db.data[key];
    } else if c.GetDel? {
      var GetDel(key) := c;
      assert key !in Remove(db, {key}).data;
    } else {
      assert c.key !in Remove(db, {c.key}).data;
    }
  }

  /** A command that is not logged leaves the replay right exactly when it loses nothing. */
  lemma UnloggedStep(a: Db, b: Db, c: C.Command, env: Env, unit: nat)
    requires unit > 0 && Recovered(a, b, unit) && C.WellFormed(c)
    requires !Logged(c, Exec(a, c, env).reply)
    ensures Recovered(Exec(a, c, env).db, b, unit) <==> !Loses(a, c, env)
  {
    var a' := Exec(a, c, env).db;
    if Loses(a, c, env) {
      LossShows(a, c, env);
      if k :| k in a.data && k in a.expiry && k !in a'.expiry {
        assert SameDeadline(a, b, k, unit);
        assert !SameDeadline(a', b, k, unit);
      }
    } else {
      LostWrites(a, c, env);
      StoredSameRecovered(a, a', b, unit);
    }
  }

  /** A deletion that is not logged leaves the replay right exactly when none of the keys is stored. */
  lemma DeletionStep(a: Db, b: Db, keys: set<Key>, unit: nat)
    requires unit > 0 && Recovered(a, b, unit)
    ensures Recovered(Remove(a, keys), b, unit) <==> keys !! a.data.Keys
  {
    if keys !! a.data.Keys {
      NoneRemoved(a, keys);
      StoredSameRecovered(a, Remove(a, keys), b, unit);
    } else {
      var k :| k in keys && k in a.data;
      assert k !in Remove(a, keys).data;
    }
  }

  // ----- The same, whatever the replay's clock and sampler -----

  /** The number SPOP draws leaves no choice. */
  predicate NoChoice(db: Db, key: Key, count: Option<nat>, now: Time) {
    CountOr1(count) == 0 || CountOr1(count) >= |Sets.MembersAt(db, key, now)|
  }

  /** A condition on the run alone under which a command replays, whatever the replay's clock, sampler and stale entries. */
  predicate Replayable(db: Db, c: C.Command, env: Env, unit: nat) {
    match c
    case SPop(key, count) => NoChoice(db, key, count, env.now)
    case Set(key, _, options) => Strings.Writes(db, key, options, env) ==> ReplayableExpiry(db, key, options.expiry, unit)
    case Expire(_, n) => env.now / MILLISECOND + n * 1000 <= U64_MAX
    case PExpire(_, n) => env.now / MILLISECOND + n <= U64_MAX
    case ExpireAt(_, _) => unit == SECOND
    case _ => true
  }

  predicate ReplayableExpiry(db: Db, key: Key, expiry: Option<C.SetExpiry>, unit: nat) {
    match expiry
    case Some(Ex(_)) => false
    case Some(Px(_)) => false
    case Some(ExAt(_)) => unit == SECOND
    case Some(KeepTtl) => key in db.data
    case _ => true
  }

  lemma DrawnAll(draw: (set<Bytes>, nat) -> set<Bytes>, s: set<Bytes>, n: nat)
    requires ValidSampler(draw) && (n == 0 || n >= |s|)
    ensures draw(s, n) == if n == 0 then {} else s
  {
    var d := draw(s, n);
    assert d <= s && |d| == Min(n, |s|);
    if n != 0 {
      assert s == d + (s - d);
      assert |s| == |d| + |s - d|;
    }
  }

  lemma NothingChosen(db: Db, key: Key, count: Option<nat>, env: Env)
    requires Sets.HoldsSet(db, key, env.now) && NoChoice(db, key, count, env.now) && ValidSampler(env.draw)
    ensures LeftBySPop(db, key, count, env) == if CountOr1(count) == 0 then Sets.MembersAt(db, key, env.now) else {}
  {
    DrawnAll(env.draw, Sets.MembersAt(db, key, env.now), CountOr1(count));
  }

  lemma SameLeft(a: Db, b: Db, key: Key, count: Option<nat>, env: Env, env': Env)
    requires Sets.HoldsSet(a, key, env.now) && Lookup(b, key, env'.now) == Lookup(a, key, env.now)
    requires NoChoice(a, key, count, env.now) && ValidSampler(env.draw) && ValidSampler(env'.draw)
    ensures LeftBySPop(a, key, count, env) == LeftBySPop(b, key, count, env')
  {
    NothingChosen(a, key, count, env);
    NothingChosen(b, key, count, env');
  }

  lemma NoChoiceReplays(a: Db, b: Db, key: Key, count: Option<nat>, env: Env, env': Env, last: Time, unit: nat)
    requires Ready(a, b, env, env', last, unit) && NoChoice(a, key, count, env.now)
    requires ValidSampler(env.draw) && ValidSampler(env'.draw)
    ensures LeftBySPop(a, key, count, env) == LeftBySPop(b, key, count, env')
  {
    SameLookup(a, b, key, env.now, env'.now, last, unit);
    if Sets.HoldsSet(a, key, env.now) {
      SameLeft(a, b, key, count, env, env');
    }
  }

  lemma ReplayableReplays(a: Db, b: Db, c: C.Command, env: Env, env': Env, last: Time, unit: nat)
    requires Ready(a, b, env, env', last, unit) && Replayable(a, c, env, unit)
    requires ValidSampler(env.draw) && ValidSampler(env'.draw)
    ensures Replays(a, b, c, env, env', unit)
  {
    match c
    case SPop(key, count) => NoChoiceReplays(a, b, key, count, env, env', last, unit);
    case Set(key, _, _) =>
      if key in a.data {
        assert SameDeadline(a, b, key, unit);
      }
    case _ =>
  }
}
