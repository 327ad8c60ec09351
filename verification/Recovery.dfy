/** One command at a time: what the log keeps of it, and why replaying that has the same effect. */
module Recovery {
  import opened Bytes
  import opened Decimal
  import opened Resp2
  import opened Database
  import opened Execution
  import C = Command
  import L = Lists

  // ----- What is logged -----

  /** Write commands are logged unless they reply with an error or the integer 0. */
  predicate Logged(c: C.Command, reply: Reply) {
    C.IsWrite(c) && reply != Panics && !(reply.Value? && (reply.value.SimpleError? || reply.value == Integer(0)))
  }

  const TWO_64: int := 0x1_0000_0000_0000_0000

  /** The absolute deadline written for a relative one: the product saturates and the sum wraps. */
  function LoggedDeadline(now: Time, amount: nat, factor: nat): nat {
    var millis := if amount * factor > U64_MAX then U64_MAX else amount * factor;
    (now / MILLISECOND % TWO_64 + millis) % TWO_64
  }

  /** The command the log holds for `c`. */
  function LoggedCommand(c: C.Command, now: Time): C.Command {
    match c
    case Expire(key, seconds) => C.PExpireAt(key, LoggedDeadline(now, seconds, 1000))
    case PExpire(key, milliseconds) => C.PExpireAt(key, LoggedDeadline(now, milliseconds, 1))
    case _ => c
  }

  /** The rewritten deadline is the intended one exactly when that fits in `u64`. */
  lemma LoggedDeadlineExact(now: Time, amount: nat, factor: nat)
    ensures LoggedDeadline(now, amount, factor) == now / MILLISECOND + amount * factor
      <==> now / MILLISECOND + amount * factor <= U64_MAX
  {
    var ms := now / MILLISECOND;
    if ms + amount * factor <= U64_MAX {
      assert ms % TWO_64 == ms;
    }
  }

  // ----- Writes the log misses -----

  /** Same stored keys, values and deadlines; entries of the index without a key do not matter. */
  ghost predicate StoredSame(a: Db, b: Db) {
    a.data == b.data && forall k :: k in a.data ==> PrevTtl(a, k) == PrevTtl(b, k)
  }

  /** The commands that change the store and leave no trace in the log. */
  predicate Loses(db: Db, c: C.Command, env: Env) {
    match c
    case LSet(key, index, element) =>
      var i := L.ElementAt(db, key, index, env.now);
      i.Some? && i.value != element
    case GetDel(key) => Live(db, key, env.now) && !db.data[key].Str?
    case ExpireAt(key, n) => key in db.data && n <= env.now / SECOND
    case PExpireAt(key, n) => key in db.data && n <= env.now / MILLISECOND
    case Set(key, value, options) =>
      var prev := GetString(db, key, env.now);
      var d := DeadlineFor(options.expiry, PrevTtl(db, key), env.now);
      && prev.Success? && ConditionMet(options.condition, prev.value, env.digest)
      && (d.Invalid? || d.Overflow?)
      && !(key in db.data && db.data[key] == Str(value) && key !in db.expiry)
    case _ => false
  }

  lemma PushLost(db: Db, key: Key, es: seq<Bytes>, create: bool, end: End, now: Time)
    requires es != []
    ensures var o := ExecPush(db, key, es, create, end, now);
      (o.reply.Value? && (o.reply.value.SimpleError? || o.reply.value == Integer(0))) ==> o.db == db
  {
    L.PushAllResult(db, key, es, create, end, now);
  }

  lemma RemoveAbsent<V>(m: map<Key, V>, keys: set<Key>)
    requires keys !! m.Keys
    ensures m - keys == m
  {
  }

  lemma NoneRemoved(db: Db, keys: set<Key>)
    requires keys !! db.data.Keys
    ensures StoredSame(db, Remove(db, keys))
  {
    RemoveAbsent(db.data, keys);
  }

  lemma DeleteLost(db: Db, keys: seq<Key>)
    ensures ExecDelete(db, keys).reply == Number(0) ==> StoredSame(db, ExecDelete(db, keys).db)
  {
    if |ToSet(keys) * db.data.Keys| == 0 {
      Disjoint(ToSet(keys), db.data.Keys);
      NoneRemoved(db, ToSet(keys));
    }
  }

  lemma Disjoint(s: set<Key>, t: set<Key>)
    requires |s * t| == 0
    ensures s !! t
  {
    forall x | x in s ensures x !in t {
      assert x !in s * t;
    }
  }

  lemma SetLost(db: Db, key: Key, value: Bytes, options: C.SetOptions, env: Env)
    ensures var c := C.Set(key, value, options);
      var o := Exec(db, c, env);
      !Logged(c, o.reply) ==> (StoredSame(db, o.db) <==> !Loses(db, c, env))
  {
    var written := Put(db, key, Str(value));
    if key in db.data && db.data[key] == Str(value) && key !in db.expiry {
      assert written.data == db.data && written.expiry == db.expiry;
    } else {
      assert written.data[key] == Str(value) && PrevTtl(written, key) == None;
      assert !StoredSame(db, written);
    }
  }

  lemma LSetLost(db: Db, key: Key, index: int, element: Bytes, env: Env)
    ensures var c := C.LSet(key, index, element);
      StoredSame(db, Exec(db, c, env).db) <==> !Loses(db, c, env)
  {
    var r := LSet(db, key, index, element, env.now);
    if r.1.Success? {
      var items := db.data[key].items;
      var i := ResolveIndex(index, |items|).value;
      if items[i] == element {
        assert items[i := element] == items;
        L.UpdateSame(db, key);
      } else {
        assert items[i := element][i] != items[i];
        assert r.0.data[key] != db.data[key];
      }
    }
  }

  lemma NothingShared(s: set<Bytes>, t: set<Bytes>)
    requires |s * t| == 0
    ensures s - t == s
  {
    forall x | x in s ensures x !in t {
      assert x !in s * t;
    }
  }

  lemma NothingNew(s: set<Bytes>, t: set<Bytes>)
    requires |t - s| == 0
    ensures s + t == s
  {
    forall x | x in t ensures x in s {
      assert x !in t - s;
    }
  }

  lemma SAddLost(db: Db, key: Key, members: seq<Bytes>, now: Time)
    requires members != []
    ensures var (db', r) := SAdd(db, key, members, now); r.Failure? || r.value == 0 ==> db' == db
  {
    assert members[0] in ToSet(members);
    match Lookup(db, key, now)
    case Some(Set(s)) =>
      if |ToSet(members) - s| == 0 {
        NothingNew(s, ToSet(members));
        L.UpdateSame(db, key);
      }
    case _ =>
  }

  lemma SRemLost(db: Db, key: Key, members: seq<Bytes>, now: Time)
    ensures var (db', r) := SRem(db, key, members, now); r.Failure? || r.value == 0 ==> db' == db
  {
    match Lookup(db, key, now)
    case Some(Set(s)) =>
      if |s * ToSet(members)| == 0 {
        NothingShared(s, ToSet(members));
        L.UpdateSame(db, key);
      }
    case _ =>
  }

  ghost predicate Missed(c: C.Command, db: Db, o: Outcome) {
    !Logged(c, o.reply) ==> o.db == db
  }

  lemma SetWriteLost(db: Db, c: C.Command, env: Env)
    requires IsSetWrite(c) && C.WellFormed(c)
    ensures Missed(c, db, MutateSet(db, c, env))
  {
    match c
    case SAdd(key, members) => SAddLost(db, key, members, env.now);
    case SRem(key, members) => SRemLost(db, key, members, env.now);
    case SMove(_, _, _) =>
    case SPop(_, _) =>
  }

  lemma ListWriteLost(db: Db, c: C.Command, now: Time)
    requires IsListWrite(c) && !c.LSet? && C.WellFormed(c)
    ensures Missed(c, db, MutateList(db, c, now))
  {
    match c
    case LPush(key, es) => PushLost(db, key, es, true, Front, now);
    case RPush(key, es) => PushLost(db, key, es, true, Back, now);
    case LPushX(key, es) => PushLost(db, key, es, false, Front, now);
    case RPushX(key, es) => PushLost(db, key, es, false, Back, now);
    case LPop(_, _) =>
    case RPop(_, _) =>
  }

  lemma GetDelLost(db: Db, key: Key, env: Env)
    ensures var c := C.GetDel(key);
      !Logged(c, Exec(db, c, env).reply) ==> (StoredSame(db, Exec(db, c, env).db) <==> !Loses(db, c, env))
  {
    if Live(db, key, env.now) {
      assert key !in Remove(db, {key}).data;
    }
  }

  lemma AbsoluteLost(db: Db, key: Key, now: Time, deadline: nat, unit: nat)
    requires unit > 0
    ensures var o := ExpireAtUnix(db, key, now, deadline, unit);
      o.reply != Number(1) ==> (StoredSame(db, o.db) <==> !(key in db.data && deadline <= now / unit))
  {
    if deadline <= now / unit {
      if key in db.data {
        assert key !in Remove(db, {key}).data;
      } else {
        NoneRemoved(db, {key});
      }
    }
  }

  lemma ExpiryWriteLost(db: Db, c: C.Command, env: Env)
    requires IsExpiryWrite(c)
    ensures var o := MutateExpiry(db, c, env.now);
      !Logged(c, o.reply) ==> (StoredSame(db, o.db) <==> !Loses(db, c, env))
  {
    match c
    case Persist(key) => assert key !in db.expiry ==> db.expiry - {key} == db.expiry;
    case Expire(_, _) =>
    case PExpire(_, _) =>
    case ExpireAt(key, n) => AbsoluteLost(db, key, env.now, n, SECOND);
    case PExpireAt(key, n) => AbsoluteLost(db, key, env.now, n, MILLISECOND);
  }

  /** Exactly which unlogged commands change what is stored: on every other command the log misses nothing. */
  lemma LostWrites(db: Db, c: C.Command, env: Env)
    requires C.WellFormed(c)
    ensures !Logged(c, Exec(db, c, env).reply) ==> (StoredSame(db, Exec(db, c, env).db) <==> !Loses(db, c, env))
  {
    if c.LSet? {
      var LSet(key, index, element) := c;
      LSetLost(db, key, index, element, env);
    } else if IsListWrite(c) || IsSetWrite(c) {
      MembersLost(db, c, env);
    } else if IsExpiryWrite(c) {
      ExpiryLost(db, c, env);
    } else if c.Set? {
      var Set(key, value, options) := c;
      SetLost(db, key, value, options, env);
    } else if c.GetDel? {
      var GetDel(key) := c;
      GetDelLost(db, key, env);
    } else if c.Delete? {
      var Delete(keys) := c;
      DeleteLost(db, keys);
    }
  }

  lemma ExpiryLost(db: Db, c: C.Command, env: Env)
    requires IsExpiryWrite(c)
    ensures !Logged(c, Exec(db, c, env).reply) ==> (StoredSame(db, Exec(db, c, env).db) <==> !Loses(db, c, env))
  {
    ExpiryWriteLost(db, c, env);
  }

  lemma MembersLost(db: Db, c: C.Command, env: Env)
    requires C.WellFormed(c) && ((IsListWrite(c) && !c.LSet?) || IsSetWrite(c))
    ensures !Logged(c, Exec(db, c, env).reply) ==> (StoredSame(db, Exec(db, c, env).db) <==> !Loses(db, c, env))
  {
    if IsListWrite(c) {
      ListWriteLost(db, c, env.now);
    } else {
      SetWriteLost(db, c, env);
    }
  }
}
