/** Requests about deadlines: EXPIRE and its forms, TTL and its forms, PERSIST. */
module ExpiryRequests {
  import opened Bytes
  import opened Decimal
  import opened Resp2
  import opened Database
  import opened Execution
  import opened Words
  import opened Requests
  import C = Command
  import D = Deadlines

  /** The words that set a deadline a number of units from now. */
  predicate Relative(word: Bytes, unit: nat) {
    (word == "EXPIRE" && unit == 1_000_000_000) || (word == "PEXPIRE" && unit == 1_000_000)
  }

  /** The words that set a deadline in a unit of Unix time. */
  predicate Absolute(word: Bytes, unit: nat) {
    (word == "EXPIREAT" && unit == 1_000_000_000) || (word == "PEXPIREAT" && unit == 1_000_000)
  }

  lemma AskRelative(ask: Asking, db: Db, word: Bytes, unit: nat, key: Key, n: nat, env: Env)
    requires Obeys(ask) && Relative(word, unit) && n < 0x1_0000_0000_0000_0000
    ensures ask(db, [word, key, DecimalText(n)], env) == ExpireIn(db, key, env.now, n * unit)
  {
    var c := if word == "EXPIRE" then C.Expire(key, n) else C.PExpire(key, n);
    assert ask(db, Saying(c), env) == Exec(db, c, env);
    assert Saying(c) == [word, key, DecimalText(n)];
  }

  /** EXPIRE and PEXPIRE: a stored key gets the deadline, no other does, and a time out of range is refused. */
  lemma ExpireRequest(ask: Asking, db: Db, word: Bytes, unit: nat, key: Key, n: nat, env: Env)
    requires Obeys(ask) && Relative(word, unit) && n < 0x1_0000_0000_0000_0000
    ensures var o, deadline := ask(db, [word, key, DecimalText(n)], env), env.now + n * unit;
      if deadline >= END_OF_TIME then Refused(db, o)
      else if key in db.data then o == Outcome(Db(db.data, db.expiry[key := deadline]), Value(Integer(1)))
      else o == Outcome(db, Value(Integer(0)))
  {
    AskRelative(ask, db, word, unit, key, n, env);
  }

  lemma AskAbsolute(ask: Asking, db: Db, word: Bytes, unit: nat, key: Key, n: nat, env: Env)
    requires Obeys(ask) && Absolute(word, unit) && n < 0x1_0000_0000_0000_0000
    ensures ask(db, [word, key, DecimalText(n)], env) == ExpireAtUnix(db, key, env.now, n, unit)
  {
    var c := if word == "EXPIREAT" then C.ExpireAt(key, n) else C.PExpireAt(key, n);
    assert ask(db, Saying(c), env) == Exec(db, c, env);
    assert Saying(c) == [word, key, DecimalText(n)];
  }

  /**
   * EXPIREAT and PEXPIREAT: a time that is not in a later unit deletes the key; a later one becomes the deadline of a
   * stored key, at the clock's offset within its unit; one out of range brings the handler down.
   */
  lemma ExpireAtRequest(ask: Asking, db: Db, word: Bytes, unit: nat, key: Key, n: nat, env: Env)
    requires Obeys(ask) && Absolute(word, unit) && n < 0x1_0000_0000_0000_0000
    ensures var o, deadline := ask(db, [word, key, DecimalText(n)], env), n * unit + env.now % unit;
      if n <= env.now / unit then o == Outcome(Db(db.data - {key}, db.expiry - {key}), Value(Integer(0)))
      else if deadline >= END_OF_TIME then o == Outcome(db, Panics)
      else if key in db.data then o == Outcome(Db(db.data, db.expiry[key := deadline]), Value(Integer(1)))
      else o == Outcome(db, Value(Integer(0)))
  {
    AskAbsolute(ask, db, word, unit, key, n, env);
    if n > env.now / unit {
      D.InstantOf(n, env.now, unit);
    }
  }

  /** The number as a 64-bit reply carries it. */
  predicate Carries(reply: Reply, n: int) {
    && reply.Value? && reply.value.Integer?
    && -0x8000_0000_0000_0000 <= reply.value.n < 0x8000_0000_0000_0000
    && (n - reply.value.n) % 0x1_0000_0000_0000_0000 == 0
  }

  lemma WrapCarries(n: int)
    ensures Carries(Value(Integer(WrapI64(n))), n)
  {
  }

  /** The words that ask for the time left, and for the deadline. */
  predicate AsksTime(word: Bytes, unit: nat, absolute: bool) {
    || (word == "TTL" && unit == 1_000_000_000 && !absolute)
    || (word == "PTTL" && unit == 1_000_000 && !absolute)
    || (word == "EXPIRETIME" && unit == 1_000_000_000 && absolute)
    || (word == "PEXPIRETIME" && unit == 1_000_000 && absolute)
  }

  lemma AskTime(ask: Asking, db: Db, word: Bytes, unit: nat, absolute: bool, key: Key, env: Env)
    requires Obeys(ask) && AsksTime(word, unit, absolute)
    ensures ask(db, [word, key], env) ==
      Outcome(db, ResolveExpiry(db, key, env.now, if absolute then env.now / unit else 0, unit))
  {
    var c := if absolute then if unit == 1_000_000 then C.PExpireTime(key) else C.ExpireTime(key)
      else if unit == 1_000_000 then C.PTtl(key) else C.Ttl(key);
    assert ask(db, Saying(c), env) == Exec(db, c, env);
    assert Saying(c) == [word, key];
  }

  /** TTL and its forms: the whole units left, or the Unix time they lead to; -1 without a deadline, -2 without the key. */
  lemma TimeRequest(ask: Asking, db: Db, word: Bytes, unit: nat, absolute: bool, key: Key, env: Env)
    requires Obeys(ask) && AsksTime(word, unit, absolute)
    ensures var o := ask(db, [word, key], env);
      && o.db == db
      && (key in db.expiry && env.now <= db.expiry[key] ==>
          Carries(o.reply, (if absolute then env.now / unit else 0) + (db.expiry[key] - env.now) / unit))
      && (key in db.expiry && env.now > db.expiry[key] ==> o.reply == Value(Integer(-2)))
      && (key !in db.expiry ==> o.reply == Value(Integer(if key in db.data then -1 else -2)))
  {
    AskTime(ask, db, word, unit, absolute, key, env);
    if key in db.expiry && env.now <= db.expiry[key] {
      WrapCarries((if absolute then env.now / unit else 0) + (db.expiry[key] - env.now) / unit);
    }
  }

  /** PERSIST takes the deadline away, and says whether there was one. */
  lemma PersistRequest(ask: Asking, db: Db, key: Key, env: Env)
    requires Obeys(ask)
    ensures ask(db, ["PERSIST", key], env) ==
      Outcome(Db(db.data, db.expiry - {key}), Value(Integer(if key in db.expiry then 1 else 0)))
  {
    var c := C.Persist(key);
    assert ask(db, Saying(c), env) == Exec(db, c, env);
    assert Saying(c) == ["PERSIST", key];
  }
}
