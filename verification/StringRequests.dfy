/** Requests about strings: GET, SET with its options, GETDEL, MGET, MSET, STRLEN and DIGEST. */
module StringRequests {
  import opened Bytes
  import opened Decimal
  import opened Resp2
  import opened Database
  import opened Execution
  import opened Words
  import opened Requests
  import C = Command
  import D = Deadlines
  import Strings

  /** What a string command finds at the key: a string, nothing, or something else. */
  predicate HasOther(db: Db, key: Key, now: Time) {
    key in db.data && !db.data[key].Str? && (key in db.expiry ==> now < db.expiry[key])
  }

  /** GET replies with the string, with nothing for no key, and with an error for another type. */
  lemma GetRequest(ask: Asking, db: Db, key: Key, s: Bytes, env: Env)
    requires Obeys(ask)
    ensures var o := ask(db, ["GET", key], env);
      && (Has(db, key, env.now, Str(s)) ==> o == Outcome(db, Value(BulkString(s))))
      && (Lacks(db, key, env.now) ==> o == Outcome(db, Value(NullBulkString)))
      && (HasOther(db, key, env.now) ==> Refused(db, o))
  {
    var c := C.Get(key);
    assert ask(db, Saying(c), env) == Exec(db, c, env);
    assert Saying(c) == ["GET", key];
  }

  /** STRLEN replies with the number of bytes. */
  lemma StrLenRequest(ask: Asking, db: Db, key: Key, s: Bytes, env: Env)
    requires Obeys(ask)
    ensures var o := ask(db, ["STRLEN", key], env);
      && (Has(db, key, env.now, Str(s)) ==> o == Outcome(db, Value(Integer(|s|))))
      && (Lacks(db, key, env.now) ==> o == Outcome(db, Value(Integer(0))))
      && (HasOther(db, key, env.now) ==> Refused(db, o))
  {
    var c := C.StrLen(key);
    assert ask(db, Saying(c), env) == Exec(db, c, env);
    assert Saying(c) == ["STRLEN", key];
  }

  /** GETDEL replies as GET and removes the key, a key of another type too; one that has expired stays where it is. */
  lemma GetDelRequest(ask: Asking, db: Db, key: Key, s: Bytes, env: Env)
    requires Obeys(ask)
    ensures var o, gone := ask(db, ["GETDEL", key], env), Db(db.data - {key}, db.expiry - {key});
      && (Has(db, key, env.now, Str(s)) ==> o == Outcome(gone, Value(BulkString(s))))
      && (Lacks(db, key, env.now) ==>
          o == Outcome(if key in db.expiry && db.expiry[key] <= env.now then db else gone, Value(NullBulkString)))
      && (HasOther(db, key, env.now) ==> o.db == gone && IsError(o.reply))
  {
    var c := C.GetDel(key);
    assert ask(db, Saying(c), env) == Exec(db, c, env);
    assert Saying(c) == ["GETDEL", key];
  }

  // ----- SET -----

  lemma AskSet(ask: Asking, db: Db, key: Key, value: Bytes, options: C.SetOptions, env: Env)
    requires Obeys(ask) && C.OptionsFit(options)
    ensures ask(db, ["SET", key, value] + OptionWords(options), env) == ExecSet(db, key, value, options, env)
  {
    var c := C.Set(key, value, options);
    SetWords(key, value, options);
    assert ask(db, Saying(c), env) == Exec(db, c, env);
  }

  lemma AskWhen(ask: Asking, db: Db, key: Key, value: Bytes, condition: C.SetCondition, env: Env)
    requires Obeys(ask) && C.OptionsFit(C.SetOptions(Some(condition), None, false))
    ensures ask(db, ["SET", key, value] + ConditionWords(Some(condition)), env) ==
      ExecSet(db, key, value, C.SetOptions(Some(condition), None, false), env)
  {
    var options := C.SetOptions(Some(condition), None, false);
    AskSet(ask, db, key, value, options, env);
    assert OptionWords(options) == ConditionWords(Some(condition));
  }

  lemma AskFor(ask: Asking, db: Db, key: Key, value: Bytes, expiry: C.SetExpiry, env: Env)
    requires Obeys(ask) && C.OptionsFit(C.SetOptions(None, Some(expiry), false))
    ensures ask(db, ["SET", key, value] + ExpiryWords(Some(expiry)), env) ==
      ExecSet(db, key, value, C.SetOptions(None, Some(expiry), false), env)
  {
    var options := C.SetOptions(None, Some(expiry), false);
    AskSet(ask, db, key, value, options, env);
    assert OptionWords(options) == ExpiryWords(Some(expiry));
  }

  /** The store with the string at the key, and without a deadline there. */
  function Stored(db: Db, key: Key, value: Bytes): Db {
    Db(db.data[key := Str(value)], db.expiry - {key})
  }

  /** SET overwrites a string, also one that has expired, and its deadline; it is refused on another type. */
  lemma SetRequest(ask: Asking, db: Db, key: Key, value: Bytes, env: Env)
    requires Obeys(ask)
    ensures var o := ask(db, ["SET", key, value], env);
      if HasOther(db, key, env.now) then Refused(db, o) else o == Outcome(Stored(db, key, value), Value(SimpleString("OK")))
  {
    AskSet(ask, db, key, value, C.NO_OPTIONS, env);
    assert ["SET", key, value] + OptionWords(C.NO_OPTIONS) == ["SET", key, value];
  }

  /** With GET, SET replies with what was there. */
  lemma SetGetRequest(ask: Asking, db: Db, key: Key, value: Bytes, s: Bytes, env: Env)
    requires Obeys(ask)
    ensures var o := ask(db, ["SET", key, value, "GET"], env);
      && (Has(db, key, env.now, Str(s)) ==> o == Outcome(Stored(db, key, value), Value(BulkString(s))))
      && (Lacks(db, key, env.now) ==> o == Outcome(Stored(db, key, value), Value(NullBulkString)))
      && (HasOther(db, key, env.now) ==> Refused(db, o))
  {
    var options := C.SetOptions(None, None, true);
    AskSet(ask, db, key, value, options, env);
    assert ["SET", key, value] + OptionWords(options) == ["SET", key, value, "GET"];
  }

  /** The options that set a deadline a number of units from now. */
  predicate SetsDelay(word: Bytes, unit: nat) {
    (word == "EX" && unit == 1_000_000_000) || (word == "PX" && unit == 1_000_000)
  }

  /** The options that set a deadline in a unit of Unix time. */
  predicate SetsTime(word: Bytes, unit: nat) {
    (word == "EXAT" && unit == 1_000_000_000) || (word == "PXAT" && unit == 1_000_000)
  }

  /** EX and PX count the deadline from now; when the clock cannot hold it, the string is stored before that is found out. */
  lemma SetDelayRequest(ask: Asking, db: Db, key: Key, value: Bytes, word: Bytes, unit: nat, n: nat, env: Env)
    requires Obeys(ask) && SetsDelay(word, unit) && n < 0x1_0000_0000_0000_0000 && !HasOther(db, key, env.now)
    ensures var o, deadline := ask(db, ["SET", key, value, word, DecimalText(n)], env), env.now + n * unit;
      if deadline >= END_OF_TIME then o.db == Stored(db, key, value) && IsError(o.reply)
      else o == Outcome(Db(db.data[key := Str(value)], db.expiry[key := deadline]), Value(SimpleString("OK")))
  {
    var expiry := if word == "EX" then C.Ex(n) else C.Px(n);
    AskFor(ask, db, key, value, expiry, env);
    assert ["SET", key, value] + ExpiryWords(Some(expiry)) == ["SET", key, value, word, DecimalText(n)];
    assert (db.expiry - {key})[key := env.now + n * unit] == db.expiry[key := env.now + n * unit];
  }

  /** EXAT and PXAT set the deadline in the unit named, at the clock's offset within its unit, or now if that is past. */
  lemma SetTimeRequest(ask: Asking, db: Db, key: Key, value: Bytes, word: Bytes, unit: nat, n: nat, env: Env)
    requires Obeys(ask) && SetsTime(word, unit) && n < 0x1_0000_0000_0000_0000 && !HasOther(db, key, env.now)
    ensures var o := ask(db, ["SET", key, value, word, DecimalText(n)], env);
      var deadline := if n > env.now / unit then n * unit + env.now % unit else env.now;
      if deadline >= END_OF_TIME then o == Outcome(Stored(db, key, value), Panics)
      else o == Outcome(Db(db.data[key := Str(value)], db.expiry[key := deadline]), Value(SimpleString("OK")))
  {
    var expiry := if word == "EXAT" then C.ExAt(n) else C.PxAt(n);
    AskFor(ask, db, key, value, expiry, env);
    assert ["SET", key, value] + ExpiryWords(Some(expiry)) == ["SET", key, value, word, DecimalText(n)];
    if n > env.now / unit {
      D.InstantOf(n, env.now, unit);
    }
    var deadline := UnixToInstant(n, env.now, unit);
    assert (db.expiry - {key})[key := deadline] == db.expiry[key := deadline];
  }

  /** KEEPTTL keeps whatever entry the index has for the key. */
  lemma KeepTtlRequest(ask: Asking, db: Db, key: Key, value: Bytes, env: Env)
    requires Obeys(ask) && !HasOther(db, key, env.now)
    ensures ask(db, ["SET", key, value, "KEEPTTL"], env) ==
      Outcome(Db(db.data[key := Str(value)], db.expiry), Value(SimpleString("OK")))
  {
    AskFor(ask, db, key, value, C.KeepTtl, env);
    assert ["SET", key, value] + ExpiryWords(Some(C.KeepTtl)) == ["SET", key, value, "KEEPTTL"];
    if key in db.expiry {
      assert (db.expiry - {key})[key := db.expiry[key]] == db.expiry;
    } else {
      assert db.expiry - {key} == db.expiry;
    }
  }

  /** The answer to a conditional SET: written, or nothing done and nothing replied. */
  predicate WrittenIf(condition: bool, db: Db, key: Key, value: Bytes, o: Outcome) {
    o == if condition then Outcome(Stored(db, key, value), Value(SimpleString("OK"))) else Outcome(db, Value(NullBulkString))
  }

  /** NX writes where there is no key, XX where there is one. */
  lemma SetPresenceRequest(ask: Asking, db: Db, key: Key, value: Bytes, env: Env)
    requires Obeys(ask) && !HasOther(db, key, env.now)
    ensures WrittenIf(Lacks(db, key, env.now), db, key, value, ask(db, ["SET", key, value, "NX"], env))
    ensures WrittenIf(!Lacks(db, key, env.now), db, key, value, ask(db, ["SET", key, value, "XX"], env))
  {
    AskWhen(ask, db, key, value, C.NX, env);
    assert ["SET", key, value] + ConditionWords(Some(C.NX)) == ["SET", key, value, "NX"];
    AskWhen(ask, db, key, value, C.XX, env);
    assert ["SET", key, value] + ConditionWords(Some(C.XX)) == ["SET", key, value, "XX"];
  }

  /** IFEQ writes where that string is, IFNE where another string is; without a key neither does. */
  lemma CompareAndSet(ask: Asking, db: Db, key: Key, value: Bytes, expected: Bytes, env: Env)
    requires Obeys(ask) && !HasOther(db, key, env.now)
    ensures var there := Has(db, key, env.now, Str(expected));
      && WrittenIf(there, db, key, value, ask(db, ["SET", key, value, "IFEQ", expected], env))
      && WrittenIf(!there && !Lacks(db, key, env.now), db, key, value, ask(db, ["SET", key, value, "IFNE", expected], env))
  {
    AskWhen(ask, db, key, value, C.IfEq(expected), env);
    assert ["SET", key, value] + ConditionWords(Some(C.IfEq(expected))) == ["SET", key, value, "IFEQ", expected];
    AskWhen(ask, db, key, value, C.IfNe(expected), env);
    assert ["SET", key, value] + ConditionWords(Some(C.IfNe(expected))) == ["SET", key, value, "IFNE", expected];
  }

  /** IFDEQ and IFDNE do the same by the digest, written in sixteen hexadecimal digits. */
  lemma CompareDigestAndSet(ask: Asking, db: Db, key: Key, value: Bytes, n: nat, s: Bytes, env: Env)
    requires Obeys(ask) && n < 0x1_0000_0000_0000_0000 && (Has(db, key, env.now, Str(s)) || Lacks(db, key, env.now))
    ensures var there := Has(db, key, env.now, Str(s));
      && WrittenIf(there && env.digest(s) == n, db, key, value, ask(db, ["SET", key, value, "IFDEQ", HexText(n, 16)], env))
      && WrittenIf(there && env.digest(s) != n, db, key, value, ask(db, ["SET", key, value, "IFDNE", HexText(n, 16)], env))
  {
    AskWhen(ask, db, key, value, C.IfDeq(n), env);
    assert ["SET", key, value] + ConditionWords(Some(C.IfDeq(n))) == ["SET", key, value, "IFDEQ", HexText(n, 16)];
    AskWhen(ask, db, key, value, C.IfDne(n), env);
    assert ["SET", key, value] + ConditionWords(Some(C.IfDne(n))) == ["SET", key, value, "IFDNE", HexText(n, 16)];
  }

  /** Of two clients that both expect the same string, only the first gets its own stored. */
  lemma OnlyOneSwaps(ask: Asking, db: Db, key: Key, expected: Bytes, first: Bytes, second: Bytes, env: Env, env': Env)
    requires Obeys(ask) && Has(db, key, env.now, Str(expected)) && first != expected
    ensures var o := ask(db, ["SET", key, first, "IFEQ", expected], env);
      var o' := ask(o.db, ["SET", key, second, "IFEQ", expected], env');
      && o.reply == Value(SimpleString("OK")) && o'.reply == Value(NullBulkString)
      && o'.db == o.db && o.db.data == db.data[key := Str(first)]
  {
    CompareAndSet(ask, db, key, first, expected, env);
    CompareAndSet(ask, Stored(db, key, first), key, second, expected, env');
  }

  lemma AskDigest(ask: Asking, db: Db, key: Key, env: Env)
    requires Obeys(ask)
    ensures ask(db, ["DIGEST", key], env) == Outcome(db, ExecDigest(db, key, env))
  {
    var c := C.Digest(key);
    assert ask(db, Saying(c), env) == Exec(db, c, env);
    assert Saying(c) == ["DIGEST", key];
  }

  lemma DigestFits(n: int)
    requires 0 <= n < 0x1_0000_0000_0000_0000
    ensures n % 0x1_0000_0000_0000_0000 == n
  {
  }

  /** DIGEST replies with the digest of the string in sixteen hexadecimal digits. */
  lemma DigestRequest(ask: Asking, db: Db, key: Key, s: Bytes, env: Env)
    requires Obeys(ask) && 0 <= env.digest(s) < 0x1_0000_0000_0000_0000
    ensures var o := ask(db, ["DIGEST", key], env);
      && (Has(db, key, env.now, Str(s)) ==> o == Outcome(db, Value(BulkString(HexText(env.digest(s), 16)))))
      && (Lacks(db, key, env.now) ==> o == Outcome(db, Value(NullBulkString)))
      && (HasOther(db, key, env.now) ==> Refused(db, o))
  {
    AskDigest(ask, db, key, env);
    DigestFits(env.digest(s));
  }

  /** What DIGEST prints satisfies IFDEQ as long as the string is there. */
  lemma DigestThenSet(ask: Asking, db: Db, key: Key, s: Bytes, value: Bytes, env: Env, env': Env)
    requires Obeys(ask) && Has(db, key, env.now, Str(s)) && Has(db, key, env'.now, Str(s))
    requires env'.digest == env.digest && 0 <= env.digest(s) < 0x1_0000_0000_0000_0000
    ensures var o := ask(db, ["DIGEST", key], env);
      && o.db == db && o.reply.Value? && o.reply.value.BulkString?
      && WrittenIf(true, db, key, value, ask(db, ["SET", key, value, "IFDEQ", o.reply.value.body], env'))
  {
    DigestRequest(ask, db, key, s, env);
    CompareDigestAndSet(ask, db, key, value, env.digest(s), s, env');
  }

  // ----- Many keys at once -----

  /** The last pair that names the key. */
  predicate LastFor(items: seq<(Key, Bytes)>, key: Key, i: nat) {
    i < |items| && items[i].0 == key && forall j :: i < j < |items| ==> items[j].0 != key
  }

  lemma AskMSet(ask: Asking, db: Db, items: seq<(Key, Bytes)>, env: Env)
    requires Obeys(ask) && items != []
    ensures ask(db, ["MSET"] + PairWords(items), env) == Outcome(MSet(db, items), Value(SimpleString("OK")))
  {
    var c := C.MSet(items);
    assert ask(db, Saying(c), env) == Exec(db, c, env);
    assert Saying(c) == ["MSET"] + PairWords(items);
  }

  /** MSET stores the last string given for each key, without a deadline, and touches no other key. */
  lemma MSetRequest(ask: Asking, db: Db, items: seq<(Key, Bytes)>, key: Key, i: nat, env: Env)
    requires Obeys(ask) && items != []
    ensures var o := ask(db, ["MSET"] + PairWords(items), env);
      && o.reply == Value(SimpleString("OK"))
      && (LastFor(items, key, i) ==> key in o.db.data && o.db.data[key] == Str(items[i].1) && key !in o.db.expiry)
      && ((forall j :: 0 <= j < |items| ==> items[j].0 != key) ==> SameAt(db, o.db, key))
  {
    AskMSet(ask, db, items, env);
    if LastFor(items, key, i) {
      Strings.MSetLastWins(db, items, key, i);
    } else if forall j :: 0 <= j < |items| ==> items[j].0 != key {
      Strings.MSetLeavesOthers(db, items, key);
    }
  }

  /** MGET replies in order with each string, and with nothing for no key or another type. */
  lemma MGetRequest(ask: Asking, db: Db, keys: seq<Key>, i: nat, s: Bytes, env: Env)
    requires Obeys(ask) && i < |keys|
    ensures var o := ask(db, ["MGET"] + keys, env);
      && o.db == db && o.reply.Value? && o.reply.value.Array? && |o.reply.value.items| == |keys|
      && (Has(db, keys[i], env.now, Str(s)) ==> o.reply.value.items[i] == BulkString(s))
      && (Lacks(db, keys[i], env.now) || HasOther(db, keys[i], env.now) ==> o.reply.value.items[i] == NullBulkString)
  {
    var c := C.MGet(keys);
    assert ask(db, Saying(c), env) == Exec(db, c, env);
    assert Saying(c) == ["MGET"] + keys;
  }
}
