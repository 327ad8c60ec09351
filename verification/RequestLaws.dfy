/** Laws between requests: what one client writes is what the next one reads. */
module RequestLaws {
  import opened Bytes
  import opened Decimal
  import opened Resp2
  import opened Database
  import opened Execution
  import opened Requests
  import opened StringRequests
  import opened ListRequests
  import opened SetRequests
  import opened ExpiryRequests
  import opened KeyRequests

  // ----- Deadlines -----

  /** A string that EXPIRE or PEXPIRE gave n units is found at a later time exactly before they are over. */
  lemma ExpireThenGet(ask: Asking, db: Db, word: Bytes, unit: nat, key: Key, n: nat, s: Bytes, env: Env, env': Env)
    requires Obeys(ask) && Relative(word, unit) && n < 0x1_0000_0000_0000_0000 && Has(db, key, env.now, Str(s))
    requires env.now + n * unit < END_OF_TIME
    ensures var o := ask(db, [word, key, DecimalText(n)], env);
      ask(o.db, ["GET", key], env').reply == Value(if env'.now < env.now + n * unit then BulkString(s) else NullBulkString)
  {
    ExpireRequest(ask, db, word, unit, key, n, env);
    GetRequest(ask, Db(db.data, db.expiry[key := env.now + n * unit]), key, s, env');
  }

  /** The same of a string set with EX or PX. */
  lemma SetDelayThenGet(ask: Asking, db: Db, word: Bytes, unit: nat, key: Key, n: nat, s: Bytes, env: Env, env': Env)
    requires Obeys(ask) && SetsDelay(word, unit) && n < 0x1_0000_0000_0000_0000 && !HasOther(db, key, env.now)
    requires env.now + n * unit < END_OF_TIME
    ensures var o := ask(db, ["SET", key, s, word, DecimalText(n)], env);
      ask(o.db, ["GET", key], env').reply == Value(if env'.now < env.now + n * unit then BulkString(s) else NullBulkString)
  {
    SetDelayRequest(ask, db, key, s, word, unit, n, env);
    GetRequest(ask, Db(db.data[key := Str(s)], db.expiry[key := env.now + n * unit]), key, s, env');
  }

  /** PERSIST makes a string outlive its deadline. */
  lemma PersistThenGet(ask: Asking, db: Db, key: Key, s: Bytes, env: Env, env': Env)
    requires Obeys(ask) && Has(db, key, env.now, Str(s))
    ensures var o := ask(db, ["PERSIST", key], env); ask(o.db, ["GET", key], env').reply == Value(BulkString(s))
  {
    PersistRequest(ask, db, key, env);
    GetRequest(ask, Db(db.data, db.expiry - {key}), key, s, env');
  }

  // ----- Lists -----

  /** A list pushed on the right and popped on the left is a queue, pushed and popped on one side a stack. */
  lemma QueueAndStack(ask: Asking, db: Db, word: Bytes, left: bool, pop: Bytes, popLeft: bool, key: Key, es: seq<Bytes>, n: nat, env: Env, env': Env)
    returns (taken: seq<Bytes>)
    requires Obeys(ask) && Pushes(word, left, true) && Pops(pop, popLeft) && es != [] && Lacks(db, key, env.now)
    requires n < 0x1_0000_0000_0000_0000
    ensures |taken| == if n < |es| then n else |es|
    ensures forall i :: 0 <= i < |taken| ==> taken[i] == if left == popLeft then es[|es| - 1 - i] else es[i]
    ensures var o := ask(db, [word, key] + es, env); ask(o.db, [pop, key, DecimalText(n)], env').reply == Value(Bulks(taken))
  {
    var pushed := PushRequest(ask, db, word, left, true, key, es, [], env);
    var rest;
    taken, rest := PopRequest(ask, Db(db.data[key := List(pushed)], db.expiry - {key}), pop, popLeft, key, n, pushed, env');
    PushedThenPopped(pushed, es, left, taken, rest, n, popLeft);
  }

  lemma PushedThenPopped(pushed: seq<Bytes>, es: seq<Bytes>, left: bool, taken: seq<Bytes>, rest: seq<Bytes>, n: nat, popLeft: bool)
    requires IsPushed(pushed, [], es, left) && IsPopped(taken, rest, pushed, n, popLeft)
    ensures forall i :: 0 <= i < |taken| ==> taken[i] == if left == popLeft then es[|es| - 1 - i] else es[i]
  {
    forall i | 0 <= i < |taken| ensures taken[i] == if left == popLeft then es[|es| - 1 - i] else es[i] {
      if popLeft {
        assert taken[i] == (taken + rest)[i];
      }
    }
  }

  /** What is pushed shows in LRANGE 0 -1, in its place. */
  lemma PushThenRange(ask: Asking, db: Db, word: Bytes, left: bool, key: Key, es: seq<Bytes>, xs: seq<Bytes>, env: Env, env': Env)
    returns (pushed: seq<Bytes>)
    requires Obeys(ask) && Pushes(word, left, true) && es != [] && |xs| + |es| <= I64_MAX
    requires Has(db, key, env.now, List(xs)) && (key in db.expiry ==> env'.now < db.expiry[key])
    ensures IsPushed(pushed, xs, es, left)
    ensures var o := ask(db, [word, key] + es, env);
      ask(o.db, ["LRANGE", key, "0", "-1"], env').reply == Value(Bulks(pushed))
  {
    pushed := PushRequest(ask, db, word, left, true, key, es, xs, env);
    var first, s := LRangeRequest(ask, Db(db.data[key := List(pushed)], db.expiry), key, 0, -1, pushed, env');
    assert DecimalText(0) == "0" && DecimalText(-1) == "-1";
    assert InRange(0, |pushed|, 0, -1) && InRange(|pushed| - 1, |pushed|, 0, -1);
    assert s == pushed;
  }

  // ----- Sets -----

  /** What SADD adds, SMEMBERS shows and SCARD counts, until SREM takes it. */
  lemma SAddThenSMembers(ask: Asking, db: Db, key: Key, ms: seq<Bytes>, env: Env, env': Env)
    requires Obeys(ask) && ms != [] && Lacks(db, key, env.now)
    ensures var o := ask(db, ["SADD", key] + ms, env); var removed := ask(o.db, ["SREM", key] + ms, env');
      && ask(o.db, ["SMEMBERS", key], env').reply == Members(set m | m in ms)
      && ask(o.db, ["SCARD", key], env').reply == o.reply == removed.reply
      && ask(removed.db, ["SMEMBERS", key], env').reply == Members({})
  {
    var added := set m | m in ms;
    SAddRequest(ask, db, key, ms, {}, env);
    var db' := Db(db.data[key := Set(added)], db.expiry - {key});
    SMembersRequest(ask, db', key, added, env');
    SCardRequest(ask, db', key, added, env');
    SRemRequest(ask, db', key, ms, added, env');
    assert added - added == {};
    SMembersRequest(ask, Db(db'.data[key := Set({})], db'.expiry), key, {}, env');
  }

  // ----- Keys -----

  /** After DEL none of the keys exists. */
  lemma DelThenExists(ask: Asking, db: Db, keys: seq<Key>, env: Env, env': Env)
    requires Obeys(ask) && keys != []
    ensures var o := ask(db, ["DEL"] + keys, env); ask(o.db, ["EXISTS"] + keys, env').reply == Value(Integer(0))
  {
    DelRequest(ask, db, keys, env);
    var named := set k | k in keys;
    var db' := Db(db.data - named, db.expiry - named);
    ExistsRequest(ask, db', keys, env');
    assert Places(db', keys, env'.now) == {};
  }
}
