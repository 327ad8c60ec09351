/** Requests about keys and the server: DEL, EXISTS, KEYS, DBSIZE, FLUSHDB, SELECT and PING. */
module KeyRequests {
  import opened Bytes
  import opened Decimal
  import opened Resp2
  import opened Database
  import opened Execution
  import opened Words
  import opened Requests
  import C = Command
  import Pattern

  /** DEL removes the keys with their deadlines, expired or not, and replies with how many were stored. */
  lemma DelRequest(ask: Asking, db: Db, keys: seq<Key>, env: Env)
    requires Obeys(ask) && keys != []
    ensures var named := set k | k in keys;
      ask(db, ["DEL"] + keys, env) ==
        Outcome(Db(db.data - named, db.expiry - named), Value(Integer(|set k | k in db.data && k in keys|)))
  {
    var c := C.Delete(keys);
    assert ask(db, Saying(c), env) == Exec(db, c, env);
    assert Saying(c) == ["DEL"] + keys;
    assert ToSet(keys) * db.data.Keys == set k | k in db.data && k in keys;
  }

  /** The places at which a key is named that is there. */
  function Places(db: Db, keys: seq<Key>, now: Time): set<nat> {
    set i: nat | i < |keys| && !Lacks(db, keys[i], now)
  }

  lemma {:induction false} CountLiveIsPlaces(db: Db, keys: seq<Key>, now: Time)
    ensures CountLive(db, keys, now) == |Places(db, keys, now)|
  {
    if keys != [] {
      var n := |keys| - 1;
      CountLiveIsPlaces(db, keys[..n], now);
      assert Places(db, keys, now) == Places(db, keys[..n], now) + if Lacks(db, keys[n], now) then {} else {n};
    } else {
      assert Places(db, keys, now) == {};
    }
  }

  /** EXISTS counts the keys that are there, as often as they are named. */
  lemma ExistsRequest(ask: Asking, db: Db, keys: seq<Key>, env: Env)
    requires Obeys(ask) && keys != []
    ensures ask(db, ["EXISTS"] + keys, env) == Outcome(db, Value(Integer(|Places(db, keys, env.now)|)))
  {
    var c := C.Exists(keys);
    assert ask(db, Saying(c), env) == Exec(db, c, env);
    assert Saying(c) == ["EXISTS"] + keys;
    CountLiveIsPlaces(db, keys, env.now);
  }

  /** KEYS replies with the keys that are there and match; a lone star matches the empty key too. */
  lemma KeysRequest(ask: Asking, db: Db, pattern: Bytes, env: Env)
    requires Obeys(ask)
    ensures var o := ask(db, ["KEYS", pattern], env);
      && o.db == db && o.reply.Members?
      && forall k :: k in o.reply.members <==>
           k in db.data && !Lacks(db, k, env.now) && (pattern == "*" || Pattern.GlobMatch(k, pattern))
  {
    var c := C.Keys(pattern);
    assert ask(db, Saying(c), env) == Exec(db, c, env);
    assert Saying(c) == ["KEYS", pattern];
  }

  /** DBSIZE counts what is stored, expired or not. */
  lemma DbSizeRequest(ask: Asking, db: Db, env: Env)
    requires Obeys(ask)
    ensures ask(db, ["DBSIZE"], env) == Outcome(db, Value(Integer(|db.data|)))
  {
    var c := C.DbSize;
    assert ask(db, Saying(c), env) == Exec(db, c, env);
    assert Saying(c) == ["DBSIZE"];
  }

  /** The ways to ask for FLUSHDB. */
  predicate Flushes(args: seq<Bytes>) {
    args == ["FLUSHDB"] || args == ["FLUSHDB", "SYNC"] || args == ["FLUSHDB", "ASYNC"]
  }

  /** FLUSHDB empties the store, however it is asked to. */
  lemma FlushRequest(ask: Asking, db: Db, args: seq<Bytes>, env: Env)
    requires Obeys(ask) && Flushes(args)
    ensures ask(db, args, env) == Outcome(Db(map[], map[]), Value(SimpleString("OK")))
  {
    var c := C.FlushDb(if |args| == 1 then None else Some(if args[1] == "SYNC" then C.Sync else C.Async));
    assert ask(db, Saying(c), env) == Exec(db, c, env);
    assert Saying(c) == args;
  }

  /** PING replies with its message, or PONG. */
  lemma PingRequest(ask: Asking, db: Db, message: Option<Bytes>, env: Env)
    requires Obeys(ask)
    ensures ask(db, if message.None? then ["PING"] else ["PING", message.value], env) ==
      Outcome(db, Value(if message.None? then SimpleString("PONG") else BulkString(message.value)))
  {
    var c := C.Ping(message);
    assert ask(db, Saying(c), env) == Exec(db, c, env);
    assert Saying(c) == if message.None? then ["PING"] else ["PING", message.value];
  }

  /** There is one database, number 0. */
  lemma SelectRequest(ask: Asking, db: Db, n: nat, env: Env)
    requires Obeys(ask) && n < 256
    ensures var o := ask(db, ["SELECT", DecimalText(n)], env);
      if n == 0 then o == Outcome(db, Value(SimpleString("OK"))) else Refused(db, o)
  {
    var c := C.Select(n);
    assert ask(db, Saying(c), env) == Exec(db, c, env);
    assert Saying(c) == ["SELECT", DecimalText(n)];
  }
}
