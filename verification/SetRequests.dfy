/** Requests about sets, told on the set that is stored. */
module SetRequests {
  import opened Bytes
  import opened Decimal
  import opened Resp2
  import opened Database
  import opened Execution
  import opened Words
  import opened Requests
  import C = Command

  /** A set command finds something else at the key. */
  predicate HasNoSet(db: Db, key: Key, now: Time) {
    key in db.data && !db.data[key].Set? && (key in db.expiry ==> now < db.expiry[key])
  }

  /** SADD adds the members to the set, or makes one, and replies with how many were new. */
  lemma SAddRequest(ask: Asking, db: Db, key: Key, ms: seq<Bytes>, s: set<Bytes>, env: Env)
    requires Obeys(ask) && ms != []
    ensures var o, added := ask(db, ["SADD", key] + ms, env), set m | m in ms;
      && (Has(db, key, env.now, Set(s)) ==>
          o == Outcome(Db(db.data[key := Set(s + added)], db.expiry), Value(Integer(|s + added| - |s|))))
      && (Lacks(db, key, env.now) ==> o == Outcome(Db(db.data[key := Set(added)], db.expiry - {key}), Value(Integer(|added|))))
      && (HasNoSet(db, key, env.now) ==> Refused(db, o))
  {
    var c := C.SAdd(key, ms);
    assert ask(db, Saying(c), env) == Exec(db, c, env);
    assert Saying(c) == ["SADD", key] + ms;
    Growth(s, set m | m in ms);
  }

  lemma Growth(s: set<Bytes>, added: set<Bytes>)
    ensures |added - s| == |s + added| - |s|
  {
    assert s + added == s + (added - s);
    assert |s + (added - s)| == |s| + |added - s|;
  }

  lemma Shrinkage(s: set<Bytes>, removed: set<Bytes>)
    ensures |s * removed| == |s| - |s - removed|
  {
    assert s == (s - removed) + (s * removed);
    assert |(s - removed) + (s * removed)| == |s - removed| + |s * removed|;
  }

  /** SREM takes the members out of the set, which stays even if it is left empty, and replies with how many were there. */
  lemma SRemRequest(ask: Asking, db: Db, key: Key, ms: seq<Bytes>, s: set<Bytes>, env: Env)
    requires Obeys(ask) && ms != []
    ensures var o, removed := ask(db, ["SREM", key] + ms, env), set m | m in ms;
      && (Has(db, key, env.now, Set(s)) ==>
          o == Outcome(Db(db.data[key := Set(s - removed)], db.expiry), Value(Integer(|s| - |s - removed|))))
      && (Lacks(db, key, env.now) ==> o == Outcome(db, Value(Integer(0))))
      && (HasNoSet(db, key, env.now) ==> Refused(db, o))
  {
    var c := C.SRem(key, ms);
    assert ask(db, Saying(c), env) == Exec(db, c, env);
    assert Saying(c) == ["SREM", key] + ms;
    Shrinkage(s, set m | m in ms);
  }

  /** SMEMBERS replies with the members, SCARD with their number, SRANDMEMBER with a sample of them. */
  lemma SMembersRequest(ask: Asking, db: Db, key: Key, s: set<Bytes>, env: Env)
    requires Obeys(ask)
    ensures var o := ask(db, ["SMEMBERS", key], env);
      && (Has(db, key, env.now, Set(s)) ==> o == Outcome(db, Members(s)))
      && (Lacks(db, key, env.now) ==> o == Outcome(db, Members({})))
      && (HasNoSet(db, key, env.now) ==> Refused(db, o))
  {
    var c := C.SMembers(key);
    assert ask(db, Saying(c), env) == Exec(db, c, env);
    assert Saying(c) == ["SMEMBERS", key];
  }

  lemma SCardRequest(ask: Asking, db: Db, key: Key, s: set<Bytes>, env: Env)
    requires Obeys(ask)
    ensures var o := ask(db, ["SCARD", key], env);
      && (Has(db, key, env.now, Set(s)) ==> o == Outcome(db, Value(Integer(|s|))))
      && (Lacks(db, key, env.now) ==> o == Outcome(db, Value(Integer(0))))
      && (HasNoSet(db, key, env.now) ==> Refused(db, o))
  {
    var c := C.SCard(key);
    assert ask(db, Saying(c), env) == Exec(db, c, env);
    assert Saying(c) == ["SCARD", key];
  }

  lemma SRandMemberRequest(ask: Asking, db: Db, key: Key, n: int, s: set<Bytes>, env: Env)
    requires Obeys(ask) && -0x8000_0000_0000_0000 <= n < 0x8000_0000_0000_0000
    ensures var o, o' := ask(db, ["SRANDMEMBER", key], env), ask(db, ["SRANDMEMBER", key, DecimalText(n)], env);
      && (Has(db, key, env.now, Set(s)) ==> o == Outcome(db, Sample(s, None)) && o' == Outcome(db, Sample(s, Some(n))))
      && (Lacks(db, key, env.now) ==> o == Outcome(db, Sample({}, None)) && o' == Outcome(db, Sample({}, Some(n))))
      && (HasNoSet(db, key, env.now) ==> Refused(db, o) && Refused(db, o'))
  {
    var c, c' := C.SRandMember(key, None), C.SRandMember(key, Some(n));
    assert ask(db, Saying(c), env) == Exec(db, c, env) && ask(db, Saying(c'), env) == Exec(db, c', env);
    assert Saying(c) == ["SRANDMEMBER", key] && Saying(c') == ["SRANDMEMBER", key, DecimalText(n)];
  }

  /** SISMEMBER replies 1 for a member and 0 otherwise, SMISMEMBER so for each in turn. */
  lemma SIsMemberRequest(ask: Asking, db: Db, key: Key, m: Bytes, s: set<Bytes>, env: Env)
    requires Obeys(ask)
    ensures var o := ask(db, ["SISMEMBER", key, m], env);
      && (Has(db, key, env.now, Set(s)) ==> o == Outcome(db, Value(Integer(if m in s then 1 else 0))))
      && (Lacks(db, key, env.now) ==> o == Outcome(db, Value(Integer(0))))
      && (HasNoSet(db, key, env.now) ==> Refused(db, o))
  {
    var c := C.SIsMember(key, m);
    assert ask(db, Saying(c), env) == Exec(db, c, env);
    assert Saying(c) == ["SISMEMBER", key, m];
  }

  lemma SMIsMemberRequest(ask: Asking, db: Db, key: Key, ms: seq<Bytes>, i: nat, s: set<Bytes>, env: Env)
    requires Obeys(ask) && i < |ms|
    ensures var o := ask(db, ["SMISMEMBER", key] + ms, env);
      && (Has(db, key, env.now, Set(s)) || Lacks(db, key, env.now) ==>
          && o.db == db && o.reply.Value? && o.reply.value.Array? && |o.reply.value.items| == |ms|
          && o.reply.value.items[i] == Integer(if !Lacks(db, key, env.now) && ms[i] in s then 1 else 0))
      && (HasNoSet(db, key, env.now) ==> Refused(db, o))
  {
    var c := C.SMIsMember(key, ms);
    assert ask(db, Saying(c), env) == Exec(db, c, env);
    assert Saying(c) == ["SMISMEMBER", key] + ms;
  }

  /** The store without the member in the set, which goes with its deadline when it is emptied. */
  function Without(db: Db, key: Key, s: set<Bytes>, gone: set<Bytes>): Db {
    if s <= gone then Db(db.data - {key}, db.expiry - {key}) else Db(db.data[key := Set(s - gone)], db.expiry)
  }

  lemma Emptied(s: set<Bytes>, gone: set<Bytes>)
    ensures s <= gone <==> s - gone == {}
  {
    if s - gone == {} {
      forall x | x in s ensures x in gone {
        assert x !in s - gone;
      }
    }
  }

  lemma AskSMove(ask: Asking, db: Db, source: Key, destination: Key, m: Bytes, env: Env)
    requires Obeys(ask)
    ensures ask(db, ["SMOVE", source, destination, m], env) == ExecSMove(db, source, destination, m, env.now)
  {
    var c := C.SMove(source, destination, m);
    assert ask(db, Saying(c), env) == Exec(db, c, env);
    assert Saying(c) == ["SMOVE", source, destination, m];
  }

  /** SMOVE to another key: the member leaves the one set and joins the other, or founds it. */
  lemma SMoveRequest(ask: Asking, db: Db, source: Key, destination: Key, m: Bytes, s: set<Bytes>, t: set<Bytes>, env: Env)
    requires Obeys(ask) && source != destination && Has(db, source, env.now, Set(s)) && m in s
    ensures var o, left := ask(db, ["SMOVE", source, destination, m], env), Without(db, source, s, {m});
      && (Has(db, destination, env.now, Set(t)) ==>
          o == Outcome(Db(left.data[destination := Set(t + {m})], left.expiry), Value(Integer(1))))
      && (Lacks(db, destination, env.now) ==>
          o == Outcome(Db(left.data[destination := Set({m})], left.expiry - {destination}), Value(Integer(1))))
      && (HasNoSet(db, destination, env.now) ==> Refused(db, o))
  {
    AskSMove(ask, db, source, destination, m, env);
    Emptied(s, {m});
  }

  /** SMOVE to the same key keeps the set, though a lone member's set loses its deadline. */
  lemma SMoveOntoRequest(ask: Asking, db: Db, key: Key, m: Bytes, s: set<Bytes>, env: Env)
    requires Obeys(ask) && Has(db, key, env.now, Set(s)) && m in s
    ensures ask(db, ["SMOVE", key, key, m], env) ==
      Outcome(if s == {m} then Db(db.data, db.expiry - {key}) else db, Value(Integer(1)))
  {
    AskSMove(ask, db, key, key, m, env);
    assert s - {m} + {m} == s && (s == {m} <==> s - {m} == {});
    assert db.data[key := Set(s)] == db.data && (db.data - {key})[key := Set(s)] == db.data;
    assert db.data[key := Set(s - {m})][key := Set(s)] == db.data;
    assert db.expiry - {key} - {key} == db.expiry - {key};
  }

  /** SMOVE of what is not there changes nothing, and from another type is refused. */
  lemma SMoveNothingRequest(ask: Asking, db: Db, source: Key, destination: Key, m: Bytes, s: set<Bytes>, env: Env)
    requires Obeys(ask)
    ensures var o := ask(db, ["SMOVE", source, destination, m], env);
      && (Lacks(db, source, env.now) ==> o == Outcome(db, Value(Integer(0))))
      && (Has(db, source, env.now, Set(s)) && m !in s && !HasNoSet(db, destination, env.now) ==> o == Outcome(db, Value(Integer(0))))
      && (HasNoSet(db, source, env.now) ==> Refused(db, o))
  {
    AskSMove(ask, db, source, destination, m, env);
  }

  lemma AskSPop(ask: Asking, db: Db, key: Key, count: Option<nat>, env: Env)
    requires Obeys(ask) && (count.Some? ==> count.value < 0x1_0000_0000_0000_0000)
    ensures ask(db, ["SPOP", key] + Amount(count), env) == ExecSPop(db, key, count, env)
  {
    var c := C.SPop(key, count);
    assert ask(db, Saying(c), env) == Exec(db, c, env);
    assert Saying(c) == ["SPOP", key] + Amount(count);
  }

  /** SPOP takes what is drawn out of the set and replies with it. */
  lemma SPopRequest(ask: Asking, db: Db, key: Key, n: nat, s: set<Bytes>, env: Env)
    requires Obeys(ask) && n < 0x1_0000_0000_0000_0000
    ensures var o, drawn := ask(db, ["SPOP", key, DecimalText(n)], env), env.draw(s, n);
      && (Has(db, key, env.now, Set(s)) ==> o == Outcome(Without(db, key, s, drawn), Members(drawn)))
      && (Lacks(db, key, env.now) ==> o == Outcome(db, Members({})))
      && (HasNoSet(db, key, env.now) ==> Refused(db, o))
  {
    AskSPop(ask, db, key, Some(n), env);
    assert ["SPOP", key] + Amount(Some(n)) == ["SPOP", key, DecimalText(n)];
    Emptied(s, env.draw(s, n));
  }

  /** Without a number it draws one member. */
  lemma SPopOneRequest(ask: Asking, db: Db, key: Key, s: set<Bytes>, env: Env)
    requires Obeys(ask)
    ensures var o, drawn := ask(db, ["SPOP", key], env), env.draw(s, 1);
      && (Has(db, key, env.now, Set(s)) ==>
          o == Outcome(Without(db, key, s, drawn), if drawn == {} then Value(NullBulkString) else OneOf(drawn)))
      && (Lacks(db, key, env.now) ==> o == Outcome(db, Value(NullBulkString)))
      && (HasNoSet(db, key, env.now) ==> Refused(db, o))
  {
    AskSPop(ask, db, key, None, env);
    assert ["SPOP", key] + Amount(None) == ["SPOP", key];
    Emptied(s, env.draw(s, 1));
  }
}
