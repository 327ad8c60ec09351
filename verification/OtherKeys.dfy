/** Requests and the keys they do not mention. */
module OtherKeys {
  import opened Bytes
  import opened Database
  import opened Execution
  import opened Words
  import opened Requests
  import C = Command
  import L = Lists
  import Strings

  lemma ListLeaves(db: Db, c: C.Command, now: Time, key: Key)
    requires IsListWrite(c) && C.WellFormed(c) && key != c.key
    ensures SameAt(db, MutateList(db, c, now).db, key)
  {
    match c
    case LPush(k, es) => L.PushAllResult(db, k, es, true, Front, now);
    case RPush(k, es) => L.PushAllResult(db, k, es, true, Back, now);
    case LPushX(k, es) => L.PushAllResult(db, k, es, false, Front, now);
    case RPushX(k, es) => L.PushAllResult(db, k, es, false, Back, now);
    case LPop(_, _) =>
    case RPop(_, _) =>
    case LSet(_, _, _) =>
  }

  lemma SMoveLeaves(db: Db, source: Key, destination: Key, m: Bytes, now: Time, key: Key)
    requires key != source && key != destination
    ensures SameAt(db, SMove(db, source, destination, m, now).0, key)
  {
    match Lookup(db, source, now)
    case Some(Set(s)) => assert SameAt(db, TakeMember(db, source, s, m), key);
    case _ =>
  }

  lemma SetLeaves(db: Db, c: C.Command, env: Env, key: Key)
    requires IsSetWrite(c) && key !in Operands(c)
    ensures SameAt(db, MutateSet(db, c, env).db, key)
  {
    match c
    case SMove(source, destination, m) =>
      assert Operands(c)[0] == source && Operands(c)[1] == destination;
      SMoveLeaves(db, source, destination, m, env.now, key);
    case SAdd(k, ms) => assert Operands(c)[0] == k;
    case SRem(k, ms) => assert Operands(c)[0] == k;
    case SPop(k, _) => assert Operands(c)[0] == k;
  }

  lemma ExpiryLeaves(db: Db, c: C.Command, now: Time, key: Key)
    requires IsExpiryWrite(c) && key != c.key
    ensures SameAt(db, MutateExpiry(db, c, now).db, key)
  {
  }

  lemma {:induction false} PairKey(items: seq<(Key, Bytes)>, i: nat)
    requires i < |items|
    ensures items[i].0 in PairWords(items)
  {
    if i > 0 {
      PairKey(items[1..], i - 1);
    }
  }

  lemma MSetLeaves(db: Db, items: seq<(Key, Bytes)>, key: Key)
    requires key !in PairWords(items)
    ensures SameAt(db, MSet(db, items), key)
  {
    forall i | 0 <= i < |items| ensures items[i].0 != key {
      PairKey(items, i);
    }
    Strings.MSetLeavesOthers(db, items, key);
  }

  lemma FirstOperand(c: C.Command)
    requires IsListWrite(c) || IsExpiryWrite(c) || c.Set? || c.GetDel?
    ensures c.key in Operands(c)
  {
    assert Operands(c)[0] == c.key;
  }

  lemma SetKeyLeaves(db: Db, k: Key, value: Bytes, options: C.SetOptions, env: Env, key: Key)
    requires key != k
    ensures SameAt(db, ExecSet(db, k, value, options, env).db, key)
  {
    var o := ExecSet(db, k, value, options, env);
    Strings.SetEffect(db, k, value, options, env);
    if o.db != db {
      assert key in o.db.expiry <==> key in o.db.expiry - {k};
      assert key in db.expiry <==> key in db.expiry - {k};
    }
  }

  lemma StringLeaves(db: Db, c: C.Command, env: Env, key: Key)
    requires (c.Set? || c.GetDel?) && key != c.key
    ensures SameAt(db, Mutate(db, c, env).db, key)
  {
    if c.Set? {
      SetKeyLeaves(db, c.key, c.value, c.options, env, key);
    }
  }

  lemma ManyLeave(db: Db, c: C.Command, env: Env, key: Key)
    requires (c.Delete? || c.MSet?) && key !in Operands(c)
    ensures SameAt(db, Mutate(db, c, env).db, key)
  {
    if c.MSet? {
      MSetLeaves(db, c.items, key);
    }
  }

  lemma GroupLeaves(db: Db, c: C.Command, env: Env, key: Key)
    requires C.WellFormed(c) && (IsListWrite(c) || IsSetWrite(c) || IsExpiryWrite(c)) && key !in Operands(c)
    ensures SameAt(db, Mutate(db, c, env).db, key)
  {
    if IsSetWrite(c) {
      SetLeaves(db, c, env, key);
    } else if IsListWrite(c) {
      FirstOperand(c);
      ListLeaves(db, c, env.now, key);
    } else {
      FirstOperand(c);
      ExpiryLeaves(db, c, env.now, key);
    }
  }

  lemma MutateLeaves(db: Db, c: C.Command, env: Env, key: Key)
    requires C.WellFormed(c) && !IsRead(c) && !c.FlushDb? && key !in Operands(c)
    ensures SameAt(db, Mutate(db, c, env).db, key)
  {
    if c.Set? || c.GetDel? {
      FirstOperand(c);
      StringLeaves(db, c, env, key);
    } else if c.Delete? || c.MSet? {
      ManyLeave(db, c, env, key);
    } else {
      GroupLeaves(db, c, env, key);
    }
  }

  /** A request changes nothing at a key it does not mention, unless it is FLUSHDB. */
  lemma LeavesOthers(ask: Asking, db: Db, c: C.Command, env: Env, key: Key)
    requires Obeys(ask) && Sayable(c) && !c.FlushDb? && key !in Operands(c)
    ensures SameAt(db, ask(db, Saying(c), env).db, key)
  {
    assert ask(db, Saying(c), env) == Exec(db, c, env);
    if !IsRead(c) {
      MutateLeaves(db, c, env, key);
    }
  }
}
