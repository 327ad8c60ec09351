/** String commands: what SET with its options and MSET leave behind. */
module Strings {
  import opened Bytes
  import opened Database
  import opened Execution
  import C = Command
  import L = Lists

  /** The last pair for `key`, if any. */
  ghost predicate LastPair(items: seq<(Key, Bytes)>, key: Key, i: nat) {
    i < |items| && items[i].0 == key && forall j :: i < j < |items| ==> items[j].0 != key
  }

  /** MSET gives every named key its last value and no deadline, and leaves every other key alone. */
  lemma {:induction false} MSetLastWins(db: Db, items: seq<(Key, Bytes)>, key: Key, i: nat)
    requires LastPair(items, key, i)
    ensures var db' := MSet(db, items);
      key in db'.data && db'.data[key] == Str(items[i].1) && key !in db'.expiry
  {
    var n := |items| - 1;
    if items[n].0 != key {
      assert LastPair(items[..n], key, i);
      MSetLastWins(db, items[..n], key, i);
    }
  }

  lemma {:induction false} MSetLeavesOthers(db: Db, items: seq<(Key, Bytes)>, key: Key)
    requires forall i :: 0 <= i < |items| ==> items[i].0 != key
    ensures var db' := MSet(db, items);
      && (key in db'.data <==> key in db.data) && (key in db.data ==> db'.data[key] == db.data[key])
      && PrevTtl(db', key) == PrevTtl(db, key)
  {
    if items != [] {
      MSetLeavesOthers(db, items[..|items| - 1], key);
    }
  }

  /** Whether SET writes: the key holds no other type, and its condition is met by the value it holds. */
  predicate Writes(db: Db, key: Key, options: C.SetOptions, env: Env) {
    var prev := GetString(db, key, env.now);
    prev.Success? && ConditionMet(options.condition, prev.value, env.digest)
  }

  /** A SET that does not write changes nothing; one that does leaves the value with exactly the deadline asked for. */
  lemma SetEffect(db: Db, key: Key, value: Bytes, options: C.SetOptions, env: Env)
    ensures var o := ExecSet(db, key, value, options, env);
      && (!Writes(db, key, options, env) ==> o.db == db)
      && (Writes(db, key, options, env) ==>
          && o.db.data == db.data[key := Str(value)]
          && o.db.expiry - {key} == db.expiry - {key}
          && var d := DeadlineFor(options.expiry, PrevTtl(db, key), env.now);
             PrevTtl(o.db, key) == if d.At? then Some(d.time) else None)
  {
    var o := ExecSet(db, key, value, options, env);
    if Writes(db, key, options, env) {
      var written := Put(db, key, Str(value));
      assert written.expiry - {key} == db.expiry - {key};
      var d := DeadlineFor(options.expiry, PrevTtl(db, key), env.now);
      if d.At? {
        assert SetTtl(written, key, d.time).expiry - {key} == db.expiry - {key};
      }
    }
  }

  /** With GET, SET replies with what GET would have, or with GET's own error, whatever the condition says. */
  lemma SetGetReply(db: Db, key: Key, value: Bytes, options: C.SetOptions, env: Env)
    requires options.get
    requires Writes(db, key, options, env) ==>
      var d := DeadlineFor(options.expiry, PrevTtl(db, key), env.now); d.Never? || d.At?
    ensures ExecSet(db, key, value, options, env).reply == ExecGet(db, key, env.now)
  {
  }

  function With(options: C.SetOptions, condition: C.SetCondition): C.SetOptions {
    options.(condition := Some(condition))
  }

  /** What each condition asks of the key: NX that it is missing, XX that it is there, the others which string is there. */
  lemma ConditionMeaning(db: Db, key: Key, options: C.SetOptions, text: Bytes, s: Bytes, digest: int, env: Env)
    requires GetString(db, key, env.now).Success?
    ensures var present, v := Live(db, key, env.now), Lookup(db, key, env.now);
      && Writes(db, key, With(options, C.NX), env) == !present
      && Writes(db, key, With(options, C.XX), env) == present
      && Writes(db, key, With(options, C.IfEq(text)), env) == (v == Some(Str(text)))
      && Writes(db, key, With(options, C.IfNe(text)), env) == (present && v != Some(Str(text)))
      && (v == Some(Str(s)) ==>
          && Writes(db, key, With(options, C.IfDeq(digest)), env) == (env.digest(s) == digest)
          && Writes(db, key, With(options, C.IfDne(digest)), env) == (env.digest(s) != digest))
      && (!present ==>
          !Writes(db, key, With(options, C.IfDeq(digest)), env) && !Writes(db, key, With(options, C.IfDne(digest)), env))
  {
  }

  // ----- Where strings come from -----

  ghost predicate Holds(db: Db, key: Key, s: Bytes) {
    key in db.data && db.data[key] == Str(s)
  }

  lemma {:induction false} MSetStores(db: Db, items: seq<(Key, Bytes)>, key: Key, s: Bytes)
    requires Holds(MSet(db, items), key, s)
    ensures Holds(db, key, s) || s in C.StoredBy(C.MSet(items))
  {
    if items != [] {
      var n := |items| - 1;
      var stored := C.StoredBy(C.MSet(items));
      assert stored[n] == items[n].1;
      if items[n].0 != key {
        MSetStores(db, items[..n], key, s);
        if !Holds(db, key, s) {
          var i :| 0 <= i < n && C.StoredBy(C.MSet(items[..n]))[i] == s;
          assert stored[i] == s;
        }
      }
    }
  }

  lemma ListStoresNone(db: Db, c: C.Command, now: Time, key: Key, s: Bytes)
    requires IsListWrite(c) && C.WellFormed(c) && Holds(MutateList(db, c, now).db, key, s)
    ensures Holds(db, key, s)
  {
    match c
    case LPush(k, es) => L.PushAllResult(db, k, es, true, Front, now);
    case RPush(k, es) => L.PushAllResult(db, k, es, true, Back, now);
    case LPushX(k, es) => L.PushAllResult(db, k, es, false, Front, now);
    case RPushX(k, es) => L.PushAllResult(db, k, es, false, Back, now);
    case LPop(_, _) =>
    case RPop(_, _) =>
    case LSet(_, _, _) =>
  }

  lemma SMoveStoresNone(db: Db, source: Key, destination: Key, member: Bytes, now: Time, key: Key, s: Bytes)
    requires Holds(SMove(db, source, destination, member, now).0, key, s)
    ensures Holds(db, key, s)
  {
    match Lookup(db, source, now)
    case Some(Set(m)) => assert Holds(TakeMember(db, source, m, member), key, s) ==> Holds(db, key, s);
    case _ =>
  }

  lemma SetStoresNone(db: Db, c: C.Command, env: Env, key: Key, s: Bytes)
    requires IsSetWrite(c) && Holds(MutateSet(db, c, env).db, key, s)
    ensures Holds(db, key, s)
  {
    match c
    case SMove(source, destination, member) => SMoveStoresNone(db, source, destination, member, env.now, key, s);
    case SAdd(_, _) =>
    case SRem(_, _) =>
    case SPop(_, _) =>
  }

  lemma ExpiryStoresNone(db: Db, c: C.Command, now: Time, key: Key, s: Bytes)
    requires IsExpiryWrite(c) && Holds(MutateExpiry(db, c, now).db, key, s)
    ensures Holds(db, key, s)
  {
  }

  lemma GroupedStoresNone(db: Db, c: C.Command, env: Env, key: Key, s: Bytes)
    requires (IsListWrite(c) || IsSetWrite(c) || IsExpiryWrite(c)) && C.WellFormed(c) && Holds(Exec(db, c, env).db, key, s)
    ensures Holds(db, key, s)
  {
    if IsExpiryWrite(c) {
      ExpiryStoresNone(db, c, env.now, key, s);
    } else {
      MembersStoreNone(db, c, env, key, s);
    }
  }

  lemma MembersStoreNone(db: Db, c: C.Command, env: Env, key: Key, s: Bytes)
    requires (IsListWrite(c) || IsSetWrite(c)) && C.WellFormed(c) && Holds(Exec(db, c, env).db, key, s)
    ensures Holds(db, key, s)
  {
    if IsListWrite(c) {
      ListStoresNone(db, c, env.now, key, s);
    } else {
      SetStoresNone(db, c, env, key, s);
    }
  }

  /** No string is stored that was not stored before or sent with the command. */
  lemma OnlySentStrings(db: Db, c: C.Command, env: Env, key: Key, s: Bytes)
    requires C.WellFormed(c) && Holds(Exec(db, c, env).db, key, s)
    ensures Holds(db, key, s) || s in C.StoredBy(c)
  {
    if IsListWrite(c) || IsSetWrite(c) || IsExpiryWrite(c) {
      GroupedStoresNone(db, c, env, key, s);
    } else if c.Set? {
      var Set(k, value, options) := c;
      SetEffect(db, k, value, options, env);
      assert C.StoredBy(c)[0] == value;
    } else if c.MSet? {
      MSetStores(db, c.items, key, s);
    }
  }
}
