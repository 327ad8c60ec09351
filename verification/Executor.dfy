/** Applies commands to the shared store. */
module Executor {
  import opened Bytes
  import opened Decimal
  import opened Resp2
  import opened Database
  import opened Execution
  import C = Command
  import S = Store

  class Executor {
    const store: S.Store

    constructor (store: S.Store)
      ensures this.store == store
    {
      this.store := store;
    }

    /** Applies `c` and replies; `env.now` is the one clock reading the command takes. */
    method Execute(c: C.Command, env: Env) returns (reply: Reply)
      modifies store
      ensures Outcome(store.View(), reply) == Exec(old(store.View()), c, env)
    {
      if IsRead(c) {
        reply := Answer(c, env);
      } else {
        reply := Apply(c, env);
      }
    }

    method Answer(c: C.Command, env: Env) returns (reply: Reply)
      requires IsRead(c)
      ensures reply == Query(store.View(), c, env)
    {
      var now := env.now;
      if c.LLen? || c.LIndex? || c.LRange? {
        reply := AnswerList(c, env);
        return;
      }
      if c.SMembers? || c.SIsMember? || c.SMIsMember? || c.SRandMember? || c.SCard? {
        reply := AnswerSet(c, env);
        return;
      }
      if c.Ttl? || c.PTtl? || c.ExpireTime? || c.PExpireTime? {
        reply := AnswerExpiry(c, env);
        return;
      }
      match c
      case Ping(message) => reply := Value(if message.Some? then BulkString(message.value) else SimpleString("PONG"));
      case Get(key) =>
        var s := store.GetText(key, now);
        reply := if s.Success? then Value(Bulk(s.value)) else ErrorReply(s.error);
      case Exists(keys) => reply := CountExisting(keys, now);
      case MGet(keys) =>
        var values := store.GetMany(keys, now);
        reply := Value(Array(seq(|values|, i requires 0 <= i < |values| => Bulk(values[i]))));
      case StrLen(key) =>
        var s := store.GetText(key, now);
        reply := if s.Failure? then ErrorReply(s.error) else Number(if s.value.Some? then |s.value.value| else 0);
      case Keys(pattern) => reply := ListKeys(pattern, now);
      case Digest(key) =>
        var s := store.GetText(key, now);
        reply := if s.Failure? then ErrorReply(s.error)
                 else if s.value.None? then Value(NullBulkString)
                 else Value(BulkString(HexText(env.digest(s.value.value) % 0x1_0000_0000_0000_0000, 16)));
      case Select(index) => reply := if index != 0 then Value(SimpleError("ERR db")) else OK;
      case DbSize =>
        var n := store.Size();
        reply := Number(n);
    }

    method AnswerList(c: C.Command, env: Env) returns (reply: Reply)
      requires c.LLen? || c.LIndex? || c.LRange?
      ensures reply == Query(store.View(), c, env)
    {
      match c
      case LLen(key) =>
        var r := store.Length(key, env.now);
        reply := NumberReply(r);
      case LIndex(key, index) =>
        var r := store.ElementAt(key, index, env.now);
        reply := if r.Success? then Value(Bulk(r.value)) else ErrorReply(r.error);
      case LRange(key, start, stop) =>
        var r := store.Range(key, start, stop, env.now);
        reply := if r.Success? then Value(BulkArray(r.value)) else ErrorReply(r.error);
    }

    method AnswerSet(c: C.Command, env: Env) returns (reply: Reply)
      requires c.SMembers? || c.SIsMember? || c.SMIsMember? || c.SRandMember? || c.SCard?
      ensures reply == Query(store.View(), c, env)
    {
      var s := store.Members(c.key, env.now);
      if s.Failure? {
        return ErrorReply(s.error);
      }
      match c
      case SMembers(_) => reply := Members(s.value);
      case SIsMember(_, member) => reply := Flag(member in s.value);
      case SMIsMember(_, members) =>
        reply := Value(Array(seq(|members|, i requires 0 <= i < |members| => Integer(if members[i] in s.value then 1 else 0))));
      case SRandMember(_, count) => reply := Sample(s.value, count);
      case SCard(_) => reply := Number(|s.value|);
    }

    method AnswerExpiry(c: C.Command, env: Env) returns (reply: Reply)
      requires c.Ttl? || c.PTtl? || c.ExpireTime? || c.PExpireTime?
      ensures reply == Query(store.View(), c, env)
    {
      var now := env.now;
      match c
      case Ttl(key) => reply := RemainingTime(key, now, 0, SECOND);
      case PTtl(key) => reply := RemainingTime(key, now, 0, MILLISECOND);
      case ExpireTime(key) => reply := RemainingTime(key, now, now / SECOND, SECOND);
      case PExpireTime(key) => reply := RemainingTime(key, now, now / MILLISECOND, MILLISECOND);
    }

    method RemainingTime(key: Key, now: Time, origin: int, unit: nat) returns (reply: Reply)
      requires unit > 0
      ensures reply == ResolveExpiry(store.View(), key, now, origin, unit)
    {
      if key in store.expiry {
        if store.expiry[key] < now {
          return Number(-2);
        }
        return Number(WrapI64(origin + (store.expiry[key] - now) / unit));
      }
      var found := store.Exists(key, now);
      reply := Number(if found then -1 else -2);
    }

    method Apply(c: C.Command, env: Env) returns (reply: Reply)
      requires !IsRead(c)
      modifies store
      ensures Outcome(store.View(), reply) == Mutate(old(store.View()), c, env)
    {
      var now := env.now;
      if IsListWrite(c) {
        reply := ApplyList(c, now);
        return;
      }
      if IsSetWrite(c) {
        reply := ApplySet(c, env);
        return;
      }
      if IsExpiryWrite(c) {
        reply := ApplyExpiry(c, now);
        return;
      }
      match c
      case Set(key, value, options) => reply := SetCommand(key, value, options, env);
      case Delete(keys) => reply := DeleteAll(keys);
      case GetDel(key) =>
        var value := store.TakeValue(key, now);
        reply := if value.None? then Value(NullBulkString)
                 else if value.value.Str? then Value(BulkString(value.value.text))
                 else ErrorReply(WrongType);
      case MSet(items) =>
        store.SetMany(items);
        reply := OK;
      case FlushDb(_) =>
        store.Clear();
        reply := OK;
    }

    method ApplyList(c: C.Command, now: Time) returns (reply: Reply)
      requires IsListWrite(c)
      modifies store
      ensures Outcome(store.View(), reply) == MutateList(old(store.View()), c, now)
    {
      match c
      case LPush(key, es) => reply := PushElements(key, es, true, Front, now);
      case RPush(key, es) => reply := PushElements(key, es, true, Back, now);
      case LPushX(key, es) => reply := PushElements(key, es, false, Front, now);
      case RPushX(key, es) => reply := PushElements(key, es, false, Back, now);
      case LPop(key, count) =>
        var r := store.PopElements(key, CountOr1(count), Front, now);
        reply := PopReply(r, count.None?);
      case RPop(key, count) =>
        var r := store.PopElements(key, CountOr1(count), Back, now);
        reply := PopReply(r, count.None?);
      case LSet(key, index, element) =>
        var r := store.SetElement(key, index, element, now);
        reply := if r.Success? then OK else ErrorReply(r.error);
    }

    method ApplySet(c: C.Command, env: Env) returns (reply: Reply)
      requires IsSetWrite(c)
      modifies store
      ensures Outcome(store.View(), reply) == MutateSet(old(store.View()), c, env)
    {
      var now := env.now;
      match c
      case SAdd(key, members) =>
        var r := store.AddMembers(key, members, now);
        reply := NumberReply(r);
      case SMove(source, destination, member) =>
        var r := store.MoveMember(source, destination, member, now);
        reply := if r.Success? then Flag(r.value) else ErrorReply(r.error);
      case SPop(key, count) =>
        var r := store.PopMembers(key, CountOr1(count), env.draw, now);
        reply := PopMembersReply(r, count.None?);
      case SRem(key, members) =>
        var r := store.RemoveMembers(key, members, now);
        reply := NumberReply(r);
    }

    method ApplyExpiry(c: C.Command, now: Time) returns (reply: Reply)
      requires IsExpiryWrite(c)
      modifies store
      ensures Outcome(store.View(), reply) == MutateExpiry(old(store.View()), c, now)
    {
      match c
      case Persist(key) =>
        var removed := store.Persist(key);
        reply := Flag(removed);
      case Expire(key, n) => reply := SetRelative(key, n * SECOND, now);
      case PExpire(key, n) => reply := SetRelative(key, n * MILLISECOND, now);
      case ExpireAt(key, n) => reply := SetAbsolute(key, n, SECOND, now);
      case PExpireAt(key, n) => reply := SetAbsolute(key, n, MILLISECOND, now);
    }

    method SetRelative(key: Key, delay: nat, now: Time) returns (reply: Reply)
      modifies store
      ensures Outcome(store.View(), reply) == ExpireIn(old(store.View()), key, now, delay)
    {
      if now + delay >= INSTANT_LIMIT {
        return Value(SimpleError("ERR expire"));
      }
      var stored := store.SetDeadline(key, now + delay);
      reply := Flag(stored);
    }

    method SetAbsolute(key: Key, deadline: nat, unit: nat, now: Time) returns (reply: Reply)
      requires unit > 0
      modifies store
      ensures Outcome(store.View(), reply) == ExpireAtUnix(old(store.View()), key, now, deadline, unit)
    {
      if deadline <= now / unit {
        var existed := store.Delete(key);
        return Number(0);
      }
      var instant := UnixToInstant(deadline, now, unit);
      if instant >= INSTANT_LIMIT {
        return Panics;
      }
      var stored := store.SetDeadline(key, instant);
      reply := Flag(stored);
    }

    method SetCommand(key: Key, value: Bytes, options: C.SetOptions, env: Env) returns (reply: Reply)
      modifies store
      ensures Outcome(store.View(), reply) == ExecSet(old(store.View()), key, value, options, env)
    {
      var prev := store.GetText(key, env.now);
      if prev.Failure? {
        return ErrorReply(prev.error);
      }
      if !ConditionMet(options.condition, prev.value, env.digest) {
        return Value(if options.get then Bulk(prev.value) else NullBulkString);
      }
      var prevTtl := PrevTtl(store.View(), key);
      store.SetValue(key, Str(value));
      match DeadlineFor(options.expiry, prevTtl, env.now) {
        case Never =>
        case At(t) =>
          var stored := store.SetDeadline(key, t);
        case Invalid =>
          return Value(SimpleError("ERR expire"));
        case Overflow =>
          return Panics;
      }
      reply := if options.get then Value(Bulk(prev.value)) else OK;
    }

    method DeleteAll(keys: seq<Key>) returns (reply: Reply)
      modifies store
      ensures Outcome(store.View(), reply) == ExecDelete(old(store.View()), keys)
    {
      var count := 0;
      ghost var physical := old(store.data).Keys;
      for i := 0 to |keys|
        invariant store.View() == Remove(old(store.View()), ToSet(keys[..i]))
        invariant count == |ToSet(keys[..i]) * physical|
      {
        var existed := store.Delete(keys[i]);
        DeleteStep(old(store.View()), keys, i);
        if existed {
          count := count + 1;
        }
      }
      assert keys[..|keys|] == keys;
      reply := Number(count);
    }

    method CountExisting(keys: seq<Key>, now: Time) returns (reply: Reply)
      ensures reply == Number(CountLive(store.View(), keys, now))
    {
      var count := 0;
      for i := 0 to |keys|
        invariant count == CountLive(store.View(), keys[..i], now)
      {
        var found := store.Exists(keys[i], now);
        assert keys[..i + 1][..i] == keys[..i];
        if found {
          count := count + 1;
        }
      }
      assert keys[..|keys|] == keys;
      reply := Number(count);
    }

    method ListKeys(pattern: Bytes, now: Time) returns (reply: Reply)
      ensures reply == Members(MatchingKeys(store.View(), pattern, now))
    {
      var keys := store.Keys(pattern, now);
      assert ToSet(keys) == MatchingKeys(store.View(), pattern, now);
      reply := Members(ToSet(keys));
    }

    method PushElements(key: Key, elements: seq<Bytes>, create: bool, end: End, now: Time) returns (reply: Reply)
      modifies store
      ensures Outcome(store.View(), reply) == ExecPush(old(store.View()), key, elements, create, end, now)
    {
      var size := 0;
      for i := 0 to |elements|
        invariant (store.View(), Success(size)) == PushAll(old(store.View()), key, elements[..i], create, end, now)
      {
        var r := store.PushElement(key, elements[i], create, end, now);
        assert elements[..i + 1][..i] == elements[..i];
        if r.Failure? {
          PushAllFails(old(store.View()), key, elements, i + 1, create, end, now);
          return ErrorReply(r.error);
        }
        size := r.value;
      }
      assert elements[..|elements|] == elements;
      reply := Number(size);
    }
  }

  lemma DeleteStep(db: Db, keys: seq<Key>, i: nat)
    requires i < |keys|
    ensures var seen := ToSet(keys[..i]);
      && Remove(Remove(db, seen), {keys[i]}) == Remove(db, ToSet(keys[..i + 1]))
      && |ToSet(keys[..i + 1]) * db.data.Keys| ==
         |seen * db.data.Keys| + if keys[i] in Remove(db, seen).data then 1 else 0
  {
    var seen, k := ToSet(keys[..i]), keys[i];
    assert ToSet(keys[..i + 1]) == seen + {k};
    RemoveTwice(db, seen, k);
    CountStep(seen, db.data.Keys, k);
  }

  lemma RemoveTwice(db: Db, seen: set<Key>, k: Key)
    ensures Remove(Remove(db, seen), {k}) == Remove(db, seen + {k})
  {
  }

  lemma CountStep(seen: set<Key>, physical: set<Key>, k: Key)
    ensures |(seen + {k}) * physical| == |seen * physical| + if k in physical - seen then 1 else 0
  {
    assert (seen + {k}) * physical == if k in physical - seen then (seen * physical) + {k} else seen * physical;
  }

  /** A push that fails stops the loop with nothing more pushed. */
  lemma {:induction false} PushAllFails(db: Db, key: Key, elements: seq<Bytes>, n: nat, create: bool, end: End, now: Time)
    requires n <= |elements| && PushAll(db, key, elements[..n], create, end, now).1.Failure?
    ensures PushAll(db, key, elements, create, end, now) == PushAll(db, key, elements[..n], create, end, now)
  {
    if n == |elements| {
      assert elements[..n] == elements;
    } else {
      var shorter := elements[..|elements| - 1];
      assert shorter[..n] == elements[..n];
      PushAllFails(db, key, shorter, n, create, end, now);
    }
  }
}
