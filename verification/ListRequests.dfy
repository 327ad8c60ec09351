/** Requests about lists, told on the list that is stored. */
module ListRequests {
  import opened Bytes
  import opened Decimal
  import opened Resp2
  import opened Database
  import opened Execution
  import opened Words
  import opened Requests
  import C = Command
  import L = Lists

  /** A list command finds something else at the key. */
  predicate HasNoList(db: Db, key: Key, now: Time) {
    key in db.data && !db.data[key].List? && (key in db.expiry ==> now < db.expiry[key])
  }

  /** The words that push, the end they push to, and whether they create the list. */
  predicate Pushes(word: Bytes, left: bool, creates: bool) {
    || (word == "LPUSH" && left && creates) || (word == "RPUSH" && !left && creates)
    || (word == "LPUSHX" && left && !creates) || (word == "RPUSHX" && !left && !creates)
  }

  /** The elements in the order in which they were given, seen from the end they were pushed to. */
  predicate IsPushed(pushed: seq<Bytes>, xs: seq<Bytes>, es: seq<Bytes>, left: bool) {
    && |pushed| == |xs| + |es|
    && if left
       then pushed[|es|..] == xs && forall i :: 0 <= i < |es| ==> pushed[i] == es[|es| - 1 - i]
       else pushed[..|xs|] == xs && pushed[|xs|..] == es
  }

  function PushOf(left: bool, creates: bool, key: Key, es: seq<Bytes>): C.Command {
    if left then if creates then C.LPush(key, es) else C.LPushX(key, es)
    else if creates then C.RPush(key, es) else C.RPushX(key, es)
  }

  lemma PushSaying(word: Bytes, left: bool, creates: bool, key: Key, es: seq<Bytes>)
    requires Pushes(word, left, creates)
    ensures Saying(PushOf(left, creates, key, es)) == [word, key] + es
  {
  }

  lemma AskPush(ask: Asking, db: Db, word: Bytes, left: bool, creates: bool, key: Key, es: seq<Bytes>, env: Env)
    requires Obeys(ask) && Pushes(word, left, creates) && es != []
    ensures ask(db, [word, key] + es, env) == ExecPush(db, key, es, creates, if left then Front else Back, env.now)
  {
    var c := PushOf(left, creates, key, es);
    PushSaying(word, left, creates, key, es);
    assert ask(db, Saying(c), env) == Exec(db, c, env);
  }

  lemma PushedIs(xs: seq<Bytes>, es: seq<Bytes>, left: bool)
    ensures IsPushed(L.PushedOnto(xs, es, if left then Front else Back), xs, es, left)
  {
  }

  /** A push puts the elements one by one at its end and replies with the length; the X forms need a list to be there. */
  lemma PushRequest(ask: Asking, db: Db, word: Bytes, left: bool, creates: bool, key: Key, es: seq<Bytes>, xs: seq<Bytes>, env: Env)
    returns (pushed: seq<Bytes>)
    requires Obeys(ask) && Pushes(word, left, creates) && es != []
    requires xs == [] || Has(db, key, env.now, List(xs))
    ensures IsPushed(pushed, xs, es, left)
    ensures var o := ask(db, [word, key] + es, env);
      && (Has(db, key, env.now, List(xs)) ==>
          o == Outcome(Db(db.data[key := List(pushed)], db.expiry), Value(Integer(|xs| + |es|))))
      && (Lacks(db, key, env.now) ==>
          o == if creates then Outcome(Db(db.data[key := List(pushed)], db.expiry - {key}), Value(Integer(|es|)))
               else Outcome(db, Value(Integer(0))))
      && (HasNoList(db, key, env.now) ==> Refused(db, o))
  {
    var end := if left then Front else Back;
    AskPush(ask, db, word, left, creates, key, es, env);
    L.PushAllResult(db, key, es, creates, end, env.now);
    PushedIs(xs, es, left);
    pushed := L.PushedOnto(xs, es, end);
  }

  /** The words that pop, and the end they pop from. */
  predicate Pops(word: Bytes, left: bool) {
    (word == "LPOP" && left) || (word == "RPOP" && !left)
  }

  /** What the pop of the first `n` elements, or of the last, takes in order, and what it leaves. */
  predicate IsPopped(taken: seq<Bytes>, rest: seq<Bytes>, xs: seq<Bytes>, n: nat, left: bool) {
    && |taken| == (if n < |xs| then n else |xs|) && |rest| == |xs| - |taken|
    && if left
       then taken + rest == xs
       else rest == xs[..|rest|] && forall i :: 0 <= i < |taken| ==> taken[i] == xs[|xs| - 1 - i]
  }

  /** The store with what a pop leaves; an emptied list goes, its entry in the index stays. */
  function WithRest(db: Db, key: Key, rest: seq<Bytes>): Db {
    Db(if rest == [] then db.data - {key} else db.data[key := List(rest)], db.expiry)
  }

  lemma AskPop(ask: Asking, db: Db, word: Bytes, left: bool, key: Key, count: Option<nat>, env: Env)
    requires Obeys(ask) && Pops(word, left) && (count.Some? ==> count.value < 0x1_0000_0000_0000_0000)
    ensures ask(db, [word, key] + Amount(count), env) == ExecPop(db, key, count, if left then Front else Back, env.now)
  {
    var c := if left then C.LPop(key, count) else C.RPop(key, count);
    assert ask(db, Saying(c), env) == Exec(db, c, env);
    assert Saying(c) == [word, key] + Amount(count);
  }

  lemma PoppedIs(xs: seq<Bytes>, n: nat, left: bool)
    ensures var end := if left then Front else Back; IsPopped(Popped(xs, n, end), Unpopped(xs, n, end), xs, n, left)
  {
  }

  /** LPOP and RPOP with a number reply with the elements in the order they come off their end. */
  lemma PopRequest(ask: Asking, db: Db, word: Bytes, left: bool, key: Key, n: nat, xs: seq<Bytes>, env: Env)
    returns (taken: seq<Bytes>, rest: seq<Bytes>)
    requires Obeys(ask) && Pops(word, left) && n < 0x1_0000_0000_0000_0000
    ensures IsPopped(taken, rest, xs, n, left)
    ensures var o := ask(db, [word, key, DecimalText(n)], env);
      && (Has(db, key, env.now, List(xs)) ==> o == Outcome(WithRest(db, key, rest), Value(Bulks(taken))))
      && (Lacks(db, key, env.now) ==> o == Outcome(db, Value(NullBulkString)))
      && (HasNoList(db, key, env.now) ==> Refused(db, o))
  {
    AskPop(ask, db, word, left, key, Some(n), env);
    assert [word, key] + Amount(Some(n)) == [word, key, DecimalText(n)];
    var end := if left then Front else Back;
    PoppedIs(xs, n, left);
    taken, rest := Popped(xs, n, end), Unpopped(xs, n, end);
    assert BulkArray(taken) == Bulks(taken);
  }

  function Bulks(s: seq<Bytes>): RespValue {
    Array(seq(|s|, i requires 0 <= i < |s| => BulkString(s[i])))
  }

  /** Without a number they reply with the one element itself. */
  lemma PopOneRequest(ask: Asking, db: Db, word: Bytes, left: bool, key: Key, xs: seq<Bytes>, env: Env)
    requires Obeys(ask) && Pops(word, left)
    ensures var o := ask(db, [word, key], env);
      && (Has(db, key, env.now, List(xs)) && xs != [] ==>
          o == if left then Outcome(WithRest(db, key, xs[1..]), Value(BulkString(xs[0])))
               else Outcome(WithRest(db, key, xs[..|xs| - 1]), Value(BulkString(xs[|xs| - 1]))))
      && (Lacks(db, key, env.now) ==> o == Outcome(db, Value(NullBulkString)))
      && (HasNoList(db, key, env.now) ==> Refused(db, o))
  {
    AskPop(ask, db, word, left, key, None, env);
    assert [word, key] + Amount(None) == [word, key];
  }

  /** LLEN replies with the length. */
  lemma LLenRequest(ask: Asking, db: Db, key: Key, xs: seq<Bytes>, env: Env)
    requires Obeys(ask)
    ensures var o := ask(db, ["LLEN", key], env);
      && (Has(db, key, env.now, List(xs)) ==> o == Outcome(db, Value(Integer(|xs|))))
      && (Lacks(db, key, env.now) ==> o == Outcome(db, Value(Integer(0))))
      && (HasNoList(db, key, env.now) ==> Refused(db, o))
  {
    var c := C.LLen(key);
    assert ask(db, Saying(c), env) == Exec(db, c, env);
    assert Saying(c) == ["LLEN", key];
  }

  /** The numbers an index can be. */
  predicate IsIndexed(index: int) {
    -0x8000_0000_0000_0000 <= index < 0x8000_0000_0000_0000
  }

  /** The position an index names: from the end, if it is negative. */
  function Position(index: int, length: nat): int {
    if index < 0 then index + length else index
  }

  /** LINDEX replies with the element at the position, or with nothing. */
  lemma LIndexRequest(ask: Asking, db: Db, key: Key, index: int, xs: seq<Bytes>, env: Env)
    requires Obeys(ask) && IsIndexed(index)
    ensures var o, i := ask(db, ["LINDEX", key, DecimalText(index)], env), Position(index, |xs|);
      && (Has(db, key, env.now, List(xs)) ==>
          o == Outcome(db, Value(if 0 <= i < |xs| then BulkString(xs[i]) else NullBulkString)))
      && (Lacks(db, key, env.now) ==> o == Outcome(db, Value(NullBulkString)))
      && (HasNoList(db, key, env.now) ==> Refused(db, o))
  {
    var c := C.LIndex(key, index);
    assert ask(db, Saying(c), env) == Exec(db, c, env);
    assert Saying(c) == ["LINDEX", key, DecimalText(index)];
  }

  /** LSET changes the element at the position, and is refused where there is none. */
  lemma LSetRequest(ask: Asking, db: Db, key: Key, index: int, x: Bytes, xs: seq<Bytes>, env: Env)
    requires Obeys(ask) && IsIndexed(index)
    ensures var o, i := ask(db, ["LSET", key, DecimalText(index), x], env), Position(index, |xs|);
      && (Has(db, key, env.now, List(xs)) ==>
          if 0 <= i < |xs| then o == Outcome(Db(db.data[key := List(xs[i := x])], db.expiry), Value(SimpleString("OK"))) else Refused(db, o))
      && (Lacks(db, key, env.now) || HasNoList(db, key, env.now) ==> Refused(db, o))
  {
    var c := C.LSet(key, index, x);
    assert ask(db, Saying(c), env) == Exec(db, c, env);
    assert Saying(c) == ["LSET", key, DecimalText(index), x];
  }

  /** The positions LRANGE is asked for. */
  predicate InRange(i: int, length: nat, start: int, stop: int) {
    0 <= i < length && Position(start, length) <= i <= Position(stop, length)
  }

  lemma AskLRange(ask: Asking, db: Db, key: Key, start: int, stop: int, env: Env)
    requires Obeys(ask) && IsIndexed(start) && IsIndexed(stop)
    ensures ask(db, ["LRANGE", key, DecimalText(start), DecimalText(stop)], env) == Outcome(db, ExecLRange(db, key, start, stop, env.now))
  {
    var c := C.LRange(key, start, stop);
    assert ask(db, Saying(c), env) == Exec(db, c, env);
    assert Saying(c) == ["LRANGE", key, DecimalText(start), DecimalText(stop)];
  }

  /** LRANGE replies with the elements from the one position to the other, as far as there are any. */
  lemma LRangeRequest(ask: Asking, db: Db, key: Key, start: int, stop: int, xs: seq<Bytes>, env: Env) returns (first: nat, s: seq<Bytes>)
    requires Obeys(ask) && IsIndexed(start) && IsIndexed(stop)
    ensures first + |s| <= |xs| && s == xs[first..first + |s|]
    ensures forall i :: first <= i < first + |s| <==> InRange(i, |xs|, start, stop)
    ensures var o := ask(db, ["LRANGE", key, DecimalText(start), DecimalText(stop)], env);
      && (Has(db, key, env.now, List(xs)) ==> o == Outcome(db, Value(Bulks(s))))
      && (Lacks(db, key, env.now) ==> o == Outcome(db, Value(Array([]))))
      && (HasNoList(db, key, env.now) ==> Refused(db, o))
  {
    AskLRange(ask, db, key, start, stop, env);
    s := Slice(xs, start, stop);
    first := L.SliceMeaning(xs, start, stop);
    assert BulkArray([]) == Array([]) && BulkArray(s) == Bulks(s);
    forall i ensures first <= i < first + |s| <==> InRange(i, |xs|, start, stop) {
      assert L.InSlice(|xs|, start, stop, i) <==> InRange(i, |xs|, start, stop);
    }
  }
}
