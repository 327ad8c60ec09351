/** List commands: nothing is lost or invented, and every way of naming an element agrees. */
module Lists {
  import opened Bytes
  import opened Decimal
  import opened Database
  import opened Execution
  import C = Command

  // ----- Pushing -----

  /** The list after pushing `elements` one by one. */
  function PushedOnto(items: seq<Bytes>, elements: seq<Bytes>, end: End): seq<Bytes> {
    if end.Front? then Reverse(elements) + items else items + elements
  }

  lemma PushOneMore(items: seq<Bytes>, elements: seq<Bytes>, end: End)
    requires elements != []
    ensures var n := |elements| - 1;
      PushTo(PushedOnto(items, elements[..n], end), elements[n], end) == PushedOnto(items, elements, end)
  {
    var n := |elements| - 1;
    assert elements == elements[..n] + [elements[n]];
    if end.Front? {
      ReverseSnoc(elements[..n], elements[n]);
      assert [elements[n]] + (Reverse(elements[..n]) + items) == [elements[n]] + Reverse(elements[..n]) + items;
    } else {
      assert items + elements[..n] + [elements[n]] == items + (elements[..n] + [elements[n]]);
    }
  }

  lemma ReverseSnoc(s: seq<Bytes>, x: Bytes)
    ensures Reverse(s + [x]) == [x] + Reverse(s)
  {
  }

  lemma PushOnList(db: Db, key: Key, items: seq<Bytes>, element: Bytes, create: bool, end: End, now: Time)
    requires Lookup(db, key, now) == Some(List(items))
    ensures Push(db, key, element, create, end, now) ==
      (Update(db, key, List(PushTo(items, element, end))), Success(|items| + 1))
  {
  }

  lemma UpdateTwice(db: Db, key: Key, v: StoreValue, w: StoreValue)
    ensures Update(Update(db, key, v), key, w) == Update(db, key, w)
    ensures Update(Put(db, key, v), key, w) == Put(db, key, w)
  {
  }

  lemma {:induction false} PushAllOnList(db: Db, key: Key, items: seq<Bytes>, elements: seq<Bytes>, create: bool, end: End, now: Time)
    requires elements != [] && Lookup(db, key, now) == Some(List(items))
    ensures PushAll(db, key, elements, create, end, now) ==
      (Update(db, key, List(PushedOnto(items, elements, end))), Success(|items| + |elements|))
  {
    var n := |elements| - 1;
    var before := PushedOnto(items, elements[..n], end);
    PushOneMore(items, elements, end);
    if n == 0 {
      assert elements[..n] == [];
      PushNothing(items, end);
      PushOnList(db, key, items, elements[0], create, end, now);
    } else {
      var db' := Update(db, key, List(before));
      PushAllOnList(db, key, items, elements[..n], create, end, now);
      PushAllLast(db, db', key, elements, |items| + n, create, end, now);
      PushOnList(db', key, before, elements[n], create, end, now);
      UpdateTwice(db, key, List(before), List(PushedOnto(items, elements, end)));
    }
  }

  lemma PushAllLast(db: Db, db': Db, key: Key, elements: seq<Bytes>, size: nat, create: bool, end: End, now: Time)
    requires elements != []
    requires PushAll(db, key, elements[..|elements| - 1], create, end, now) == (db', Success(size))
    ensures PushAll(db, key, elements, create, end, now) == Push(db', key, elements[|elements| - 1], create, end, now)
  {
  }

  lemma PushNothing(items: seq<Bytes>, end: End)
    ensures PushedOnto(items, [], end) == items
  {
  }

  lemma {:induction false} PushAllCreates(db: Db, key: Key, elements: seq<Bytes>, end: End, now: Time)
    requires elements != [] && Lookup(db, key, now) == None
    ensures PushAll(db, key, elements, true, end, now) ==
      (Put(db, key, List(PushedOnto([], elements, end))), Success(|elements|))
  {
    var n := |elements| - 1;
    var before := PushedOnto([], elements[..n], end);
    PushOneMore([], elements, end);
    if n == 0 {
      assert elements[..n] == [] && before == [];
      assert PushTo([], elements[0], end) == [elements[0]];
    } else {
      PushAllCreates(db, key, elements[..n], end, now);
      PushOnList(Put(db, key, List(before)), key, before, elements[n], true, end, now);
      UpdateTwice(db, key, List(before), List(PushedOnto([], elements, end)));
    }
  }

  lemma {:induction false} PushAllRefused(db: Db, key: Key, elements: seq<Bytes>, create: bool, end: End, now: Time)
    requires elements != []
    requires var v := Lookup(db, key, now); (v.None? && !create) || (v.Some? && !v.value.List?)
    ensures PushAll(db, key, elements, create, end, now) ==
      (db, if Lookup(db, key, now).None? then Success(0) else Failure(WrongType))
  {
    var n := |elements| - 1;
    if n > 0 {
      PushAllRefused(db, key, elements[..n], create, end, now);
    }
  }

  /** A multi-element push, whole: a wrong type changes nothing, and LPUSHX never creates a key. */
  lemma PushAllResult(db: Db, key: Key, elements: seq<Bytes>, create: bool, end: End, now: Time)
    requires elements != []
    ensures PushAll(db, key, elements, create, end, now) ==
      match Lookup(db, key, now)
      case None =>
        if create then (Put(db, key, List(PushedOnto([], elements, end))), Success(|elements|)) else (db, Success(0))
      case Some(List(items)) =>
        (Update(db, key, List(PushedOnto(items, elements, end))), Success(|items| + |elements|))
      case Some(_) => (db, Failure(WrongType))
  {
    match Lookup(db, key, now)
    case None =>
      if create {
        PushAllCreates(db, key, elements, end, now);
      } else {
        PushAllRefused(db, key, elements, create, end, now);
      }
    case Some(List(items)) => PushAllOnList(db, key, items, elements, create, end, now);
    case Some(_) => PushAllRefused(db, key, elements, create, end, now);
  }

  // ----- Popping -----

  /** What is popped and what is left make up the old list. */
  lemma PopRecomposes(items: seq<Bytes>, count: nat, end: End)
    ensures items ==
      if end.Front? then Popped(items, count, end) + Unpopped(items, count, end)
      else Unpopped(items, count, end) + Reverse(Popped(items, count, end))
  {
    var n := Min(count, |items|);
    if end.Front? {
      assert items == items[..n] + items[n..];
    } else {
      ReverseTwice(items[|items| - n..]);
      assert items == items[..|items| - n] + items[|items| - n..];
    }
  }

  lemma ReverseTwice(s: seq<Bytes>)
    ensures Reverse(Reverse(s)) == s
  {
  }

  lemma PopTwiceSeq(items: seq<Bytes>, m: nat, n: nat, end: End)
    ensures Unpopped(Unpopped(items, m, end), n, end) == Unpopped(items, m + n, end)
    ensures Popped(items, m, end) + Popped(Unpopped(items, m, end), n, end) == Popped(items, m + n, end)
  {
    if end.Front? {
      assert Unpopped(Unpopped(items, m, end), n, end) == Unpopped(items, m + n, end);
    } else {
      assert Unpopped(Unpopped(items, m, end), n, end) == Unpopped(items, m + n, end);
    }
  }

  /** The elements a pop took, none if there was no list. */
  function Taken(r: Result<Option<seq<Bytes>>>): seq<Bytes> {
    if r.Success? && r.value.Some? then r.value.value else []
  }

  lemma PopFromList(db: Db, key: Key, items: seq<Bytes>, count: nat, end: End, now: Time)
    requires Lookup(db, key, now) == Some(List(items))
    ensures var rest := Unpopped(items, count, end);
      Pop(db, key, count, end, now) ==
      (if rest == [] then db.(data := db.data - {key}) else Update(db, key, List(rest)), Success(Some(Popped(items, count, end))))
  {
  }

  /** Popping m and then n leaves what popping m + n leaves, and takes the same elements in the same order. */
  lemma PopTwice(db: Db, key: Key, m: nat, n: nat, end: End, now: Time)
    ensures var first, both := Pop(db, key, m, end, now), Pop(db, key, m + n, end, now);
      var second := Pop(first.0, key, n, end, now);
      && second.0 == both.0
      && Taken(first.1) + Taken(second.1) == Taken(both.1)
  {
    match Lookup(db, key, now)
    case None =>
    case Some(List(items)) => PopTwiceFromList(db, key, items, m, n, end, now);
    case Some(_) =>
  }

  lemma PopTwiceFromList(db: Db, key: Key, items: seq<Bytes>, m: nat, n: nat, end: End, now: Time)
    requires Lookup(db, key, now) == Some(List(items))
    ensures var first, both := Pop(db, key, m, end, now), Pop(db, key, m + n, end, now);
      var second := Pop(first.0, key, n, end, now);
      && second.0 == both.0
      && Taken(first.1) + Taken(second.1) == Taken(both.1)
  {
    var rest := Unpopped(items, m, end);
    PopTwiceSeq(items, m, n, end);
    PopFromList(db, key, items, m, end, now);
    PopFromList(db, key, items, m + n, end, now);
    if rest == [] {
      assert Popped(items, m, end) + [] == Popped(items, m, end);
    } else {
      var first := Update(db, key, List(rest));
      PopFromList(first, key, rest, n, end, now);
      UpdateTwice(db, key, List(rest), List(Unpopped(rest, n, end)));
      assert first.data - {key} == db.data - {key};
    }
  }

  lemma PushThenPopLive(db: Db, key: Key, items: seq<Bytes>, elements: seq<Bytes>, end: End, now: Time)
    requires elements != [] && items != [] && Lookup(db, key, now) == Some(List(items))
    ensures var pushed := PushAll(db, key, elements, true, end, now).0;
      Pop(pushed, key, |elements|, end, now) == (db, Success(Some(Reverse(elements))))
  {
    var list := PushedOnto(items, elements, end);
    PushAllOnList(db, key, items, elements, true, end, now);
    PopPushed(items, elements, end);
    PopFromList(Update(db, key, List(list)), key, list, |elements|, end, now);
    UpdateTwice(db, key, List(list), List(items));
    UpdateSame(db, key);
  }

  lemma PushThenPopMissing(db: Db, key: Key, elements: seq<Bytes>, end: End, now: Time)
    requires elements != [] && Lookup(db, key, now) == None
    ensures var pushed := PushAll(db, key, elements, true, end, now).0;
      Pop(pushed, key, |elements|, end, now) == (Remove(db, {key}), Success(Some(Reverse(elements))))
  {
    var list := PushedOnto([], elements, end);
    var created := Put(db, key, List(list));
    PushAllCreates(db, key, elements, end, now);
    PopPushed([], elements, end);
    PopFromList(created, key, list, |elements|, end, now);
    assert created.data - {key} == db.data - {key};
  }

  /** Pushing elements and popping as many at the same end gives them back reversed and restores the list. */
  lemma PushThenPop(db: Db, key: Key, elements: seq<Bytes>, end: End, now: Time)
    requires elements != []
    requires var v := Lookup(db, key, now); v.Some? ==> v.value.List? && v.value.items != []
    ensures var pushed := PushAll(db, key, elements, true, end, now).0;
      Pop(pushed, key, |elements|, end, now) ==
        (if Live(db, key, now) then db else Remove(db, {key}), Success(Some(Reverse(elements))))
  {
    match Lookup(db, key, now)
    case None => PushThenPopMissing(db, key, elements, end, now);
    case Some(v) => PushThenPopLive(db, key, v.items, elements, end, now);
  }

  lemma UpdateSame(db: Db, key: Key)
    requires key in db.data
    ensures Update(db, key, db.data[key]) == db
  {
  }

  lemma PopPushed(items: seq<Bytes>, elements: seq<Bytes>, end: End)
    ensures Popped(PushedOnto(items, elements, end), |elements|, end) == Reverse(elements)
    ensures Unpopped(PushedOnto(items, elements, end), |elements|, end) == items
  {
    var list := PushedOnto(items, elements, end);
    if end.Front? {
      assert list[..|elements|] == Reverse(elements);
    } else {
      assert list[|items|..] == elements;
    }
  }

  // ----- No list is ever stored empty -----

  ghost predicate NoEmptyList(db: Db) {
    forall k :: k in db.data && db.data[k].List? ==> db.data[k].items != []
  }

  lemma {:induction false} MSetNoEmptyList(db: Db, items: seq<(Key, Bytes)>)
    requires NoEmptyList(db)
    ensures NoEmptyList(MSet(db, items))
  {
    if items != [] {
      MSetNoEmptyList(db, items[..|items| - 1]);
    }
  }

  lemma PushNoEmptyList(db: Db, key: Key, elements: seq<Bytes>, create: bool, end: End, now: Time)
    requires NoEmptyList(db) && elements != []
    ensures NoEmptyList(PushAll(db, key, elements, create, end, now).0)
  {
    PushAllResult(db, key, elements, create, end, now);
  }

  lemma SMoveNoEmptyList(db: Db, source: Key, destination: Key, member: Bytes, now: Time)
    requires NoEmptyList(db)
    ensures NoEmptyList(SMove(db, source, destination, member, now).0)
  {
    match Lookup(db, source, now)
    case Some(Set(s)) => assert NoEmptyList(TakeMember(db, source, s, member));
    case _ =>
  }

  lemma SetNoEmptyList(db: Db, key: Key, value: Bytes, options: C.SetOptions, env: Env)
    requires NoEmptyList(db)
    ensures NoEmptyList(ExecSet(db, key, value, options, env).db)
  {
    assert NoEmptyList(Put(db, key, Str(value)));
  }

  lemma ListWriteNoEmptyList(db: Db, c: C.Command, now: Time)
    requires NoEmptyList(db) && C.WellFormed(c) && IsListWrite(c)
    ensures NoEmptyList(MutateList(db, c, now).db)
  {
    match c
    case LPush(key, es) => PushNoEmptyList(db, key, es, true, Front, now);
    case RPush(key, es) => PushNoEmptyList(db, key, es, true, Back, now);
    case LPushX(key, es) => PushNoEmptyList(db, key, es, false, Front, now);
    case RPushX(key, es) => PushNoEmptyList(db, key, es, false, Back, now);
    case LPop(_, _) =>
    case RPop(_, _) =>
    case LSet(_, _, _) =>
  }

  lemma SetWriteNoEmptyList(db: Db, c: C.Command, env: Env)
    requires NoEmptyList(db) && IsSetWrite(c)
    ensures NoEmptyList(MutateSet(db, c, env).db)
  {
    match c
    case SMove(source, destination, member) => SMoveNoEmptyList(db, source, destination, member, env.now);
    case SAdd(_, _) =>
    case SRem(_, _) =>
    case SPop(_, _) =>
  }

  lemma ExpiryWriteNoEmptyList(db: Db, c: C.Command, now: Time)
    requires NoEmptyList(db) && IsExpiryWrite(c)
    ensures NoEmptyList(MutateExpiry(db, c, now).db)
  {
  }

  lemma GroupedNoEmptyList(db: Db, c: C.Command, env: Env)
    requires NoEmptyList(db) && C.WellFormed(c) && (IsListWrite(c) || IsSetWrite(c) || IsExpiryWrite(c))
    ensures NoEmptyList(Exec(db, c, env).db)
  {
    if IsListWrite(c) {
      ListWriteNoEmptyList(db, c, env.now);
    } else if IsSetWrite(c) {
      SetWriteNoEmptyList(db, c, env);
    } else {
      ExpiryWriteNoEmptyList(db, c, env.now);
    }
  }

  /** Every command a client can send keeps lists non-empty. */
  lemma StepNoEmptyList(db: Db, c: C.Command, env: Env)
    requires NoEmptyList(db) && C.WellFormed(c)
    ensures NoEmptyList(Exec(db, c, env).db)
  {
    if IsListWrite(c) || IsSetWrite(c) || IsExpiryWrite(c) {
      GroupedNoEmptyList(db, c, env);
    } else if c.Set? {
      var Set(key, value, options) := c;
      SetNoEmptyList(db, key, value, options, env);
    } else if c.MSet? {
      MSetNoEmptyList(db, c.items);
    }
  }

  // ----- Indexes -----

  /** The element an index names, if there is one. */
  function ElementAt(db: Db, key: Key, index: int, now: Time): Option<Bytes> {
    var r := LIndex(db, key, index, now);
    if r.Success? then r.value else None
  }

  /** LRANGE by its meaning: the elements whose position lies between the two resolved bounds. */
  ghost predicate InSlice(length: nat, start: int, stop: int, i: int) {
    && 0 <= i < length
    && (if start < 0 then start + length else start) <= i
    && i <= (if stop < 0 then stop + length else stop)
  }

  lemma SliceMeaning(items: seq<Bytes>, start: int, stop: int) returns (first: nat)
    ensures var s := Slice(items, start, stop);
      && first + |s| <= |items| && s == items[first..first + |s|]
      && forall i :: first <= i < first + |s| <==> InSlice(|items|, start, stop, i)
  {
    var n, s := |items|, Slice(items, start, stop);
    first := 0;
    if s != [] {
      first := if start < 0 then (if start + n < 0 then 0 else start + n) else start;
    }
  }

  /** None of the sums LRANGE forms leaves the range of `i64`. */
  lemma RangeSumsFit(length: nat, bound: int)
    requires I64_MIN <= bound < 0 && length <= I64_MAX
    ensures I64_MIN <= bound + length <= I64_MAX
  {
  }

  /** LINDEX i finds x exactly when LRANGE i i finds [x]. */
  lemma IndexAgreesWithRange(db: Db, key: Key, index: int, now: Time, x: Bytes)
    ensures LIndex(db, key, index, now) == Success(Some(x)) <==> LRange(db, key, index, index, now) == Success([x])
    ensures LIndex(db, key, index, now) == Success(None) <==> LRange(db, key, index, index, now) == Success([])
    ensures LIndex(db, key, index, now).Failure? <==> LRange(db, key, index, index, now).Failure?
  {
    match Lookup(db, key, now)
    case Some(List(items)) =>
      var i := ResolveIndex(index, |items|);
      if i.Some? && i.value < |items| {
        assert Slice(items, index, index) == [items[i.value]];
      } else {
        assert Slice(items, index, index) == [];
      }
    case _ =>
  }

  /** LSET changes the element LINDEX reads, and no other. */
  lemma SetThenIndex(db: Db, key: Key, index: int, other: int, element: Bytes, now: Time)
    ensures var (db', r) := LSet(db, key, index, element, now);
      && (r.Success? <==> LIndex(db, key, index, now).Success? && LIndex(db, key, index, now).value.Some?)
      && (r.Failure? ==> db' == db)
      && (r.Success? ==> LIndex(db', key, index, now) == Success(Some(element)))
      && (r.Success? && ResolveIndex(other, LLen(db, key, now).value) != ResolveIndex(index, LLen(db, key, now).value)
          ==> LIndex(db', key, other, now) == LIndex(db, key, other, now))
  {
  }
}
