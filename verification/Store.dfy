/** The shared in-memory store: two maps updated in place. `now` is the clock reading of the command. */
module Store {
  import opened Bytes
  import opened Database
  import Pattern

  class Store {
    var data: map<Key, StoreValue>
    var expiry: map<Key, Time>

    function View(): Db
      reads this
    {
      Db(data, expiry)
    }

    constructor ()
      ensures View() == EMPTY
    {
      data, expiry := map[], map[];
    }

    method Get(key: Key, now: Time) returns (value: Option<StoreValue>)
      ensures value == Lookup(View(), key, now)
    {
      if key in expiry && now >= expiry[key] {
        return None;
      }
      value := if key in data then Some(data[key]) else None;
    }

    method SetValue(key: Key, value: StoreValue)
      modifies this
      ensures View() == Put(old(View()), key, value)
    {
      expiry := expiry - {key};
      data := data[key := value];
    }

    method Delete(key: Key) returns (existed: bool)
      modifies this
      ensures View() == Remove(old(View()), {key})
      ensures existed <==> key in old(data)
    {
      expiry := expiry - {key};
      existed := key in data;
      data := data - {key};
    }

    method TakeValue(key: Key, now: Time) returns (value: Option<StoreValue>)
      modifies this
      ensures View() == GetDel(old(View()), key, now)
      ensures value == Lookup(old(View()), key, now)
    {
      if key in expiry && now >= expiry[key] {
        return None;
      }
      expiry := expiry - {key};
      value := if key in data then Some(data[key]) else None;
      data := data - {key};
    }

    method Exists(key: Key, now: Time) returns (found: bool)
      ensures found <==> Live(View(), key, now)
    {
      found := key in data && (key in expiry ==> now < expiry[key]);
    }

    method SetDeadline(key: Key, deadline: Time) returns (stored: bool)
      modifies this
      ensures View() == SetTtl(old(View()), key, deadline)
      ensures stored <==> key in old(data)
    {
      if key in data {
        expiry := expiry[key := deadline];
        return true;
      }
      stored := false;
    }

    method Persist(key: Key) returns (removed: bool)
      modifies this
      ensures View() == old(View()).(expiry := old(expiry) - {key})
      ensures removed <==> key in old(expiry)
    {
      removed := key in expiry;
      expiry := expiry - {key};
    }

    /** Any `min(n, |expiry|)` entries of the expiry index. */
    method SampleEvictionIndex(n: nat) returns (sample: map<Key, Time>)
      ensures forall k :: k in sample ==> k in expiry && sample[k] == expiry[k]
      ensures |sample| == Min(n, |expiry|)
    {
      sample := map[];
      var pool := expiry.Keys;
      while |sample| < n && pool != {}
        invariant pool <= expiry.Keys && sample.Keys == expiry.Keys - pool
        invariant forall k :: k in sample ==> sample[k] == expiry[k]
        invariant |sample| <= n && |sample| + |pool| == |expiry|
        decreases |pool|
      {
        var k :| k in pool;
        assert sample[k := expiry[k]].Keys == sample.Keys + {k};
        sample := sample[k := expiry[k]];
        pool := pool - {k};
      }
    }

    method DeleteBulk(keys: seq<Key>)
      modifies this
      ensures View() == Remove(old(View()), ToSet(keys))
    {
      for i := 0 to |keys|
        invariant data == old(data) - ToSet(keys[..i])
        invariant expiry == old(expiry) - ToSet(keys[..i])
      {
        assert ToSet(keys[..i + 1]) == ToSet(keys[..i]) + {keys[i]};
        expiry := expiry - {keys[i]};
        data := data - {keys[i]};
      }
      assert keys[..|keys|] == keys;
    }

    /** Every live key that matches the pattern, exactly once; a lone star lists every live key. */
    method Keys(pattern: Bytes, now: Time) returns (keys: seq<Key>)
      ensures forall i, j :: 0 <= i < j < |keys| ==> keys[i] != keys[j]
      ensures forall k :: k in keys <==> Live(View(), k, now) && (pattern == "*" || Pattern.GlobMatch(k, pattern))
    {
      var allKeys := pattern == "*";
      keys := [];
      var pool := data.Keys;
      while pool != {}
        invariant pool <= data.Keys
        invariant forall i, j :: 0 <= i < j < |keys| ==> keys[i] != keys[j]
        invariant forall k :: k in keys <==> k in data.Keys - pool && Live(View(), k, now) && (allKeys || Pattern.GlobMatch(k, pattern))
        decreases |pool|
      {
        var k :| k in pool;
        var matched := allKeys;
        if !allKeys {
          var calls;
          matched, calls := Pattern.StringMatch(k, pattern);
        }
        var found := Exists(k, now);
        if matched && found {
          keys := keys + [k];
        }
        pool := pool - {k};
      }
    }

    method Size() returns (n: nat)
      ensures n == |data|
    {
      n := |data|;
    }

    method Clear()
      modifies this
      ensures View() == EMPTY
    {
      expiry := map[];
      data := map[];
    }

    method SetMany(items: seq<(Key, Bytes)>)
      modifies this
      ensures View() == MSet(old(View()), items)
    {
      for i := 0 to |items|
        invariant View() == MSet(old(View()), items[..i])
      {
        assert items[..i + 1][..i] == items[..i];
        expiry := expiry - {items[i].0};
        data := data[items[i].0 := Str(items[i].1)];
      }
      assert items[..|items|] == items;
    }

    // ----- Reading -----

    method GetText(key: Key, now: Time) returns (r: Result<Option<Bytes>>)
      ensures r == GetString(View(), key, now)
    {
      var value := Get(key, now);
      match value
      case Some(Str(s)) => r := Success(Some(s));
      case Some(_) => r := Failure(WrongType);
      case None => r := Success(None);
    }

    method GetMany(keys: seq<Key>, now: Time) returns (values: seq<Option<Bytes>>)
      ensures values == MGet(View(), keys, now)
    {
      values := [];
      for i := 0 to |keys|
        invariant |values| == i
        invariant forall j :: 0 <= j < i ==> values[j] == MGet(View(), keys, now)[j]
      {
        var value := Get(keys[i], now);
        values := values + [if value.Some? && value.value.Str? then Some(value.value.text) else None];
      }
    }

    method Length(key: Key, now: Time) returns (r: Result<nat>)
      ensures r == LLen(View(), key, now)
    {
      var value := Get(key, now);
      match value
      case None => r := Success(0);
      case Some(List(items)) => r := Success(|items|);
      case Some(_) => r := Failure(WrongType);
    }

    method ElementAt(key: Key, index: int, now: Time) returns (r: Result<Option<Bytes>>)
      ensures r == LIndex(View(), key, index, now)
    {
      var value := Get(key, now);
      match value
      case Some(List(items)) =>
        var i := ResolveIndex(index, |items|);
        if i.None? {
          return Success(None);
        }
        r := Success(if i.value < |items| then Some(items[i.value]) else None);
      case Some(_) => r := Failure(WrongType);
      case None => r := Success(None);
    }

    method Range(key: Key, start: int, stop: int, now: Time) returns (r: Result<seq<Bytes>>)
      ensures r == LRange(View(), key, start, stop, now)
    {
      var value := Get(key, now);
      match value
      case Some(List(items)) =>
        var length := |items|;
        if length == 0 {
          return Success([]);
        }
        var first := if start < 0 then (if start + length > 0 then start + length else 0) else start;
        var last := if stop < 0 then stop + length else stop;
        if first > last || first >= length {
          return Success([]);
        }
        if last > length - 1 {
          last := length - 1;
        }
        r := Success(items[first..last + 1]);
      case Some(_) => r := Failure(WrongType);
      case None => r := Success([]);
    }

    method Members(key: Key, now: Time) returns (r: Result<set<Bytes>>)
      ensures r == SMembers(View(), key, now)
    {
      var value := Get(key, now);
      match value
      case None => r := Success({});
      case Some(Set(s)) => r := Success(s);
      case Some(_) => r := Failure(WrongType);
    }

    // ----- Lists -----

    method PushElement(key: Key, element: Bytes, create: bool, end: End, now: Time) returns (r: Result<nat>)
      modifies this
      ensures (View(), r) == Push(old(View()), key, element, create, end, now)
    {
      var value := Get(key, now);
      match value
      case None =>
        if !create {
          return Success(0);
        }
        expiry := expiry - {key};
        data := data[key := List([element])];
        r := Success(1);
      case Some(List(items)) =>
        var longer := PushTo(items, element, end);
        data := data[key := List(longer)];
        r := Success(|longer|);
      case Some(_) =>
        r := Failure(WrongType);
    }

    method PopElements(key: Key, count: nat, end: End, now: Time) returns (r: Result<Option<seq<Bytes>>>)
      modifies this
      ensures (View(), r) == Pop(old(View()), key, count, end, now)
    {
      var value := Get(key, now);
      match value
      case None =>
        r := Success(None);
      case Some(List(items)) =>
        var elements, list := PopLoop(items, count, end);
        data := data[key := List(list)];
        if list == [] {
          data := data - {key};
          assert data == old(data) - {key};
        }
        r := Success(Some(elements));
      case Some(_) =>
        r := Failure(WrongType);
    }

    method SetElement(key: Key, index: int, element: Bytes, now: Time) returns (r: Result<()>)
      modifies this
      ensures (View(), r) == LSet(old(View()), key, index, element, now)
    {
      var value := Get(key, now);
      match value
      case None =>
        r := Failure(NoSuchKey);
      case Some(List(items)) =>
        var i := ResolveIndex(index, |items|);
        if i.None? || i.value >= |items| {
          return Failure(OutOfIndex);
        }
        var list := items + [element];
        list := SwapRemoveBack(list, i.value);
        assert list == items[i.value := element];
        data := data[key := List(list)];
        r := Success(());
      case Some(_) =>
        r := Failure(WrongType);
    }

    // ----- Sets -----

    method AddMembers(key: Key, members: seq<Bytes>, now: Time) returns (r: Result<nat>)
      modifies this
      ensures (View(), r) == SAdd(old(View()), key, members, now)
    {
      var value := Get(key, now);
      match value
      case None =>
        expiry := expiry - {key};
        data := data[key := Set(ToSet(members))];
        r := Success(|ToSet(members)|);
      case Some(Set(s)) =>
        var larger, added := AddLoop(s, members);
        data := data[key := Set(larger)];
        r := Success(added);
      case Some(_) =>
        r := Failure(WrongType);
    }

    method RemoveMembers(key: Key, members: seq<Bytes>, now: Time) returns (r: Result<nat>)
      modifies this
      ensures (View(), r) == SRem(old(View()), key, members, now)
    {
      var value := Get(key, now);
      match value
      case None =>
        r := Success(0);
      case Some(Set(s)) =>
        var smaller, count := RemoveLoop(s, members);
        data := data[key := Set(smaller)];
        r := Success(count);
      case Some(_) =>
        r := Failure(WrongType);
    }

    method MoveMember(source: Key, destination: Key, member: Bytes, now: Time) returns (r: Result<bool>)
      modifies this
      ensures (View(), r) == SMove(old(View()), source, destination, member, now)
    {
      var from := Get(source, now);
      if from.None? {
        return Success(false);
      }
      if !from.value.Set? {
        return Failure(WrongType);
      }
      var to := Get(destination, now);
      if to.Some? && !to.value.Set? {
        return Failure(WrongType);
      }
      if member !in from.value.members {
        return Success(false);
      }

      var left := from.value.members - {member};
      data := data[source := Set(left)];
      if left == {} {
        data := data - {source};
        expiry := expiry - {source};
        assert data == old(data) - {source};
      }

      to := Get(destination, now);
      if to.Some? && to.value.Set? {
        data := data[destination := Set(to.value.members + {member})];
      } else {
        expiry := expiry - {destination};
        data := data[destination := Set({member})];
      }
      r := Success(true);
    }

    method PopMembers(key: Key, amount: nat, draw: (set<Bytes>, nat) -> set<Bytes>, now: Time)
      returns (r: Result<Option<set<Bytes>>>)
      modifies this
      ensures (View(), r) == SPop(old(View()), key, Drawn(old(View()), key, draw, amount, now), now)
    {
      var value := Get(key, now);
      match value
      case None =>
        r := Success(None);
      case Some(Set(s)) =>
        var popped := draw(s, amount);
        data := data[key := Set(s - popped)];
        if s - popped == {} {
          data := data - {key};
          expiry := expiry - {key};
          assert data == old(data) - {key};
        }
        r := Success(Some(popped));
      case Some(_) =>
        r := Failure(WrongType);
    }
  }

  /** Pops one element at a time until `count` are out or the list is empty. */
  method PopLoop(items: seq<Bytes>, count: nat, end: End) returns (elements: seq<Bytes>, list: seq<Bytes>)
    ensures elements == Popped(items, count, end)
    ensures list == Unpopped(items, count, end)
  {
    elements, list := [], items;
    for i := 0 to count
      invariant i <= |items|
      invariant elements == Popped(items, i, end) && list == Unpopped(items, i, end)
    {
      if list == [] {
        break;
      }
      PopOneMore(items, i, end);
      if end.Front? {
        elements, list := elements + [list[0]], list[1..];
      } else {
        elements, list := elements + [list[|list| - 1]], list[..|list| - 1];
      }
    }
  }

  lemma PopOneMore(items: seq<Bytes>, i: nat, end: End)
    requires i < |items|
    ensures var list := Unpopped(items, i, end);
      && |list| == |items| - i
      && Popped(items, i + 1, end) == Popped(items, i, end) + [if end.Front? then list[0] else list[|list| - 1]]
      && Unpopped(items, i + 1, end) == if end.Front? then list[1..] else list[..|list| - 1]
  {
    if end.Front? {
      assert items[..i + 1] == items[..i] + [items[i]];
    } else {
      var n := |items|;
      assert items[..n - i][..n - i - 1] == items[..n - i - 1];
    }
  }

  /** `VecDeque::swap_remove_back`: the last element takes the place of element `i`. */
  method SwapRemoveBack(list: seq<Bytes>, i: nat) returns (r: seq<Bytes>)
    requires i < |list|
    ensures |r| == |list| - 1
    ensures forall j :: 0 <= j < |r| ==> r[j] == if j == i then list[|list| - 1] else list[j]
  {
    var last := |list| - 1;
    r := list[i := list[last]][last := list[i]];
    r := r[..last];
  }

  method AddLoop(s: set<Bytes>, members: seq<Bytes>) returns (larger: set<Bytes>, added: nat)
    ensures larger == s + ToSet(members) && added == |ToSet(members) - s|
  {
    larger, added := s, 0;
    for i := 0 to |members|
      invariant larger == s + ToSet(members[..i]) && added == |ToSet(members[..i]) - s|
    {
      AddStep(s, members, i);
      if members[i] !in larger {
        added := added + 1;
        larger := larger + {members[i]};
      }
    }
    assert members[..|members|] == members;
  }

  lemma AddStep(s: set<Bytes>, members: seq<Bytes>, i: nat)
    requires i < |members|
    ensures var m, seen := members[i], ToSet(members[..i]);
      && s + ToSet(members[..i + 1]) == (s + seen) + {m}
      && |ToSet(members[..i + 1]) - s| == |seen - s| + if m in s + seen then 0 else 1
  {
    var m, seen := members[i], ToSet(members[..i]);
    assert ToSet(members[..i + 1]) == seen + {m};
    assert (seen + {m}) - s == if m in s + seen then seen - s else (seen - s) + {m};
  }

  method RemoveLoop(s: set<Bytes>, members: seq<Bytes>) returns (smaller: set<Bytes>, count: nat)
    ensures smaller == s - ToSet(members) && count == |s * ToSet(members)|
  {
    smaller, count := s, 0;
    for i := 0 to |members|
      invariant smaller == s - ToSet(members[..i]) && count == |s * ToSet(members[..i])|
    {
      RemoveStep(s, members, i);
      if members[i] in smaller {
        count := count + 1;
        smaller := smaller - {members[i]};
      }
    }
    assert members[..|members|] == members;
  }

  lemma RemoveStep(s: set<Bytes>, members: seq<Bytes>, i: nat)
    requires i < |members|
    ensures var m, seen := members[i], ToSet(members[..i]);
      && s - ToSet(members[..i + 1]) == (s - seen) - {m}
      && |s * ToSet(members[..i + 1])| == |s * seen| + if m in s - seen then 1 else 0
  {
    var m, seen := members[i], ToSet(members[..i]);
    assert ToSet(members[..i + 1]) == seen + {m};
    assert s * (seen + {m}) == if m in s - seen then (s * seen) + {m} else s * seen;
  }
}
