/** Background eviction: what it removes, and why no client can tell. */
module Eviction {
  import opened Bytes
  import opened Database
  import opened Execution
  import Resp2
  import C = Command
  import opened Ticks
  import S = Store

  // ----- The live view -----

  /** Clients see the same value and the same deadline at `key`. */
  ghost predicate AgreeAt(a: Db, b: Db, key: Key, now: Time) {
    && Lookup(a, key, now) == Lookup(b, key, now)
    && (Live(a, key, now) ==> PrevTtl(a, key) == PrevTtl(b, key))
  }

  ghost predicate SameLive(a: Db, b: Db, now: Time) {
    forall key :: AgreeAt(a, b, key, now)
  }

  lemma LaterSameLive(a: Db, b: Db, t: Time, now: Time)
    requires SameLive(a, b, t) && t <= now
    ensures SameLive(a, b, now)
  {
    forall key ensures AgreeAt(a, b, key, now) {
      assert AgreeAt(a, b, key, t);
    }
  }

  /** Deleting keys is invisible exactly when none of them is live. */
  lemma RemoveInvisible(db: Db, keys: set<Key>, now: Time)
    ensures SameLive(Remove(db, keys), db, now) <==> forall k :: k in keys ==> !Live(db, k, now)
  {
    if SameLive(Remove(db, keys), db, now) {
      forall k | k in keys ensures !Live(db, k, now) {
        assert AgreeAt(Remove(db, keys), db, k, now);
      }
    }
  }

  // ----- Store operations keep the live views the same -----

  lemma PutSameLive(a: Db, b: Db, key: Key, value: StoreValue, now: Time)
    requires SameLive(a, b, now)
    ensures SameLive(Put(a, key, value), Put(b, key, value), now)
  {
    forall k ensures AgreeAt(Put(a, key, value), Put(b, key, value), k, now) {
      assert AgreeAt(a, b, k, now);
    }
  }

  lemma UpdateSameLive(a: Db, b: Db, key: Key, value: StoreValue, now: Time)
    requires SameLive(a, b, now) && Live(a, key, now)
    ensures SameLive(Update(a, key, value), Update(b, key, value), now)
  {
    assert AgreeAt(a, b, key, now);
    forall k ensures AgreeAt(Update(a, key, value), Update(b, key, value), k, now) {
      assert AgreeAt(a, b, k, now);
    }
  }

  lemma RemoveSameLive(a: Db, b: Db, keys: set<Key>, now: Time)
    requires SameLive(a, b, now)
    ensures SameLive(Remove(a, keys), Remove(b, keys), now)
  {
    forall k ensures AgreeAt(Remove(a, keys), Remove(b, keys), k, now) {
      assert AgreeAt(a, b, k, now);
    }
  }

  lemma DropSameLive(a: Db, b: Db, key: Key, now: Time)
    requires SameLive(a, b, now)
    ensures SameLive(a.(data := a.data - {key}), b.(data := b.data - {key}), now)
  {
    forall k ensures AgreeAt(a.(data := a.data - {key}), b.(data := b.data - {key}), k, now) {
      assert AgreeAt(a, b, k, now);
    }
  }

  lemma SetTtlSameLive(a: Db, b: Db, key: Key, deadline: Time, now: Time)
    requires SameLive(a, b, now) && Live(a, key, now)
    ensures SameLive(SetTtl(a, key, deadline), SetTtl(b, key, deadline), now)
  {
    assert AgreeAt(a, b, key, now);
    forall k ensures AgreeAt(SetTtl(a, key, deadline), SetTtl(b, key, deadline), k, now) {
      assert AgreeAt(a, b, k, now);
    }
  }

  // ----- Commands that read only the live view -----

  /** KEEPTTL, DEL, DBSIZE and the expiry commands look at physical entries. */
  predicate LiveCommand(c: C.Command) {
    match c
    case Set(_, _, options) => options.expiry != Some(C.KeepTtl)
    case Delete(_) => false
    case Ttl(_) => false
    case PTtl(_) => false
    case ExpireTime(_) => false
    case PExpireTime(_) => false
    case Persist(_) => false
    case Expire(_, _) => false
    case PExpire(_, _) => false
    case ExpireAt(_, _) => false
    case PExpireAt(_, _) => false
    case DbSize => false
    case _ => true
  }

  ghost predicate SameOutcome(x: Outcome, y: Outcome, now: Time) {
    x.reply == y.reply && SameLive(x.db, y.db, now)
  }

  lemma SetSameLive(a: Db, b: Db, c: C.Command, env: Env)
    requires c.Set? && LiveCommand(c) && SameLive(a, b, env.now)
    ensures SameOutcome(Exec(a, c, env), Exec(b, c, env), env.now)
  {
    var Set(key, value, options) := c;
    assert AgreeAt(a, b, key, env.now);
    PutSameLive(a, b, key, Str(value), env.now);
    var d := DeadlineFor(options.expiry, PrevTtl(a, key), env.now);
    assert d == DeadlineFor(options.expiry, PrevTtl(b, key), env.now);
    if d.At? {
      SetTtlSameLive(Put(a, key, Str(value)), Put(b, key, Str(value)), key, d.time, env.now);
    }
  }

  lemma {:induction false} MSetSameLive(a: Db, b: Db, items: seq<(Key, Bytes)>, now: Time)
    requires SameLive(a, b, now)
    ensures SameLive(MSet(a, items), MSet(b, items), now)
  {
    if items != [] {
      var n := |items| - 1;
      MSetSameLive(a, b, items[..n], now);
      PutSameLive(MSet(a, items[..n]), MSet(b, items[..n]), items[n].0, Str(items[n].1), now);
    }
  }

  lemma GetDelSameLive(a: Db, b: Db, key: Key, now: Time)
    requires SameLive(a, b, now)
    ensures SameLive(GetDel(a, key, now), GetDel(b, key, now), now)
  {
    forall k ensures AgreeAt(GetDel(a, key, now), GetDel(b, key, now), k, now) {
      assert AgreeAt(a, b, k, now);
    }
  }

  lemma PushSameLive(a: Db, b: Db, key: Key, element: Bytes, create: bool, end: End, now: Time)
    requires SameLive(a, b, now)
    ensures var x, y := Push(a, key, element, create, end, now), Push(b, key, element, create, end, now);
      x.1 == y.1 && SameLive(x.0, y.0, now)
  {
    assert AgreeAt(a, b, key, now);
    match Lookup(a, key, now)
    case None => PutSameLive(a, b, key, List([element]), now);
    case Some(List(items)) => UpdateSameLive(a, b, key, List(PushTo(items, element, end)), now);
    case Some(_) =>
  }

  lemma {:induction false} PushAllSameLive(a: Db, b: Db, key: Key, elements: seq<Bytes>, create: bool, end: End, now: Time)
    requires SameLive(a, b, now)
    ensures var x, y := PushAll(a, key, elements, create, end, now), PushAll(b, key, elements, create, end, now);
      x.1 == y.1 && SameLive(x.0, y.0, now)
  {
    if elements != [] {
      var n := |elements| - 1;
      PushAllSameLive(a, b, key, elements[..n], create, end, now);
      PushSameLive(PushAll(a, key, elements[..n], create, end, now).0,
                   PushAll(b, key, elements[..n], create, end, now).0, key, elements[n], create, end, now);
    }
  }

  lemma PopSameLive(a: Db, b: Db, key: Key, count: nat, end: End, now: Time)
    requires SameLive(a, b, now)
    ensures var x, y := Pop(a, key, count, end, now), Pop(b, key, count, end, now);
      x.1 == y.1 && SameLive(x.0, y.0, now)
  {
    assert AgreeAt(a, b, key, now);
    DropSameLive(a, b, key, now);
    match Lookup(a, key, now)
    case None =>
    case Some(List(items)) => UpdateSameLive(a, b, key, List(Unpopped(items, count, end)), now);
    case Some(_) =>
  }

  lemma LSetSameLive(a: Db, b: Db, key: Key, index: int, element: Bytes, now: Time)
    requires SameLive(a, b, now)
    ensures var x, y := LSet(a, key, index, element, now), LSet(b, key, index, element, now);
      x.1 == y.1 && SameLive(x.0, y.0, now)
  {
    assert AgreeAt(a, b, key, now);
    match Lookup(a, key, now)
    case None =>
    case Some(List(items)) =>
      var i := ResolveIndex(index, |items|);
      if i.Some? && i.value < |items| {
        UpdateSameLive(a, b, key, List(items[i.value := element]), now);
      }
    case Some(_) =>
  }

  lemma SAddSameLive(a: Db, b: Db, key: Key, members: seq<Bytes>, now: Time)
    requires SameLive(a, b, now)
    ensures var x, y := SAdd(a, key, members, now), SAdd(b, key, members, now);
      x.1 == y.1 && SameLive(x.0, y.0, now)
  {
    assert AgreeAt(a, b, key, now);
    match Lookup(a, key, now)
    case None => PutSameLive(a, b, key, Set(ToSet(members)), now);
    case Some(Set(s)) => UpdateSameLive(a, b, key, Set(s + ToSet(members)), now);
    case Some(_) =>
  }

  lemma SRemSameLive(a: Db, b: Db, key: Key, members: seq<Bytes>, now: Time)
    requires SameLive(a, b, now)
    ensures var x, y := SRem(a, key, members, now), SRem(b, key, members, now);
      x.1 == y.1 && SameLive(x.0, y.0, now)
  {
    assert AgreeAt(a, b, key, now);
    match Lookup(a, key, now)
    case None =>
    case Some(Set(s)) => UpdateSameLive(a, b, key, Set(s - ToSet(members)), now);
    case Some(_) =>
  }

  lemma SPopSameLive(a: Db, b: Db, key: Key, drawn: set<Bytes>, now: Time)
    requires SameLive(a, b, now)
    ensures var x, y := SPop(a, key, drawn, now), SPop(b, key, drawn, now);
      x.1 == y.1 && SameLive(x.0, y.0, now)
  {
    assert AgreeAt(a, b, key, now);
    RemoveSameLive(a, b, {key}, now);
    match Lookup(a, key, now)
    case None =>
    case Some(Set(s)) => UpdateSameLive(a, b, key, Set(s - drawn), now);
    case Some(_) =>
  }

  lemma TakeMemberSameLive(a: Db, b: Db, source: Key, s: set<Bytes>, member: Bytes, now: Time)
    requires SameLive(a, b, now) && Live(a, source, now)
    ensures SameLive(TakeMember(a, source, s, member), TakeMember(b, source, s, member), now)
  {
    RemoveSameLive(a, b, {source}, now);
    UpdateSameLive(a, b, source, Set(s - {member}), now);
  }

  lemma SMoveSameLive(a: Db, b: Db, source: Key, destination: Key, member: Bytes, now: Time)
    requires SameLive(a, b, now)
    ensures var x, y := SMove(a, source, destination, member, now), SMove(b, source, destination, member, now);
      x.1 == y.1 && SameLive(x.0, y.0, now)
  {
    assert AgreeAt(a, b, source, now) && AgreeAt(a, b, destination, now);
    match Lookup(a, source, now)
    case None =>
    case Some(Set(s)) =>
      if member in s {
        var a', b' := TakeMember(a, source, s, member), TakeMember(b, source, s, member);
        TakeMemberSameLive(a, b, source, s, member, now);
        assert AgreeAt(a', b', destination, now);
        PutSameLive(a', b', destination, Set({member}), now);
        var target := Lookup(a', destination, now);
        if target.Some? && target.value.Set? {
          UpdateSameLive(a', b', destination, Set(target.value.members + {member}), now);
        }
      }
    case Some(_) =>
  }

  lemma {:induction false} CountSameLive(a: Db, b: Db, keys: seq<Key>, now: Time)
    requires SameLive(a, b, now)
    ensures CountLive(a, keys, now) == CountLive(b, keys, now)
  {
    if keys != [] {
      assert AgreeAt(a, b, keys[|keys| - 1], now);
      CountSameLive(a, b, keys[..|keys| - 1], now);
    }
  }

  lemma MGetSameLive(a: Db, b: Db, keys: seq<Key>, now: Time)
    requires SameLive(a, b, now)
    ensures MGet(a, keys, now) == MGet(b, keys, now)
  {
    forall i | 0 <= i < |keys| ensures MGet(a, keys, now)[i] == MGet(b, keys, now)[i] {
      assert AgreeAt(a, b, keys[i], now);
    }
  }

  lemma KeysSameLive(a: Db, b: Db, pattern: Bytes, now: Time)
    requires SameLive(a, b, now)
    ensures MatchingKeys(a, pattern, now) == MatchingKeys(b, pattern, now)
  {
    forall k ensures k in MatchingKeys(a, pattern, now) <==> k in MatchingKeys(b, pattern, now) {
      assert AgreeAt(a, b, k, now);
    }
  }

  lemma QuerySameLive(a: Db, b: Db, c: C.Command, env: Env)
    requires IsRead(c) && LiveCommand(c) && SameLive(a, b, env.now)
    ensures Query(a, c, env) == Query(b, c, env)
  {
    if c.Exists? {
      var Exists(keys) := c;
      CountSameLive(a, b, keys, env.now);
    } else if c.MGet? {
      var MGet(keys) := c;
      MGetSameLive(a, b, keys, env.now);
    } else if c.Keys? {
      KeysSameLive(a, b, c.pattern, env.now);
    } else if !c.Ping? && !c.Select? {
      assert AgreeAt(a, b, c.key, env.now);
    }
  }

  lemma ListSameLive(a: Db, b: Db, c: C.Command, now: Time)
    requires IsListWrite(c) && SameLive(a, b, now)
    ensures SameOutcome(MutateList(a, c, now), MutateList(b, c, now), now)
  {
    match c
    case LPush(key, es) => PushAllSameLive(a, b, key, es, true, Front, now);
    case RPush(key, es) => PushAllSameLive(a, b, key, es, true, Back, now);
    case LPushX(key, es) => PushAllSameLive(a, b, key, es, false, Front, now);
    case RPushX(key, es) => PushAllSameLive(a, b, key, es, false, Back, now);
    case LPop(key, count) => PopSameLive(a, b, key, CountOr1(count), Front, now);
    case RPop(key, count) => PopSameLive(a, b, key, CountOr1(count), Back, now);
    case LSet(key, index, element) => LSetSameLive(a, b, key, index, element, now);
  }

  lemma MembersSameLive(a: Db, b: Db, c: C.Command, env: Env)
    requires IsSetWrite(c) && SameLive(a, b, env.now)
    ensures SameOutcome(MutateSet(a, c, env), MutateSet(b, c, env), env.now)
  {
    match c
    case SAdd(key, members) => SAddSameLive(a, b, key, members, env.now);
    case SMove(source, destination, member) => SMoveSameLive(a, b, source, destination, member, env.now);
    case SPop(key, count) =>
      assert AgreeAt(a, b, key, env.now);
      SPopSameLive(a, b, key, Drawn(a, key, env.draw, CountOr1(count), env.now), env.now);
    case SRem(key, members) => SRemSameLive(a, b, key, members, env.now);
  }

  /** Two stores that look alike reply alike, and still look alike afterwards. */
  lemma StepSameLive(a: Db, b: Db, c: C.Command, env: Env)
    requires LiveCommand(c) && SameLive(a, b, env.now)
    ensures SameOutcome(Exec(a, c, env), Exec(b, c, env), env.now)
  {
    if IsRead(c) {
      QuerySameLive(a, b, c, env);
    } else if IsListWrite(c) {
      ListSameLive(a, b, c, env.now);
    } else if IsSetWrite(c) {
      MembersSameLive(a, b, c, env);
    } else if c.Set? {
      SetSameLive(a, b, c, env);
    } else if c.GetDel? {
      var GetDel(key) := c;
      assert AgreeAt(a, b, key, env.now);
      GetDelSameLive(a, b, key, env.now);
    } else if c.MSet? {
      MSetSameLive(a, b, c.items, env.now);
    }
  }

  /** At this moment no command that reads the live view tells the two stores apart. */
  ghost predicate Indistinguishable(a: Db, b: Db, now: Time) {
    forall c, env: Env :: LiveCommand(c) && env.now == now ==> Exec(a, c, env).reply == Exec(b, c, env).reply
  }

  lemma ExistsTells(db: Db, key: Key, env: Env)
    ensures Exec(db, C.Exists([key]), env).reply == Number(if Live(db, key, env.now) then 1 else 0)
  {
    assert [key][..0] == [];
    assert CountLive(db, [key][..0], env.now) == 0;
  }

  /** Deleting keys escapes every such command exactly when none of the keys is live. */
  lemma RemoveUndetected(db: Db, keys: set<Key>, env: Env)
    ensures Indistinguishable(Remove(db, keys), db, env.now) <==> forall k :: k in keys ==> !Live(db, k, env.now)
  {
    if forall k :: k in keys ==> !Live(db, k, env.now) {
      RemoveInvisible(db, keys, env.now);
      forall c, e: Env | LiveCommand(c) && e.now == env.now
        ensures Exec(Remove(db, keys), c, e).reply == Exec(db, c, e).reply
      {
        StepSameLive(Remove(db, keys), db, c, e);
      }
    } else {
      var k :| k in keys && Live(db, k, env.now);
      assert LiveCommand(C.Exists([k]));
      ExistsTells(db, k, env);
      ExistsTells(Remove(db, keys), k, env);
    }
  }

  // ----- Runs with eviction -----

  /** Client commands interleaved with the two phases of the eviction daemon. */
  datatype Event =
    | Client(command: C.Command, env: Env)
    | SampleIndex(picked: set<Key>, now: Time)
    | DeleteSampled(now: Time)

  function When(e: Event): Time {
    if e.Client? then e.env.now else e.now
  }

  /** The expired entries among the sampled ones. */
  function Doomed(db: Db, picked: set<Key>, now: Time): map<Key, Time> {
    map k | k in db.expiry && k in picked && now >= db.expiry[k] :: db.expiry[k]
  }

  ghost function NextDb(db: Db, doomed: map<Key, Time>, e: Event): Db {
    match e
    case Client(c, env) => Exec(db, c, env).db
    case SampleIndex(_, _) => db
    case DeleteSampled(_) => Remove(db, doomed.Keys)
  }

  function NextDoomed(db: Db, doomed: map<Key, Time>, e: Event): map<Key, Time> {
    match e
    case Client(_, _) => doomed
    case SampleIndex(picked, now) => Doomed(db, picked, now)
    case DeleteSampled(_) => map[]
  }

  /** The replies of a run in which the daemon works. */
  ghost function Replies(db: Db, doomed: map<Key, Time>, events: seq<Event>): seq<Reply>
    decreases |events|
  {
    if events == [] then []
    else
      var e := events[0];
      (if e.Client? then [Exec(db, e.command, e.env).reply] else []) +
      Replies(NextDb(db, doomed, e), NextDoomed(db, doomed, e), events[1..])
  }

  /** The replies to the same commands when nothing is ever evicted. */
  ghost function PlainReplies(db: Db, events: seq<Event>): seq<Reply>
    decreases |events|
  {
    if events == [] then []
    else
      var e := events[0];
      if e.Client? then [Exec(db, e.command, e.env).reply] + PlainReplies(Exec(db, e.command, e.env).db, events[1..])
      else PlainReplies(db, events[1..])
  }

  ghost predicate Ordered(events: seq<Event>, t: Time) {
    events == [] || (t <= When(events[0]) && Ordered(events[1..], When(events[0])))
  }

  ghost predicate LiveCommands(events: seq<Event>) {
    forall i :: 0 <= i < |events| && events[i].Client? ==> LiveCommand(events[i].command)
  }

  /** Whenever the daemon deletes, no key it deletes is live. */
  ghost predicate OnlyDeadDeleted(db: Db, doomed: map<Key, Time>, events: seq<Event>)
    decreases |events|
  {
    events == [] || (
      && (events[0].DeleteSampled? ==> forall k :: k in doomed ==> !Live(db, k, When(events[0])))
      && OnlyDeadDeleted(NextDb(db, doomed, events[0]), NextDoomed(db, doomed, events[0]), events[1..]))
  }

  ghost function PlainNext(db: Db, e: Event): Db {
    if e.Client? then Exec(db, e.command, e.env).db else db
  }

  /** One event keeps the views alike, unless it deletes a live key. */
  lemma EventSameLive(a: Db, b: Db, doomed: map<Key, Time>, e: Event)
    requires SameLive(a, b, When(e)) && (e.Client? ==> LiveCommand(e.command))
    requires e.DeleteSampled? ==> forall k :: k in doomed ==> !Live(a, k, When(e))
    ensures SameLive(NextDb(a, doomed, e), PlainNext(b, e), When(e))
    ensures e.Client? ==> Exec(a, e.command, e.env).reply == Exec(b, e.command, e.env).reply
  {
    if e.Client? {
      StepSameLive(a, b, e.command, e.env);
    } else if e.DeleteSampled? {
      RemoveInvisible(a, doomed.Keys, When(e));
      SameLiveChain(Remove(a, doomed.Keys), a, b, When(e));
    }
  }

  lemma {:induction false} EvictionInvisibleFrom(a: Db, b: Db, doomed: map<Key, Time>, events: seq<Event>, t: Time)
    requires SameLive(a, b, t) && Ordered(events, t) && LiveCommands(events)
    requires OnlyDeadDeleted(a, doomed, events)
    ensures Replies(a, doomed, events) == PlainReplies(b, events)
    decreases |events|
  {
    if events != [] {
      var e := events[0];
      LaterSameLive(a, b, t, When(e));
      EventSameLive(a, b, doomed, e);
      EvictionInvisibleFrom(NextDb(a, doomed, e), PlainNext(b, e), NextDoomed(a, doomed, e), events[1..], When(e));
    }
  }

  lemma SameLiveChain(a: Db, b: Db, c: Db, now: Time)
    requires SameLive(a, b, now) && SameLive(b, c, now)
    ensures SameLive(a, c, now)
  {
    forall k ensures AgreeAt(a, c, k, now) {
      assert AgreeAt(a, b, k, now) && AgreeAt(b, c, k, now);
    }
  }

  /** Eviction is invisible: wherever its two phases fall in a run, no reply changes if no live key is deleted. */
  lemma EvictionInvisible(db: Db, events: seq<Event>, t: Time)
    requires Ordered(events, t) && LiveCommands(events) && OnlyDeadDeleted(db, map[], events)
    ensures Replies(db, map[], events) == PlainReplies(db, events)
  {
    EvictionInvisibleFrom(db, db, map[], events, t);
  }

  /** Whenever the daemon deletes, every key it deletes still has the deadline it was sampled with. */
  ghost predicate StillSampled(db: Db, doomed: map<Key, Time>, events: seq<Event>)
    decreases |events|
  {
    events == [] || (
      && (events[0].DeleteSampled? ==> forall k :: k in doomed ==> k in db.expiry && db.expiry[k] == doomed[k])
      && StillSampled(NextDb(db, doomed, events[0]), NextDoomed(db, doomed, events[0]), events[1..]))
  }

  /** That is enough: a sampled deadline was reached when it was sampled. */
  lemma {:induction false} StillSampledIsDead(db: Db, doomed: map<Key, Time>, events: seq<Event>, t: Time)
    requires Ordered(events, t) && (forall k :: k in doomed ==> doomed[k] <= t) && StillSampled(db, doomed, events)
    ensures OnlyDeadDeleted(db, doomed, events)
    decreases |events|
  {
    if events != [] {
      var e := events[0];
      StillSampledIsDead(NextDb(db, doomed, e), NextDoomed(db, doomed, e), events[1..], When(e));
    }
  }

  // ----- And only then -----

  /** At every moment of the run no live-view command tells the store from one where nothing was evicted. */
  ghost predicate AlwaysAlike(a: Db, b: Db, doomed: map<Key, Time>, events: seq<Event>, t: Time)
    decreases |events|
  {
    Indistinguishable(a, b, t) && (events == [] || (
      var e := events[0];
      AlwaysAlike(NextDb(a, doomed, e), PlainNext(b, e), NextDoomed(a, doomed, e), events[1..], When(e))))
  }

  lemma SameLiveUndetected(a: Db, b: Db, now: Time)
    requires SameLive(a, b, now)
    ensures Indistinguishable(a, b, now)
  {
    forall c, env: Env | LiveCommand(c) && env.now == now ensures Exec(a, c, env).reply == Exec(b, c, env).reply {
      StepSameLive(a, b, c, env);
    }
  }

  /** A live key that was deleted is missed. */
  lemma DeletionDetected(a: Db, b: Db, keys: set<Key>, k: Key, now: Time)
    requires SameLive(a, b, now) && k in keys && Live(a, k, now)
    ensures !Indistinguishable(Remove(a, keys), b, now)
  {
    var env := Env(now, (s: Bytes) => 0, (s: set<Bytes>, n: nat) => {});
    assert AgreeAt(a, b, k, now);
    ExistsTells(b, k, env);
    ExistsTells(Remove(a, keys), k, env);
    assert LiveCommand(C.Exists([k]));
  }

  /** Eviction stays undetectable throughout a run exactly when it never deletes a live key. */
  lemma {:induction false} UndetectedExactly(a: Db, b: Db, doomed: map<Key, Time>, events: seq<Event>, t: Time)
    requires SameLive(a, b, t) && Ordered(events, t) && LiveCommands(events)
    ensures AlwaysAlike(a, b, doomed, events, t) <==> OnlyDeadDeleted(a, doomed, events)
    decreases |events|
  {
    SameLiveUndetected(a, b, t);
    if events != [] {
      var e := events[0];
      LaterSameLive(a, b, t, When(e));
      if e.DeleteSampled? && exists k :: k in doomed && Live(a, k, When(e)) {
        var k :| k in doomed && Live(a, k, When(e));
        DeletionDetected(a, b, doomed.Keys, k, When(e));
      } else {
        EventSameLive(a, b, doomed, e);
        UndetectedExactly(NextDb(a, doomed, e), PlainNext(b, e), NextDoomed(a, doomed, e), events[1..], When(e));
      }
    }
  }

  /** A key about to be evicted is overwritten between the two phases, then read. */
  function RaceEvents(env: Env): seq<Event> {
    [SampleIndex({"k"}, env.now)] + RaceTail(env)
  }

  function RaceTail(env: Env): seq<Event> {
    [Client(C.Set("k", "b", C.NO_OPTIONS), env)] + ([DeleteSampled(env.now)] + [Client(C.Get("k"), env)])
  }

  const RACE_DB := Db(map["k" := Str("a")], map["k" := 5])
  const RACE_WRITTEN := Db(map["k" := Str("b")], map[])

  lemma RaceWrite(env: Env)
    requires env.now >= 5
    ensures Exec(RACE_DB, C.Set("k", "b", C.NO_OPTIONS), env) == Outcome(RACE_WRITTEN, OK)
  {
    assert Put(RACE_DB, "k", Str("b")) == RACE_WRITTEN;
  }

  function LastEvents(env: Env): seq<Event> {
    [Client(C.Get("k"), env)]
  }

  lemma RaceSlices(env: Env)
    ensures RaceEvents(env)[0] == SampleIndex({"k"}, env.now) && RaceEvents(env)[1..] == RaceTail(env)
    ensures RaceTail(env)[0] == Client(C.Set("k", "b", C.NO_OPTIONS), env)
    ensures RaceTail(env)[1..] == [DeleteSampled(env.now)] + LastEvents(env)
    ensures ([DeleteSampled(env.now)] + LastEvents(env))[1..] == LastEvents(env) && LastEvents(env)[1..] == []
  {
  }

  lemma LastReplies(env: Env)
    ensures Replies(EMPTY, map[], LastEvents(env)) == [Value(Resp2.NullBulkString)]
    ensures PlainReplies(RACE_WRITTEN, LastEvents(env)) == [Value(Resp2.BulkString("b"))]
  {
    RaceSlices(env);
  }

  lemma DeletedReplies(env: Env)
    ensures Replies(RACE_WRITTEN, map["k" := 5], [DeleteSampled(env.now)] + LastEvents(env)) == [Value(Resp2.NullBulkString)]
    ensures PlainReplies(RACE_WRITTEN, [DeleteSampled(env.now)] + LastEvents(env)) == [Value(Resp2.BulkString("b"))]
  {
    RaceSlices(env);
    LastReplies(env);
    assert Remove(RACE_WRITTEN, map["k" := 5].Keys) == EMPTY;
  }

  lemma TailReplies(env: Env)
    requires env.now >= 5
    ensures Replies(RACE_DB, map["k" := 5], RaceTail(env)) == [OK, Value(Resp2.NullBulkString)]
    ensures PlainReplies(RACE_DB, RaceTail(env)) == [OK, Value(Resp2.BulkString("b"))]
  {
    RaceSlices(env);
    RaceWrite(env);
    DeletedReplies(env);
  }

  lemma RaceReplies(env: Env)
    requires env.now >= 5
    ensures Replies(RACE_DB, map[], RaceEvents(env)) == [OK, Value(Resp2.NullBulkString)]
    ensures PlainReplies(RACE_DB, RaceEvents(env)) == [OK, Value(Resp2.BulkString("b"))]
  {
    RaceSlices(env);
    assert Doomed(RACE_DB, {"k"}, env.now) == map["k" := 5];
    TailReplies(env);
  }

  lemma RaceOrdered(env: Env)
    ensures Ordered(RaceEvents(env), 0) && LiveCommands(RaceEvents(env))
  {
    RaceSlices(env);
    assert Ordered(LastEvents(env), env.now);
    assert Ordered([DeleteSampled(env.now)] + LastEvents(env), env.now);
    assert Ordered(RaceTail(env), env.now);
  }

  /** Without the proviso a write between the two phases is lost: the SET succeeds, and the GET finds nothing. */
  lemma EvictionRace(env: Env)
    requires env.now >= 5
    ensures Ordered(RaceEvents(env), 0) && LiveCommands(RaceEvents(env))
    ensures Replies(RACE_DB, map[], RaceEvents(env)) != PlainReplies(RACE_DB, RaceEvents(env))
  {
    RaceOrdered(env);
    RaceReplies(env);
  }

  // ----- The daemon -----

  const SAMPLE_SIZE: nat := 20

  ghost function LiveKeys(db: Db, now: Time): set<Key> {
    set k | k in db.data && Live(db, k, now)
  }

  class TtlEvictionDaemon {
    const store: S.Store

    constructor (store: S.Store)
      ensures this.store == store
    {
      this.store := store;
    }

    /** Samples the index and evicts the expired keys; a small index is cleaned completely. */
    method EvictExpired(now: Time) returns (keysToDelete: seq<Key>)
      modifies store
      ensures store.View() == Remove(old(store.View()), ToSet(keysToDelete))
      ensures TakenBySample(ToSet(keysToDelete), old(store.expiry), now)
      ensures SameLive(store.View(), old(store.View()), now)
      ensures |old(store.expiry)| <= 20 ==>
        && (forall k :: k in store.data ==> Live(store.View(), k, now))
        && |store.data| == |LiveKeys(old(store.View()), now)|
    {
      var sample := store.SampleEvictionIndex(SAMPLE_SIZE);
      keysToDelete := PickExpired(sample, now);
      ghost var evicted := ToSet(keysToDelete);
      assert IsSample(sample.Keys, store.expiry) && evicted == Due(sample.Keys, store.expiry, now);
      if |store.expiry| <= SAMPLE_SIZE {
        WholeIndexSampled(sample.Keys, store.expiry);
        OnlyLiveLeft(store.View(), evicted, now);
      }
      store.DeleteBulk(keysToDelete);
      RemoveInvisible(old(store.View()), evicted, now);
    }

    /** The daemon's loop: of entries that had all been reached at `t`, every tick since takes 20. */
    method EvictPeriodically(times: seq<Time>, ghost t: Time)
      requires forall i :: 0 <= i < |times| ==> t <= times[i]
      modifies store
      ensures AllDue(old(store.expiry), t) ==> |store.expiry| == Left(|old(store.expiry)|, |times|)
    {
      ghost var due, n := AllDue(store.expiry, t), |store.expiry|;
      for i := 0 to |times|
        invariant due ==> AllDue(store.expiry, t) && |store.expiry| == Left(n, i)
      {
        ghost var index := store.expiry;
        var keysToDelete := EvictExpired(times[i]);
        if due {
          LastTick(index, ToSet(keysToDelete), times[i], t);
        }
      }
    }
  }

  /** The loop over the sampled entries. */
  method PickExpired(sample: map<Key, Time>, now: Time) returns (keysToDelete: seq<Key>)
    ensures forall k :: k in keysToDelete <==> k in sample && now >= sample[k]
  {
    keysToDelete := [];
    var pool := sample.Keys;
    while pool != {}
      invariant pool <= sample.Keys
      invariant forall k :: k in keysToDelete <==> k in sample.Keys - pool && now >= sample[k]
      decreases |pool|
    {
      var key :| key in pool;
      if now >= sample[key] {
        keysToDelete := keysToDelete + [key];
      }
      pool := pool - {key};
    }
  }

  lemma OnlyLiveLeft(db: Db, evicted: set<Key>, now: Time)
    requires forall k :: k in evicted <==> Expired(db, k, now)
    ensures var db' := Remove(db, evicted);
      (forall k :: k in db'.data ==> Live(db', k, now)) && |db'.data| == |LiveKeys(db, now)|
  {
    assert Remove(db, evicted).data.Keys == LiveKeys(db, now);
  }

  lemma WholeIndexSampled(sample: set<Key>, index: map<Key, Time>)
    requires sample <= index.Keys && |sample| == |index|
    ensures sample == index.Keys
  {
    assert index.Keys == sample + (index.Keys - sample);
    assert |index.Keys| == |sample| + |index.Keys - sample|;
  }

  /** DBSIZE counts at least the live keys, and exactly those when no stored key has expired. */
  lemma DbSizeBound(db: Db, now: Time)
    ensures |LiveKeys(db, now)| <= |db.data|
    ensures |LiveKeys(db, now)| == |db.data| <==> forall k :: k in db.data ==> Live(db, k, now)
  {
    var live, dead := LiveKeys(db, now), db.data.Keys - LiveKeys(db, now);
    assert db.data.Keys == live + dead;
    assert |db.data.Keys| == |live| + |dead|;
    if dead == {} {
      forall k | k in db.data ensures Live(db, k, now) {
        assert k in live;
      }
    } else {
      var k :| k in dead;
    }
  }
}
