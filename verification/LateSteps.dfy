/**
 * Replaying a log at one time, however many of its deadlines have passed by then: exactly which commands still
 * rebuild what clients can see.
 */
module LateSteps {
  import opened Bytes
  import opened Decimal
  import opened Database
  import opened Execution
  import opened Deadlines
  import opened Recovery
  import opened RecoverySteps
  import opened Lapsed
  import C = Command
  import L = Lists
  import Sets
  import Strings

  // ----- The run at its own time, and the replay at `env'.now` -----

  /** What the run and the replay have in common before a command: what clients see when the log is replayed. */
  ghost predicate ReadLater(a: Db, b: Db, env: Env, env': Env, unit: nat) {
    && IsUnit(unit) && env.now <= env'.now < INSTANT_LIMIT && env.digest == env'.digest
    && SameView(a, b, env'.now, unit)
  }

  /** The run sees the key, and by the time of the replay its deadline has passed. */
  predicate Lapsing(a: Db, k: Key, now: Time, later: Time) {
    Live(a, k, now) && !Live(a, k, later)
  }

  /** The replay sees what the run saw, except at a key that has lapsed. */
  lemma SeenLater(a: Db, b: Db, k: Key, env: Env, env': Env, unit: nat)
    requires ReadLater(a, b, env, env', unit)
    ensures Lookup(b, k, env'.now) == if Lapsing(a, k, env.now, env'.now) then None else Lookup(a, k, env.now)
    ensures ViewAt(a, b, k, env'.now, unit)
  {
    assert ViewAt(a, b, k, env'.now, unit);
  }

  // ----- Changes at a few keys -----

  predicate OnlyIn(a: Db, a': Db, keys: set<Key>) {
    a'.data - keys == a.data - keys && a'.expiry - keys == a.expiry - keys
  }

  lemma UnchangedOutside(a: Db, a': Db, keys: set<Key>, j: Key)
    requires OnlyIn(a, a', keys) && j !in keys
    ensures (j in a'.data <==> j in a.data) && (j in a.data ==> a'.data[j] == a.data[j])
    ensures (j in a'.expiry <==> j in a.expiry) && (j in a.expiry ==> a'.expiry[j] == a.expiry[j])
  {
    assert j in a.data <==> j in a.data - keys;
    assert j in a'.data <==> j in a'.data - keys;
    assert j in a.expiry <==> j in a.expiry - keys;
    assert j in a'.expiry <==> j in a'.expiry - keys;
    assert j in a.data ==> (a.data - keys)[j] == a.data[j] && (a'.data - keys)[j] == a'.data[j];
    assert j in a.expiry ==> (a.expiry - keys)[j] == a.expiry[j] && (a'.expiry - keys)[j] == a'.expiry[j];
  }

  /** Where nothing else changes, the views agree exactly when they agree at the changed keys. */
  lemma ViewChanges(a: Db, b: Db, a': Db, b': Db, keys: set<Key>, t: Time, unit: nat)
    requires unit > 0 && SameView(a, b, t, unit) && OnlyIn(a, a', keys) && OnlyIn(b, b', keys)
    ensures SameView(a', b', t, unit) <==> forall k :: k in keys ==> ViewAt(a', b', k, t, unit)
  {
    if forall k :: k in keys ==> ViewAt(a', b', k, t, unit) {
      forall j ensures ViewAt(a', b', j, t, unit) {
        if j !in keys {
          UnchangedOutside(a, a', keys, j);
          UnchangedOutside(b, b', keys, j);
          assert ViewAt(a, b, j, t, unit);
        }
      }
    }
  }

  lemma ViewChangesAt(a: Db, b: Db, a': Db, b': Db, k: Key, t: Time, unit: nat)
    requires unit > 0 && SameView(a, b, t, unit) && OnlyAt(a, a', k) && OnlyAt(b, b', k)
    ensures SameView(a', b', t, unit) <==> ViewAt(a', b', k, t, unit)
  {
    ViewChanges(a, b, a', b', {k}, t, unit);
    assert k in {k};
  }

  // ----- Lists and sets -----

  lemma PushLate(a: Db, b: Db, key: Key, es: seq<Bytes>, create: bool, end: End, env: Env, env': Env, unit: nat)
    requires ReadLater(a, b, env, env', unit) && es != []
    requires var v := Lookup(a, key, env.now); v.None? || v.value.List?
    ensures SameView(ExecPush(a, key, es, create, end, env.now).db, ExecPush(b, key, es, create, end, env'.now).db, env'.now, unit)
      <==> (create ==> !Lapsing(a, key, env.now, env'.now))
  {
    var a', b' := ExecPush(a, key, es, create, end, env.now).db, ExecPush(b, key, es, create, end, env'.now).db;
    SeenLater(a, b, key, env, env', unit);
    L.PushAllResult(a, key, es, create, end, env.now);
    L.PushAllResult(b, key, es, create, end, env'.now);
    var items := if Live(a, key, env.now) then a.data[key].items else [];
    OnlyAtKey(a, key, List(L.PushedOnto(items, es, end)), 0);
    OnlyAtKey(b, key, List(L.PushedOnto(items, es, end)), 0);
    OnlyAtKey(b, key, List(L.PushedOnto([], es, end)), 0);
    ViewChangesAt(a, b, a', b', key, env'.now, unit);
  }

  lemma PopLate(a: Db, b: Db, key: Key, count: nat, end: End, env: Env, env': Env, unit: nat)
    requires ReadLater(a, b, env, env', unit)
    ensures SameView(Pop(a, key, count, end, env.now).0, Pop(b, key, count, end, env'.now).0, env'.now, unit)
  {
    var a', b' := Pop(a, key, count, end, env.now).0, Pop(b, key, count, end, env'.now).0;
    SeenLater(a, b, key, env, env', unit);
    match Lookup(a, key, env.now)
    case Some(List(items)) =>
      OnlyAtKey(a, key, List(Unpopped(items, count, end)), 0);
      OnlyAtKey(b, key, List(Unpopped(items, count, end)), 0);
      ViewChangesAt(a, b, a', b', key, env'.now, unit);
    case _ =>
  }

  lemma SAddLate(a: Db, b: Db, key: Key, members: seq<Bytes>, env: Env, env': Env, unit: nat)
    requires ReadLater(a, b, env, env', unit)
    requires Live(a, key, env.now) ==> Sets.HoldsSet(a, key, env.now)
    ensures SameView(SAdd(a, key, members, env.now).0, SAdd(b, key, members, env'.now).0, env'.now, unit)
      <==> !Lapsing(a, key, env.now, env'.now)
  {
    var a', b' := SAdd(a, key, members, env.now).0, SAdd(b, key, members, env'.now).0;
    SeenLater(a, b, key, env, env', unit);
    var s := Sets.MembersAt(a, key, env.now);
    OnlyAtKey(a, key, Set(s + ToSet(members)), 0);
    OnlyAtKey(b, key, Set(s + ToSet(members)), 0);
    OnlyAtKey(a, key, Set(ToSet(members)), 0);
    OnlyAtKey(b, key, Set(ToSet(members)), 0);
    ViewChangesAt(a, b, a', b', key, env'.now, unit);
  }

  lemma SRemLate(a: Db, b: Db, key: Key, members: seq<Bytes>, env: Env, env': Env, unit: nat)
    requires ReadLater(a, b, env, env', unit)
    ensures SameView(SRem(a, key, members, env.now).0, SRem(b, key, members, env'.now).0, env'.now, unit)
  {
    var a', b' := SRem(a, key, members, env.now).0, SRem(b, key, members, env'.now).0;
    SeenLater(a, b, key, env, env', unit);
    match Lookup(a, key, env.now)
    case Some(Set(s)) =>
      OnlyAtKey(a, key, Set(s - ToSet(members)), 0);
      OnlyAtKey(b, key, Set(s - ToSet(members)), 0);
      ViewChangesAt(a, b, a', b', key, env'.now, unit);
    case _ =>
  }

  lemma SPopLate(a: Db, b: Db, key: Key, count: Option<nat>, env: Env, env': Env, unit: nat)
    requires ReadLater(a, b, env, env', unit)
    ensures SameView(ExecSPop(a, key, count, env).db, ExecSPop(b, key, count, env').db, env'.now, unit)
      <==> Lapsing(a, key, env.now, env'.now) || LeftBySPop(a, key, count, env) == LeftBySPop(b, key, count, env')
  {
    SeenLater(a, b, key, env, env', unit);
    SPopLeaves(a, key, count, env);
    SPopLeaves(b, key, count, env');
    if Sets.HoldsSet(a, key, env.now) {
      var left, left' := LeftBySPop(a, key, count, env), LeftBySPop(b, key, count, env');
      LeavesOnly(a, key, left);
      LeavesOnly(b, key, left');
      LeavesOnly(b, key, left);
      var b' := if Lapsing(a, key, env.now, env'.now) then b else LeaveIn(b, key, left');
      OnlyAtKey(b, key, Set(left), 0);
      ViewChangesAt(a, b, LeaveIn(a, key, left), b', key, env'.now, unit);
    }
  }

  lemma LeavesOnly(db: Db, key: Key, left: set<Bytes>)
    ensures OnlyAt(db, LeaveIn(db, key, left), key)
  {
    OnlyAtKey(db, key, Set(left), 0);
  }

  // ----- Whole keys -----

  lemma PutLate(a: Db, b: Db, key: Key, v: StoreValue, t: Time, unit: nat)
    requires unit > 0 && SameView(a, b, t, unit)
    ensures SameView(Put(a, key, v), Put(b, key, v), t, unit)
  {
    OnlyAtKey(a, key, v, 0);
    OnlyAtKey(b, key, v, 0);
    ViewChangesAt(a, b, Put(a, key, v), Put(b, key, v), key, t, unit);
  }

  lemma {:induction false} MSetLate(a: Db, b: Db, items: seq<(Key, Bytes)>, t: Time, unit: nat)
    requires unit > 0 && SameView(a, b, t, unit)
    ensures SameView(MSet(a, items), MSet(b, items), t, unit)
  {
    if items != [] {
      var n := |items| - 1;
      MSetLate(a, b, items[..n], t, unit);
      PutLate(MSet(a, items[..n]), MSet(b, items[..n]), items[n].0, Str(items[n].1), t, unit);
    }
  }

  lemma RemoveLate(a: Db, b: Db, keys: set<Key>, t: Time, unit: nat)
    requires unit > 0 && SameView(a, b, t, unit)
    ensures SameView(Remove(a, keys), Remove(b, keys), t, unit)
  {
    forall k ensures ViewAt(Remove(a, keys), Remove(b, keys), k, t, unit) {
      assert ViewAt(a, b, k, t, unit);
    }
  }

  lemma GetDelLate(a: Db, b: Db, key: Key, env: Env, env': Env, unit: nat)
    requires ReadLater(a, b, env, env', unit)
    ensures SameView(GetDel(a, key, env.now), GetDel(b, key, env'.now), env'.now, unit)
  {
    SeenLater(a, b, key, env, env', unit);
    OnlyAtKey(a, key, Str([]), 0);
    OnlyAtKey(b, key, Str([]), 0);
    ViewChangesAt(a, b, GetDel(a, key, env.now), GetDel(b, key, env'.now), key, env'.now, unit);
  }

  /** Both stores physically hold the key, with the same value; or neither does. */
  predicate SameStored(a: Db, b: Db, k: Key) {
    (k in a.data <==> k in b.data) && (k in a.data ==> a.data[k] == b.data[k])
  }

  lemma PersistLate(a: Db, b: Db, key: Key, t: Time, unit: nat)
    requires unit > 0 && SameView(a, b, t, unit)
    ensures SameView(a.(expiry := a.expiry - {key}), b.(expiry := b.expiry - {key}), t, unit) <==> SameStored(a, b, key)
  {
    OnlyAtKey(a, key, Str([]), 0);
    OnlyAtKey(b, key, Str([]), 0);
    ViewChangesAt(a, b, a.(expiry := a.expiry - {key}), b.(expiry := b.expiry - {key}), key, t, unit);
  }

  // ----- SMOVE -----

  /** A move whose source has lapsed is not replayed; one whose destination has lapsed is replayed into a new set. */
  predicate MoveReplaysLate(a: Db, source: Key, destination: Key, member: Bytes, now: Time, later: Time) {
    if !Lapsing(a, source, now, later) then !Lapsing(a, destination, now, later)
    else if source == destination then Sets.MembersAt(a, source, now) != {member}
    else Live(a, destination, now) && (Lapsing(a, destination, now, later) || member in Sets.MembersAt(a, destination, now))
  }

  lemma MoveOnly(db: Db, source: Key, destination: Key, member: Bytes, now: Time)
    ensures OnlyIn(db, SMove(db, source, destination, member, now).0, {source, destination})
  {
    match Lookup(db, source, now)
    case Some(Set(s)) =>
      var taken := TakeMember(db, source, s, member);
      assert OnlyIn(db, taken, {source, destination});
      var target := Lookup(taken, destination, now);
      var v := if target.Some? && target.value.Set? then Set(target.value.members + {member}) else Set({member});
      assert OnlyIn(taken, Update(taken, destination, v), {source, destination});
      assert OnlyIn(taken, Put(taken, destination, v), {source, destination});
    case _ =>
  }

  /** The two sets after a move between two keys. */
  lemma MovedBetween(db: Db, source: Key, destination: Key, member: Bytes, now: Time)
    requires source != destination && SMove(db, source, destination, member, now).1 == Success(true)
    ensures var db', s := SMove(db, source, destination, member, now).0, Sets.MembersAt(db, source, now);
      && (if s == {member} then source !in db'.data && source !in db'.expiry
          else source in db'.data && db'.data[source] == Set(s - {member}) && PrevTtl(db', source) == PrevTtl(db, source))
      && destination in db'.data && db'.data[destination] == Set(Sets.MembersAt(db, destination, now) + {member})
      && PrevTtl(db', destination) == if Live(db, destination, now) then PrevTtl(db, destination) else None
  {
    var s := Sets.MembersAt(db, source, now);
    var taken := TakeMember(db, source, s, member);
    assert Lookup(taken, destination, now) == Lookup(db, destination, now);
    assert s == {member} <==> s - {member} == {};
  }

  lemma MovedOnto(db: Db, key: Key, member: Bytes, now: Time)
    requires SMove(db, key, key, member, now).1 == Success(true)
    ensures var db', s := SMove(db, key, key, member, now).0, Sets.MembersAt(db, key, now);
      && key in db'.data && db'.data[key] == Set(s)
      && PrevTtl(db', key) == if s == {member} then None else PrevTtl(db, key)
  {
    var s := Sets.MembersAt(db, key, now);
    assert s - {member} + {member} == s;
    assert s == {member} <==> s - {member} == {};
  }

  lemma MoveSucceedsLater(a: Db, b: Db, source: Key, destination: Key, member: Bytes, env: Env, env': Env, unit: nat)
    requires ReadLater(a, b, env, env', unit) && SMove(a, source, destination, member, env.now).1 == Success(true)
    ensures Lapsing(a, source, env.now, env'.now) ==> SMove(b, source, destination, member, env'.now) == (b, Success(false))
    ensures !Lapsing(a, source, env.now, env'.now) ==> SMove(b, source, destination, member, env'.now).1 == Success(true)
  {
    SeenLater(a, b, source, env, env', unit);
    SeenLater(a, b, destination, env, env', unit);
    Sets.SMoveSucceeds(a, source, destination, member, env.now);
    Sets.SMoveSucceeds(b, source, destination, member, env'.now);
  }

  lemma MoveOntoLate(a: Db, b: Db, key: Key, member: Bytes, env: Env, env': Env, unit: nat)
    requires ReadLater(a, b, env, env', unit) && SMove(a, key, key, member, env.now).1 == Success(true)
    ensures ViewAt(SMove(a, key, key, member, env.now).0, SMove(b, key, key, member, env'.now).0, key, env'.now, unit)
      <==> MoveReplaysLate(a, key, key, member, env.now, env'.now)
  {
    SeenLater(a, b, key, env, env', unit);
    MoveSucceedsLater(a, b, key, key, member, env, env', unit);
    MovedOnto(a, key, member, env.now);
    if !Lapsing(a, key, env.now, env'.now) {
      MovedOnto(b, key, member, env'.now);
    }
  }

  lemma MoveBetweenLate(a: Db, b: Db, source: Key, destination: Key, member: Bytes, env: Env, env': Env, unit: nat)
    requires ReadLater(a, b, env, env', unit) && SMove(a, source, destination, member, env.now).1 == Success(true)
    requires source != destination
    ensures var a', b' := SMove(a, source, destination, member, env.now).0, SMove(b, source, destination, member, env'.now).0;
      (ViewAt(a', b', source, env'.now, unit) && ViewAt(a', b', destination, env'.now, unit)) <==>
      MoveReplaysLate(a, source, destination, member, env.now, env'.now)
  {
    SeenLater(a, b, source, env, env', unit);
    SeenLater(a, b, destination, env, env', unit);
    Sets.SMoveSucceeds(a, source, destination, member, env.now);
    MoveSucceedsLater(a, b, source, destination, member, env, env', unit);
    MovedBetween(a, source, destination, member, env.now);
    if Lapsing(a, source, env.now, env'.now) {
      var d := Sets.MembersAt(a, destination, env.now);
      assert member in d ==> d + {member} == d;
      assert member !in d ==> member in d + {member};
    } else {
      MovedBetween(b, source, destination, member, env'.now);
    }
  }

  lemma SMoveLate(a: Db, b: Db, source: Key, destination: Key, member: Bytes, env: Env, env': Env, unit: nat)
    requires ReadLater(a, b, env, env', unit) && SMove(a, source, destination, member, env.now).1 == Success(true)
    ensures SameView(SMove(a, source, destination, member, env.now).0, SMove(b, source, destination, member, env'.now).0, env'.now, unit)
      <==> MoveReplaysLate(a, source, destination, member, env.now, env'.now)
  {
    var a', b' := SMove(a, source, destination, member, env.now).0, SMove(b, source, destination, member, env'.now).0;
    MoveOnly(a, source, destination, member, env.now);
    MoveOnly(b, source, destination, member, env'.now);
    ViewChanges(a, b, a', b', {source, destination}, env'.now, unit);
    if source == destination {
      MoveOntoLate(a, b, source, member, env, env', unit);
    } else {
      MoveBetweenLate(a, b, source, destination, member, env, env', unit);
    }
    assert source in {source, destination} && destination in {source, destination};
  }

  // ----- Deadlines -----

  /**
   * The replay at `later` of an absolute deadline `n`, in `base`s: it is still to come, and falls in the same unit.
   * Otherwise the replay deletes the key, or gives it another deadline.
   */
  predicate Lands(n: nat, now: Time, later: Time, base: nat, unit: nat)
    requires base > 0
  {
    n > later / base && (base <= unit || SameOffset(now, later))
  }

  /** A Unix deadline installed by the run, and by the replay at `later`. */
  lemma UnixLate(n: nat, now: Time, later: Time, base: nat, unit: nat)
    requires IsUnit(base) && IsUnit(unit) && now <= later < INSTANT_LIMIT && UnixToInstant(n, now, base) < INSTANT_LIMIT
    ensures UnixToInstant(n, later, base) < INSTANT_LIMIT
    ensures UnixToInstant(n, now, base) <= later ==> n <= later / base && UnixToInstant(n, later, base) == later
    ensures (n > later / base && UnixToInstant(n, later, base) / unit == UnixToInstant(n, now, base) / unit) <==>
      Lands(n, now, later, base, unit)
    ensures n > later / base ==> UnixToInstant(n, later, base) > later
  {
    DivMonotone(now, later, base);
    if n > later / base {
      InstantOf(n, now, base);
      InstantOf(n, later, base);
      Beyond(n, later, base);
      BelowLimit(n, now % base, later % base, base);
      SameUnit(n, now % base, later % base, base, unit);
    }
    if UnixToInstant(n, now, base) <= later && n > now / base {
      InstantOf(n, now, base);
      WholeUnits(n, now % base, later, base);
    }
  }

  /** Two instants of the same `base` are in the same unit if the unit is no finer, or if they agree to the millisecond. */
  lemma SameUnit(n: nat, r: nat, r': nat, base: nat, unit: nat)
    requires IsUnit(base) && IsUnit(unit) && r < base && r' < base
    ensures (n * base + r) / unit == (n * base + r') / unit <==> base <= unit || r / MILLISECOND == r' / MILLISECOND
  {
    if base <= unit {
      CoarserUnit(base, unit, n, r);
      CoarserUnit(base, unit, n, r');
    } else {
      MillisOfSecond(n, r);
      MillisOfSecond(n, r');
    }
  }

  lemma Beyond(n: nat, later: Time, base: nat)
    requires IsUnit(base) && n > later / base
    ensures n * base + later % base > later
  {
  }

  lemma WholeUnits(n: nat, r: nat, later: Time, base: nat)
    requires IsUnit(base) && n * base + r <= later
    ensures n <= later / base
  {
  }

  /** A deadline set on a stored key by the run, and as an absolute one by the replay. */
  lemma SetDeadlineLate(a: Db, b: Db, key: Key, t: Time, n: nat, base: nat, fine: bool, later: Time, unit: nat)
    requires IsUnit(base) && IsUnit(unit) && SameView(a, b, later, unit) && key in a.data
    requires t <= later ==> n <= later / base
    requires n > later / base ==> later < UnixToInstant(n, later, base) < INSTANT_LIMIT
    requires t > later ==> (fine <==> n > later / base && UnixToInstant(n, later, base) / unit == t / unit)
    ensures var o' := ExpireAtUnix(b, key, later, n, base);
      && o'.reply != Panics
      && (SameView(SetTtl(a, key, t), o'.db, later, unit) <==> (t > later ==> fine && SameStored(a, b, key)))
  {
    var a', b' := SetTtl(a, key, t), ExpireAtUnix(b, key, later, n, base).db;
    OnlyAtKey(a, key, Str([]), t);
    OnlyAtKey(b, key, Str([]), UnixToInstant(n, later, base));
    ViewChangesAt(a, b, a', b', key, later, unit);
  }

  lemma AbsoluteLate(a: Db, b: Db, key: Key, n: nat, base: nat, env: Env, env': Env, unit: nat)
    requires ReadLater(a, b, env, env', unit) && IsUnit(base)
    requires ExpireAtUnix(a, key, env.now, n, base).reply == Number(1)
    ensures var o, o' := ExpireAtUnix(a, key, env.now, n, base), ExpireAtUnix(b, key, env'.now, n, base);
      && o'.reply != Panics
      && (SameView(o.db, o'.db, env'.now, unit) <==>
          (UnixToInstant(n, env.now, base) > env'.now ==> Lands(n, env.now, env'.now, base, unit) && SameStored(a, b, key)))
  {
    UnixLate(n, env.now, env'.now, base, unit);
    SetDeadlineLate(a, b, key, UnixToInstant(n, env.now, base), n, base, Lands(n, env.now, env'.now, base, unit), env'.now, unit);
  }

  /** The rewritten deadline, when the run's own has passed: passed as well. */
  lemma RewrittenPasses(now: Time, amount: nat, factor: nat, later: Time)
    requires now + amount * factor * MILLISECOND <= later && ((factor == 1 && amount <= U64_MAX) || factor == 1000)
    ensures LoggedDeadline(now, amount, factor) <= later / MILLISECOND
  {
    LoggedDeadlineExact(now, amount, factor);
    RunDeadline(now, amount * factor, MILLISECOND);
    DivMonotone(now + amount * factor * MILLISECOND, later, MILLISECOND);
    if now / MILLISECOND + amount * factor > U64_MAX {
      WrappedDeadline(now, amount, factor, MILLISECOND);
    }
  }

  /** The replay at `later` of a relative deadline: the log's fits, and is still to come. */
  predicate RewrittenLands(amount: nat, factor: nat, now: Time, later: Time) {
    && now / MILLISECOND + amount * factor <= U64_MAX
    && now / MILLISECOND + amount * factor > later / MILLISECOND
  }

  lemma RelativeLate(a: Db, b: Db, key: Key, amount: nat, factor: nat, base: nat, env: Env, env': Env, unit: nat)
    requires ReadLater(a, b, env, env', unit) && amount <= U64_MAX
    requires (factor == 1 && base == MILLISECOND) || (factor == 1000 && base == SECOND)
    requires ExpireIn(a, key, env.now, amount * base).reply == Number(1)
    ensures var o := ExpireIn(a, key, env.now, amount * base);
      var o' := ExpireAtUnix(b, key, env'.now, LoggedDeadline(env.now, amount, factor), MILLISECOND);
      && o'.reply != Panics
      && (SameView(o.db, o'.db, env'.now, unit) <==>
          (env.now + amount * base > env'.now ==> RewrittenLands(amount, factor, env.now, env'.now) && SameStored(a, b, key)))
  {
    assert amount * base == amount * factor * MILLISECOND;
    RewrittenLate(amount, factor, env.now, env'.now, unit);
    SetDeadlineLate(a, b, key, env.now + amount * base, LoggedDeadline(env.now, amount, factor), MILLISECOND,
                    RewrittenLands(amount, factor, env.now, env'.now), env'.now, unit);
  }

  lemma RewrittenLate(amount: nat, factor: nat, now: Time, later: Time, unit: nat)
    requires IsUnit(unit) && now <= later && ((factor == 1 && amount <= U64_MAX) || factor == 1000)
    ensures var t, n := now + amount * factor * MILLISECOND, LoggedDeadline(now, amount, factor);
      && (t <= later ==> n <= later / MILLISECOND)
      && (n > later / MILLISECOND ==> later < UnixToInstant(n, later, MILLISECOND) < INSTANT_LIMIT)
      && ((n > later / MILLISECOND && UnixToInstant(n, later, MILLISECOND) / unit == t / unit) <==>
          RewrittenLands(amount, factor, now, later))
  {
    var t, n := now + amount * factor * MILLISECOND, LoggedDeadline(now, amount, factor);
    if t <= later {
      RewrittenPasses(now, amount, factor, later);
    }
    LoggedDeadlineExact(now, amount, factor);
    RunDeadline(now, amount * factor, unit);
    if n > later / MILLISECOND {
      InstantOf(n, later, MILLISECOND);
      Beyond(n, later, MILLISECOND);
      CoarserUnit(MILLISECOND, unit, n, later % MILLISECOND);
      if now / MILLISECOND + amount * factor > U64_MAX {
        WrappedDeadline(now, amount, factor, unit);
      }
    }
  }

  // ----- SET -----

  predicate DeadAt(d: NewDeadline, t: Time) {
    d.At? && d.time <= t
  }

  /** The two deadlines leave a key dead, or both leave it alive with deadlines in the same unit. */
  predicate SameFuture(d: NewDeadline, d': NewDeadline, t: Time, unit: nat)
    requires unit > 0
  {
    (DeadAt(d, t) <==> DeadAt(d', t)) && (!DeadAt(d, t) ==> SameNewDeadline(d, d', unit))
  }

  /** The deadline KEEPTTL finds. */
  function Kept(db: Db, key: Key): NewDeadline {
    if key in db.expiry then At(db.expiry[key]) else Never
  }

  /** A SET that writes gets a deadline that comes to the same when the log is replayed. */
  predicate ExpiryReplaysLate(a: Db, b: Db, key: Key, expiry: Option<C.SetExpiry>, now: Time, later: Time, unit: nat)
    requires unit > 0
  {
    match expiry
    case Some(Ex(n)) => n == 0 || (now + n * SECOND > later && SameDelayed(n * SECOND, now, later, unit))
    case Some(Px(n)) => n == 0 || (now + n * MILLISECOND > later && SameDelayed(n * MILLISECOND, now, later, unit))
    case Some(ExAt(n)) => UnixToInstant(n, now, SECOND) > later ==> Lands(n, now, later, SECOND, unit)
    case Some(PxAt(n)) => UnixToInstant(n, now, MILLISECOND) > later ==> Lands(n, now, later, MILLISECOND, unit)
    case Some(KeepTtl) => SameFuture(Kept(a, key), Kept(b, key), later, unit)
    case _ => true
  }

  lemma WrittenLate(a: Db, b: Db, key: Key, value: Bytes, d: NewDeadline, d': NewDeadline, t: Time, unit: nat)
    requires unit > 0 && SameView(a, b, t, unit)
    ensures SameView(Written(a, key, value, d), Written(b, key, value, d'), t, unit) <==> SameFuture(d, d', t, unit)
  {
    WrittenOnlyAt(a, key, value, d);
    WrittenOnlyAt(b, key, value, d');
    ViewChangesAt(a, b, Written(a, key, value, d), Written(b, key, value, d'), key, t, unit);
  }

  /** A key the replay does not see, written by the run or by the replay alone. */
  lemma WrittenOnce(a: Db, b: Db, key: Key, value: Bytes, d: NewDeadline, t: Time, unit: nat)
    requires unit > 0 && SameView(a, b, t, unit) && !Live(a, key, t)
    ensures SameView(Written(a, key, value, d), b, t, unit) <==> DeadAt(d, t)
    ensures SameView(a, Written(b, key, value, d), t, unit) <==> DeadAt(d, t)
  {
    assert ViewAt(a, b, key, t, unit);
    WrittenOnlyAt(a, key, value, d);
    WrittenOnlyAt(b, key, value, d);
    OnlyAtKey(a, key, Str(value), 0);
    OnlyAtKey(b, key, Str(value), 0);
    ViewChangesAt(a, b, Written(a, key, value, d), b, key, t, unit);
    ViewChangesAt(a, b, a, Written(b, key, value, d), key, t, unit);
  }

  lemma AfterLate(delay: nat, now: Time, later: Time, unit: nat)
    requires IsUnit(unit) && now <= later < INSTANT_LIMIT && now + delay < INSTANT_LIMIT
    ensures SameFuture(After(delay, now), After(delay, later), later, unit)
      <==> delay == 0 || (now + delay > later && SameDelayed(delay, now, later, unit))
  {
    DelayExact(delay, now, later, unit);
  }

  lemma AtUnixLate(n: nat, now: Time, later: Time, base: nat, unit: nat)
    requires IsUnit(base) && IsUnit(unit) && now <= later < INSTANT_LIMIT && AtUnix(n, now, base).At?
    ensures AtUnix(n, later, base).At?
    ensures SameFuture(AtUnix(n, now, base), AtUnix(n, later, base), later, unit)
      <==> (UnixToInstant(n, now, base) > later ==> Lands(n, now, later, base, unit))
  {
    UnixLate(n, now, later, base, unit);
  }

  lemma DeadlineForLate(a: Db, b: Db, key: Key, expiry: Option<C.SetExpiry>, now: Time, later: Time, unit: nat)
    requires IsUnit(unit) && now <= later < INSTANT_LIMIT
    requires var d := DeadlineFor(expiry, PrevTtl(a, key), now); d.Never? || d.At?
    ensures var d, d' := DeadlineFor(expiry, PrevTtl(a, key), now), DeadlineFor(expiry, PrevTtl(b, key), later);
      && !d'.Overflow?
      && (SameFuture(d, d', later, unit) <==> ExpiryReplaysLate(a, b, key, expiry, now, later, unit))
  {
    match expiry
    case Some(Ex(n)) => AfterLate(n * SECOND, now, later, unit);
    case Some(Px(n)) => AfterLate(n * MILLISECOND, now, later, unit);
    case Some(ExAt(n)) => AtUnixLate(n, now, later, SECOND, unit);
    case Some(PxAt(n)) => AtUnixLate(n, now, later, MILLISECOND, unit);
    case _ =>
  }

  /**
   * SET, whose condition may be met in the run and not in the replay, or the other way round, when the key has
   * lapsed: then the one that writes must leave the key dead.
   */
  predicate SetReplaysLate(a: Db, b: Db, key: Key, options: C.SetOptions, env: Env, env': Env, unit: nat)
    requires unit > 0
  {
    var writes, writes' := Strings.Writes(a, key, options, env), Strings.Writes(b, key, options, env');
    && (writes && writes' ==> ExpiryReplaysLate(a, b, key, options.expiry, env.now, env'.now, unit))
    && (writes && !writes' ==> DeadAt(DeadlineFor(options.expiry, PrevTtl(a, key), env.now), env'.now))
    && (!writes && writes' ==> DeadAt(DeadlineFor(options.expiry, PrevTtl(b, key), env'.now), env'.now))
  }

  /** What the replay of an entry does: it rebuilds the view exactly under its condition, and does not panic under it. */
  ghost predicate LateExactly(o: Outcome, o': Outcome, later: Time, unit: nat, condition: bool)
    requires unit > 0
  {
    (SameView(o.db, o'.db, later, unit) <==> condition) && (condition ==> o'.reply != Panics)
  }

  lemma SetLate(a: Db, b: Db, key: Key, value: Bytes, options: C.SetOptions, env: Env, env': Env, unit: nat)
    requires ReadLater(a, b, env, env', unit)
    requires Logged(C.Set(key, value, options), ExecSet(a, key, value, options, env).reply)
    ensures LateExactly(ExecSet(a, key, value, options, env), ExecSet(b, key, value, options, env'), env'.now, unit,
                        SetReplaysLate(a, b, key, options, env, env', unit))
  {
    var writes, writes' := Strings.Writes(a, key, options, env), Strings.Writes(b, key, options, env');
    var d := DeadlineFor(options.expiry, PrevTtl(a, key), env.now);
    var d' := DeadlineFor(options.expiry, PrevTtl(b, key), env'.now);
    SeenLater(a, b, key, env, env', unit);
    SetUnfold(a, key, value, options, env);
    SetUnfold(b, key, value, options, env');
    if writes && writes' {
      DeadlineForLate(a, b, key, options.expiry, env.now, env'.now, unit);
      WrittenLate(a, b, key, value, d, d', env'.now, unit);
    } else if writes {
      WrittenOnce(a, b, key, value, d, env'.now, unit);
    } else if writes' {
      WrittenOnce(a, b, key, value, d', env'.now, unit);
    }
  }

  // ----- Commands -----

  /**
   * Exactly when the entry of a logged command, replayed at one later time, rebuilds what clients can then see.
   * Pops, deletions and overwriting always do; creating or moving does unless a deadline in between decides
   * otherwise; and the commands on physical entries need both stores to hold the same.
   */
  predicate LateReplays(a: Db, b: Db, c: C.Command, env: Env, env': Env, unit: nat)
    requires unit > 0
  {
    if IsListWrite(c) then ListReplaysLate(a, c, env.now, env'.now)
    else if IsSetWrite(c) then MembersReplayLate(a, b, c, env, env')
    else if IsExpiryWrite(c) then DeadlineReplaysLate(a, b, c, env.now, env'.now, unit)
    else c.Set? ==> SetReplaysLate(a, b, c.key, c.options, env, env', unit)
  }

  predicate ListReplaysLate(a: Db, c: C.Command, now: Time, later: Time)
    requires IsListWrite(c)
  {
    c.LPush? || c.RPush? ==> !Lapsing(a, c.key, now, later)
  }

  predicate MembersReplayLate(a: Db, b: Db, c: C.Command, env: Env, env': Env)
    requires IsSetWrite(c)
  {
    match c
    case SAdd(key, _) => !Lapsing(a, key, env.now, env'.now)
    case SRem(_, _) => true
    case SMove(source, destination, member) => MoveReplaysLate(a, source, destination, member, env.now, env'.now)
    case SPop(key, count) =>
      Lapsing(a, key, env.now, env'.now) || LeftBySPop(a, key, count, env) == LeftBySPop(b, key, count, env')
  }

  predicate DeadlineReplaysLate(a: Db, b: Db, c: C.Command, now: Time, later: Time, unit: nat)
    requires unit > 0 && IsExpiryWrite(c)
  {
    match c
    case Persist(key) => SameStored(a, b, key)
    case Expire(key, n) => now + n * SECOND > later ==> RewrittenLands(n, 1000, now, later) && SameStored(a, b, key)
    case PExpire(key, n) => now + n * MILLISECOND > later ==> RewrittenLands(n, 1, now, later) && SameStored(a, b, key)
    case ExpireAt(key, n) =>
      UnixToInstant(n, now, SECOND) > later ==> Lands(n, now, later, SECOND, unit) && SameStored(a, b, key)
    case PExpireAt(key, n) =>
      UnixToInstant(n, now, MILLISECOND) > later ==> Lands(n, now, later, MILLISECOND, unit) && SameStored(a, b, key)
  }

  lemma ListLate(a: Db, b: Db, c: C.Command, env: Env, env': Env, unit: nat)
    requires ReadLater(a, b, env, env', unit) && IsListWrite(c) && C.WellFormed(c) && Logged(c, MutateList(a, c, env.now).reply)
    ensures LateExactly(MutateList(a, c, env.now), MutateList(b, c, env'.now), env'.now, unit, ListReplaysLate(a, c, env.now, env'.now))
  {
    match c
    case LPush(key, es) => PushLogged(a, b, key, es, true, Front, env, env', unit);
    case RPush(key, es) => PushLogged(a, b, key, es, true, Back, env, env', unit);
    case LPushX(key, es) => PushLogged(a, b, key, es, false, Front, env, env', unit);
    case RPushX(key, es) => PushLogged(a, b, key, es, false, Back, env, env', unit);
    case LPop(key, count) => PopLate(a, b, key, CountOr1(count), Front, env, env', unit);
    case RPop(key, count) => PopLate(a, b, key, CountOr1(count), Back, env, env', unit);
  }

  lemma PushLogged(a: Db, b: Db, key: Key, es: seq<Bytes>, create: bool, end: End, env: Env, env': Env, unit: nat)
    requires ReadLater(a, b, env, env', unit) && es != []
    requires var r := ExecPush(a, key, es, create, end, env.now).reply; r.Value? && !r.value.SimpleError?
    ensures LateExactly(ExecPush(a, key, es, create, end, env.now), ExecPush(b, key, es, create, end, env'.now), env'.now, unit,
                        create ==> !Lapsing(a, key, env.now, env'.now))
  {
    L.PushAllResult(a, key, es, create, end, env.now);
    PushLate(a, b, key, es, create, end, env, env', unit);
  }

  lemma MembersLate(a: Db, b: Db, c: C.Command, env: Env, env': Env, unit: nat)
    requires ReadLater(a, b, env, env', unit) && IsSetWrite(c) && Logged(c, MutateSet(a, c, env).reply)
    ensures LateExactly(MutateSet(a, c, env), MutateSet(b, c, env'), env'.now, unit, MembersReplayLate(a, b, c, env, env'))
  {
    match c
    case SAdd(key, members) => SAddLate(a, b, key, members, env, env', unit);
    case SRem(key, members) => SRemLate(a, b, key, members, env, env', unit);
    case SMove(source, destination, member) => SMoveLate(a, b, source, destination, member, env, env', unit);
    case SPop(key, count) => SPopLate(a, b, key, count, env, env', unit);
  }

  lemma AbsolutesLate(a: Db, b: Db, c: C.Command, env: Env, env': Env, unit: nat)
    requires ReadLater(a, b, env, env', unit) && (c.ExpireAt? || c.PExpireAt?) && Logged(c, MutateExpiry(a, c, env.now).reply)
    ensures LateExactly(MutateExpiry(a, c, env.now), MutateExpiry(b, c, env'.now), env'.now, unit,
                        DeadlineReplaysLate(a, b, c, env.now, env'.now, unit))
  {
    match c
    case ExpireAt(key, n) => AbsoluteLate(a, b, key, n, SECOND, env, env', unit);
    case PExpireAt(key, n) => AbsoluteLate(a, b, key, n, MILLISECOND, env, env', unit);
  }

  lemma DeadlinesLate(a: Db, b: Db, c: C.Command, env: Env, env': Env, unit: nat)
    requires ReadLater(a, b, env, env', unit) && IsExpiryWrite(c) && C.WellFormed(c) && Logged(c, MutateExpiry(a, c, env.now).reply)
    ensures LateExactly(MutateExpiry(a, c, env.now), MutateExpiry(b, LoggedCommand(c, env.now), env'.now), env'.now, unit,
                        DeadlineReplaysLate(a, b, c, env.now, env'.now, unit))
  {
    if c.Persist? {
      PersistLate(a, b, c.key, env'.now, unit);
    } else if c.ExpireAt? || c.PExpireAt? {
      AbsolutesLate(a, b, c, env, env', unit);
    } else {
      RelativesLate(a, b, c, env, env', unit);
    }
  }

  lemma RelativesLate(a: Db, b: Db, c: C.Command, env: Env, env': Env, unit: nat)
    requires ReadLater(a, b, env, env', unit) && (c.Expire? || c.PExpire?) && C.WellFormed(c)
    requires Logged(c, MutateExpiry(a, c, env.now).reply)
    ensures LateExactly(MutateExpiry(a, c, env.now), MutateExpiry(b, LoggedCommand(c, env.now), env'.now), env'.now, unit,
                        DeadlineReplaysLate(a, b, c, env.now, env'.now, unit))
  {
    match c
    case Expire(key, n) => RelativeLate(a, b, key, n, 1000, SECOND, env, env', unit);
    case PExpire(key, n) => RelativeLate(a, b, key, n, 1, MILLISECOND, env, env', unit);
  }

  lemma GroupedLate(a: Db, b: Db, c: C.Command, env: Env, env': Env, unit: nat)
    requires IsListWrite(c) || IsSetWrite(c) || IsExpiryWrite(c)
    requires ReadLater(a, b, env, env', unit) && C.WellFormed(c)
    requires Logged(c, Exec(a, c, env).reply)
    ensures LateExactly(Exec(a, c, env), Exec(b, LoggedCommand(c, env.now), env'), env'.now, unit, LateReplays(a, b, c, env, env', unit))
  {
    if IsListWrite(c) {
      ListLate(a, b, c, env, env', unit);
    } else if IsSetWrite(c) {
      MembersLate(a, b, c, env, env', unit);
    } else {
      DeadlinesLate(a, b, c, env, env', unit);
    }
  }

  /** The entry of a logged command, replayed later, rebuilds the view exactly when `LateReplays` holds. */
  lemma LoggedLate(a: Db, b: Db, c: C.Command, env: Env, env': Env, unit: nat)
    requires ReadLater(a, b, env, env', unit) && C.WellFormed(c)
    requires Logged(c, Exec(a, c, env).reply)
    ensures LateExactly(Exec(a, c, env), Exec(b, LoggedCommand(c, env.now), env'), env'.now, unit, LateReplays(a, b, c, env, env', unit))
  {
    if IsListWrite(c) || IsSetWrite(c) || IsExpiryWrite(c) {
      GroupedLate(a, b, c, env, env', unit);
    } else if c.Set? {
      var Set(key, value, options) := c;
      SetLate(a, b, key, value, options, env, env', unit);
    } else if c.Delete? {
      var Delete(keys) := c;
      RemoveLate(a, b, ToSet(keys), env'.now, unit);
    } else if c.GetDel? {
      var GetDel(key) := c;
      GetDelLate(a, b, key, env, env', unit);
    } else if c.MSet? {
      MSetLate(a, b, c.items, env'.now, unit);
    }
  }

  // ----- What is not logged -----

  /** A write that is lost, and shows when the log is replayed. */
  predicate LosesLate(db: Db, c: C.Command, env: Env, later: Time) {
    Loses(db, c, env) && (c.Set? || Live(db, c.key, later))
  }

  lemma StoredSameLate(a: Db, a': Db, b: Db, t: Time, unit: nat)
    requires unit > 0 && SameView(a, b, t, unit) && StoredSame(a, a')
    ensures SameView(a', b, t, unit)
  {
    forall k ensures ViewAt(a', b, k, t, unit) {
      assert ViewAt(a, b, k, t, unit);
      if k in a.data {
        assert PrevTtl(a, k) == PrevTtl(a', k);
      }
    }
  }

  /** A deletion that is not logged shows exactly when a key is deleted that would still be seen. */
  lemma DeletionLate(a: Db, b: Db, keys: set<Key>, t: Time, unit: nat)
    requires unit > 0 && SameView(a, b, t, unit)
    ensures SameView(Remove(a, keys), b, t, unit) <==> forall k :: k in keys ==> !Live(a, k, t)
  {
    if forall k :: k in keys ==> !Live(a, k, t) {
      forall k ensures ViewAt(Remove(a, keys), b, k, t, unit) {
        assert ViewAt(a, b, k, t, unit);
      }
    } else {
      var k :| k in keys && Live(a, k, t);
      assert ViewAt(a, b, k, t, unit) && !ViewAt(Remove(a, keys), b, k, t, unit);
    }
  }

  lemma RemovedLate(a: Db, b: Db, key: Key, t: Time, unit: nat)
    requires unit > 0 && SameView(a, b, t, unit)
    ensures SameView(Remove(a, {key}), b, t, unit) <==> !Live(a, key, t)
  {
    DeletionLate(a, b, {key}, t, unit);
    assert key in {key};
  }

  lemma LSetLostLate(a: Db, b: Db, c: C.Command, env: Env, later: Time, unit: nat)
    requires unit > 0 && SameView(a, b, later, unit) && env.now <= later && c.LSet? && Loses(a, c, env)
    ensures SameView(Exec(a, c, env).db, b, later, unit) <==> !Live(a, c.key, later)
  {
    var LSet(key, index, element) := c;
    var items := a.data[key].items;
    var i := ResolveIndex(index, |items|).value;
    var items' := items[i := element];
    assert items'[i] != items[i];
    assert Exec(a, c, env).db == Update(a, key, List(items'));
    assert ViewAt(a, b, key, later, unit);
    OnlyAtKey(a, key, List(items'), 0);
    OnlyAtKey(b, key, List(items'), 0);
    ViewChangesAt(a, b, Update(a, key, List(items')), b, key, later, unit);
  }

  lemma SetLostLate(a: Db, b: Db, c: C.Command, env: Env, later: Time, unit: nat)
    requires unit > 0 && SameView(a, b, later, unit) && c.Set? && Loses(a, c, env)
    ensures !SameView(Exec(a, c, env).db, b, later, unit)
  {
    var Set(key, value, options) := c;
    SetUnfold(a, key, value, options, env);
    assert ViewAt(a, b, key, later, unit);
    assert !ViewAt(Put(a, key, Str(value)), b, key, later, unit);
  }

  /** Leaving out a command that is not logged keeps the view exactly when nothing is lost that would still be seen. */
  lemma UnloggedLate(a: Db, b: Db, c: C.Command, env: Env, later: Time, unit: nat)
    requires unit > 0 && SameView(a, b, later, unit) && env.now <= later && C.WellFormed(c)
    requires !Logged(c, Exec(a, c, env).reply)
    ensures SameView(Exec(a, c, env).db, b, later, unit) <==> !LosesLate(a, c, env, later)
  {
    if !Loses(a, c, env) {
      LostWrites(a, c, env);
      StoredSameLate(a, Exec(a, c, env).db, b, later, unit);
    } else if c.LSet? {
      LSetLostLate(a, b, c, env, later, unit);
    } else if c.Set? {
      SetLostLate(a, b, c, env, later, unit);
    } else {
      RemovedLate(a, b, c.key, later, unit);
    }
  }
}
