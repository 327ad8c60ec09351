/**
 * Replaying a log after some of its deadlines have passed.
 *
 * A key whose deadline is reached by the time of the replay may come back early or not at all; what clients can
 * still see is rebuilt nevertheless, as long as such a key is not extended or added to before it expires.
 */
module Lapsed {
  import opened Bytes
  import opened Decimal
  import opened Database
  import opened Execution
  import opened Deadlines
  import opened Recovery
  import opened RecoverySteps
  import C = Command
  import L = Lists
  import Sets
  import Strings

  // ----- The relation between a run and its replay -----

  /** The deadline of a stored key falls in the unit of `last` or earlier. */
  predicate Reached(a: Db, k: Key, last: Time, unit: nat)
    requires unit > 0
  {
    k in a.data && k in a.expiry && a.expiry[k] / unit <= last / unit
  }

  /** Both stores hold the key with the same value and, to the unit, deadline; or neither holds it. */
  predicate SameAt(a: Db, b: Db, k: Key, unit: nat)
    requires unit > 0
  {
    && (k in a.data <==> k in b.data)
    && (k in a.data ==> a.data[k] == b.data[k] && SameDeadline(a, b, k, unit))
  }

  /** The replay is the same at `k`; or the run has no use for `k` after `last`, and it is dead in the replay. */
  predicate FollowsAt(a: Db, b: Db, k: Key, t: Time, last: Time, unit: nat)
    requires unit > 0
  {
    SameAt(a, b, k, unit) || ((k !in a.data || Reached(a, k, last, unit)) && !Live(b, k, t))
  }

  /** What a replay that has come to time `t` has rebuilt of the store `a`. */
  ghost predicate Follows(a: Db, b: Db, t: Time, last: Time, unit: nat)
    requires unit > 0
  {
    forall k :: FollowsAt(a, b, k, t, last, unit)
  }

  lemma FollowsLater(a: Db, b: Db, t: Time, t': Time, last: Time, unit: nat)
    requires unit > 0 && Follows(a, b, t, last, unit) && t <= t'
    ensures Follows(a, b, t', last, unit)
  {
    forall k ensures FollowsAt(a, b, k, t', last, unit) {
      assert FollowsAt(a, b, k, t, last, unit);
    }
  }

  /** The key's deadline, if it is stored with one, does not fall in the very unit of `last`. */
  predicate SettledAt(a: Db, k: Key, last: Time, unit: nat)
    requires unit > 0
  {
    k in a.data && k in a.expiry ==> a.expiry[k] / unit != last / unit
  }

  /** Clients see the same value at `k` and, to the unit, the same deadline. */
  predicate ViewAt(a: Db, b: Db, k: Key, now: Time, unit: nat)
    requires unit > 0
  {
    Lookup(a, k, now) == Lookup(b, k, now) && (Live(a, k, now) ==> SameDeadline(a, b, k, unit))
  }

  ghost predicate SameView(a: Db, b: Db, now: Time, unit: nat)
    requires unit > 0
  {
    forall k :: ViewAt(a, b, k, now, unit)
  }

  lemma FollowsShows(a: Db, b: Db, k: Key, t: Time, last: Time, unit: nat)
    requires IsUnit(unit) && FollowsAt(a, b, k, t, last, unit) && t <= last && SettledAt(a, k, last, unit)
    ensures ViewAt(a, b, k, last, unit)
  {
  }

  /** For a replay at one time the two relations are the same, but for deadlines in the very unit of that time. */
  lemma FollowsIsView(a: Db, b: Db, k: Key, now: Time, unit: nat)
    requires IsUnit(unit)
    ensures ViewAt(a, b, k, now, unit) ==> FollowsAt(a, b, k, now, now, unit)
    ensures FollowsAt(a, b, k, now, now, unit) && SettledAt(a, k, now, unit) ==> ViewAt(a, b, k, now, unit)
  {
    if FollowsAt(a, b, k, now, now, unit) && SettledAt(a, k, now, unit) {
      FollowsShows(a, b, k, now, now, unit);
    }
    if k in a.data && k in a.expiry && a.expiry[k] <= now {
      DivMonotone(a.expiry[k], now, unit);
    }
  }

  // ----- Changes at one key -----

  predicate OnlyAt(a: Db, a': Db, k: Key) {
    a'.data - {k} == a.data - {k} && a'.expiry - {k} == a.expiry - {k}
  }

  lemma UnchangedAt(a: Db, a': Db, k: Key, j: Key)
    requires OnlyAt(a, a', k) && j != k
    ensures (j in a'.data <==> j in a.data) && (j in a.data ==> a'.data[j] == a.data[j])
    ensures (j in a'.expiry <==> j in a.expiry) && (j in a.expiry ==> a'.expiry[j] == a.expiry[j])
  {
    assert j in a.data <==> j in a.data - {k};
    assert j in a'.data <==> j in a'.data - {k};
    assert j in a.expiry <==> j in a.expiry - {k};
    assert j in a'.expiry <==> j in a'.expiry - {k};
    assert j in a.data ==> (a.data - {k})[j] == a.data[j] && (a'.data - {k})[j] == a'.data[j];
    assert j in a.expiry ==> (a.expiry - {k})[j] == a.expiry[j] && (a'.expiry - {k})[j] == a'.expiry[j];
  }

  lemma ChangeAt(a: Db, b: Db, a': Db, b': Db, k: Key, t: Time, last: Time, unit: nat)
    requires unit > 0 && Follows(a, b, t, last, unit) && OnlyAt(a, a', k) && OnlyAt(b, b', k)
    requires FollowsAt(a', b', k, t, last, unit)
    ensures Follows(a', b', t, last, unit)
  {
    forall j ensures FollowsAt(a', b', j, t, last, unit) {
      if j != k {
        UnchangedAt(a, a', k, j);
        UnchangedAt(b, b', k, j);
        assert FollowsAt(a, b, j, t, last, unit);
      }
    }
  }

  lemma OnlyAtKey(a: Db, k: Key, v: StoreValue, t: Time)
    ensures OnlyAt(a, Put(a, k, v), k) && OnlyAt(a, Update(a, k, v), k) && OnlyAt(a, SetTtl(a, k, t), k)
    ensures OnlyAt(a, Remove(a, {k}), k) && OnlyAt(a, a.(data := a.data - {k}), k) && OnlyAt(a, a.(expiry := a.expiry - {k}), k)
    ensures OnlyAt(a, a, k)
  {
  }

  lemma PutFollows(a: Db, b: Db, k: Key, v: StoreValue, t: Time, last: Time, unit: nat)
    requires unit > 0 && Follows(a, b, t, last, unit)
    ensures Follows(Put(a, k, v), Put(b, k, v), t, last, unit)
  {
    OnlyAtKey(a, k, v, t);
    OnlyAtKey(b, k, v, t);
    ChangeAt(a, b, Put(a, k, v), Put(b, k, v), k, t, last, unit);
  }

  lemma UpdateFollows(a: Db, b: Db, k: Key, v: StoreValue, t: Time, last: Time, unit: nat)
    requires unit > 0 && Follows(a, b, t, last, unit) && SameAt(a, b, k, unit) && k in a.data
    ensures Follows(Update(a, k, v), Update(b, k, v), t, last, unit)
  {
    OnlyAtKey(a, k, v, t);
    OnlyAtKey(b, k, v, t);
    ChangeAt(a, b, Update(a, k, v), Update(b, k, v), k, t, last, unit);
  }

  lemma RemoveFollows(a: Db, b: Db, keys: set<Key>, t: Time, last: Time, unit: nat)
    requires unit > 0 && Follows(a, b, t, last, unit)
    ensures Follows(Remove(a, keys), Remove(b, keys), t, last, unit)
  {
    forall k ensures FollowsAt(Remove(a, keys), Remove(b, keys), k, t, last, unit) {
      assert FollowsAt(a, b, k, t, last, unit);
    }
  }

  // ----- What the run and the replay see -----

  /** The key has no deadline that is reached by `last`, or one that had passed, by a unit, when the command ran. */
  predicate Steady(a: Db, k: Key, now: Time, last: Time, unit: nat)
    requires unit > 0
  {
    Reached(a, k, last, unit) ==> a.expiry[k] / unit < now / unit
  }

  /** The command does not run in the very unit in which the key's deadline falls. */
  predicate Apart(a: Db, k: Key, now: Time, last: Time, unit: nat)
    requires unit > 0
  {
    Reached(a, k, last, unit) ==> a.expiry[k] / unit != now / unit
  }

  /** The replay reads its clock after the run, and before `last`. */
  ghost predicate ReplayedAfter(a: Db, b: Db, env: Env, env': Env, last: Time, unit: nat) {
    && IsUnit(unit) && env.now <= env'.now <= last && last < INSTANT_LIMIT && env.digest == env'.digest
    && Follows(a, b, env'.now, last, unit)
  }

  lemma UnitOrder(x: Time, y: Time, unit: nat)
    requires IsUnit(unit) && x / unit < y / unit
    ensures x < y
  {
  }

  /** At a steady key both see the same, and whatever they see they agree on. */
  lemma SteadyLookup(a: Db, b: Db, k: Key, env: Env, env': Env, last: Time, unit: nat)
    requires ReplayedAfter(a, b, env, env', last, unit) && Steady(a, k, env.now, last, unit)
    ensures Lookup(a, k, env.now) == Lookup(b, k, env'.now)
    ensures Live(a, k, env.now) ==> SameAt(a, b, k, unit) && !Reached(a, k, last, unit)
  {
    assert FollowsAt(a, b, k, env'.now, last, unit);
    DivMonotone(env.now, env'.now, unit);
    DivMonotone(env'.now, last, unit);
    if Reached(a, k, last, unit) {
      UnitOrder(a.expiry[k], env.now, unit);
      if k in b.expiry && SameAt(a, b, k, unit) {
        UnitOrder(b.expiry[k], env'.now, unit);
      }
    } else if k in a.data && k in a.expiry {
      UnitOrder(env.now, a.expiry[k], unit);
      UnitOrder(env'.now, b.expiry[k], unit);
    }
  }

  // ----- Lists and sets -----

  lemma PushFollows(a: Db, b: Db, key: Key, es: seq<Bytes>, create: bool, end: End, env: Env, env': Env, last: Time, unit: nat)
    requires ReplayedAfter(a, b, env, env', last, unit) && Steady(a, key, env.now, last, unit) && es != []
    ensures Follows(ExecPush(a, key, es, create, end, env.now).db, ExecPush(b, key, es, create, end, env'.now).db, env'.now, last, unit)
  {
    SteadyLookup(a, b, key, env, env', last, unit);
    L.PushAllResult(a, key, es, create, end, env.now);
    L.PushAllResult(b, key, es, create, end, env'.now);
    match Lookup(a, key, env.now)
    case None => PutFollows(a, b, key, List(L.PushedOnto([], es, end)), env'.now, last, unit);
    case Some(List(items)) => UpdateFollows(a, b, key, List(L.PushedOnto(items, es, end)), env'.now, last, unit);
    case Some(_) =>
  }

  lemma SAddFollows(a: Db, b: Db, key: Key, members: seq<Bytes>, env: Env, env': Env, last: Time, unit: nat)
    requires ReplayedAfter(a, b, env, env', last, unit) && Steady(a, key, env.now, last, unit)
    ensures Follows(SAdd(a, key, members, env.now).0, SAdd(b, key, members, env'.now).0, env'.now, last, unit)
  {
    SteadyLookup(a, b, key, env, env', last, unit);
    match Lookup(a, key, env.now)
    case None => PutFollows(a, b, key, Set(ToSet(members)), env'.now, last, unit);
    case Some(Set(s)) => UpdateFollows(a, b, key, Set(s + ToSet(members)), env'.now, last, unit);
    case Some(_) =>
  }

  lemma TakeMemberFollows(a: Db, b: Db, source: Key, s: set<Bytes>, member: Bytes, t: Time, last: Time, unit: nat)
    requires unit > 0 && Follows(a, b, t, last, unit) && SameAt(a, b, source, unit) && source in a.data
    ensures Follows(TakeMember(a, source, s, member), TakeMember(b, source, s, member), t, last, unit)
  {
    RemoveFollows(a, b, {source}, t, last, unit);
    UpdateFollows(a, b, source, Set(s - {member}), t, last, unit);
  }

  lemma SMoveFollows(a: Db, b: Db, source: Key, destination: Key, member: Bytes, env: Env, env': Env, last: Time, unit: nat)
    requires ReplayedAfter(a, b, env, env', last, unit)
    requires Steady(a, source, env.now, last, unit) && Steady(a, destination, env.now, last, unit)
    ensures Follows(SMove(a, source, destination, member, env.now).0, SMove(b, source, destination, member, env'.now).0, env'.now, last, unit)
  {
    SteadyLookup(a, b, source, env, env', last, unit);
    SteadyLookup(a, b, destination, env, env', last, unit);
    match Lookup(a, source, env.now)
    case Some(Set(s)) =>
      if member in s {
        var a', b' := TakeMember(a, source, s, member), TakeMember(b, source, s, member);
        TakeMemberFollows(a, b, source, s, member, env'.now, last, unit);
        assert Steady(a', destination, env.now, last, unit);
        SteadyLookup(a', b', destination, env, env', last, unit);
        PutFollows(a', b', destination, Set({member}), env'.now, last, unit);
        var target := Lookup(a', destination, env.now);
        if target.Some? && target.value.Set? {
          UpdateFollows(a', b', destination, Set(target.value.members + {member}), env'.now, last, unit);
        }
      }
    case _ =>
  }

  /** A key that both see, or that only the run sees and will not see after `last`. */
  lemma ApartLookup(a: Db, b: Db, k: Key, env: Env, env': Env, last: Time, unit: nat)
    requires ReplayedAfter(a, b, env, env', last, unit) && Apart(a, k, env.now, last, unit)
    ensures Live(b, k, env'.now) ==> Live(a, k, env.now) && SameAt(a, b, k, unit)
    ensures Live(a, k, env.now) && !Live(b, k, env'.now) ==> Reached(a, k, last, unit)
  {
    if Steady(a, k, env.now, last, unit) {
      SteadyLookup(a, b, k, env, env', last, unit);
    } else {
      assert FollowsAt(a, b, k, env'.now, last, unit);
      UnitOrder(env.now, a.expiry[k], unit);
    }
  }

  /** The X forms create nothing, so they may find the key dead in the replay. */
  lemma PushXFollows(a: Db, b: Db, key: Key, es: seq<Bytes>, end: End, env: Env, env': Env, last: Time, unit: nat)
    requires ReplayedAfter(a, b, env, env', last, unit) && Apart(a, key, env.now, last, unit) && es != []
    ensures Follows(ExecPush(a, key, es, false, end, env.now).db, ExecPush(b, key, es, false, end, env'.now).db, env'.now, last, unit)
  {
    ApartLookup(a, b, key, env, env', last, unit);
    L.PushAllResult(a, key, es, false, end, env.now);
    L.PushAllResult(b, key, es, false, end, env'.now);
    assert FollowsAt(a, b, key, env'.now, last, unit);
    match Lookup(a, key, env.now)
    case Some(List(items)) =>
      OnlyAtKey(a, key, List(L.PushedOnto(items, es, end)), 0);
      OnlyAtKey(b, key, List(L.PushedOnto(items, es, end)), 0);
      ChangeAt(a, b, ExecPush(a, key, es, false, end, env.now).db, ExecPush(b, key, es, false, end, env'.now).db, key, env'.now, last, unit);
    case _ =>
  }

  /** A random pop without a choice. */
  lemma SPopFollows(a: Db, b: Db, key: Key, count: Option<nat>, env: Env, env': Env, last: Time, unit: nat)
    requires ReplayedAfter(a, b, env, env', last, unit) && Apart(a, key, env.now, last, unit) && NoChoice(a, key, count, env.now)
    requires ValidSampler(env.draw) && ValidSampler(env'.draw)
    ensures Follows(ExecSPop(a, key, count, env).db, ExecSPop(b, key, count, env').db, env'.now, last, unit)
  {
    ApartLookup(a, b, key, env, env', last, unit);
    assert FollowsAt(a, b, key, env'.now, last, unit);
    SPopLeaves(a, key, count, env);
    SPopLeaves(b, key, count, env');
    if Sets.HoldsSet(a, key, env.now) {
      var left := LeftBySPop(a, key, count, env);
      OnlyAtKey(a, key, Set(left), 0);
      OnlyAtKey(b, key, Set(left), 0);
      if Live(b, key, env'.now) {
        SameLeft(a, b, key, count, env, env');
      }
      ChangeAt(a, b, LeaveIn(a, key, left), if Live(b, key, env'.now) then LeaveIn(b, key, left) else b, key, env'.now, last, unit);
    }
  }

  lemma PopFollows(a: Db, b: Db, key: Key, count: nat, end: End, env: Env, env': Env, last: Time, unit: nat)
    requires ReplayedAfter(a, b, env, env', last, unit) && Apart(a, key, env.now, last, unit)
    ensures Follows(Pop(a, key, count, end, env.now).0, Pop(b, key, count, end, env'.now).0, env'.now, last, unit)
  {
    ApartLookup(a, b, key, env, env', last, unit);
    var a', b' := Pop(a, key, count, end, env.now).0, Pop(b, key, count, end, env'.now).0;
    assert FollowsAt(a, b, key, env'.now, last, unit);
    match Lookup(a, key, env.now)
    case Some(List(items)) =>
      var rest := Unpopped(items, count, end);
      OnlyAtKey(a, key, List(rest), 0);
      OnlyAtKey(b, key, List(rest), 0);
      ChangeAt(a, b, a', b', key, env'.now, last, unit);
    case _ =>
  }

  lemma SRemFollows(a: Db, b: Db, key: Key, members: seq<Bytes>, env: Env, env': Env, last: Time, unit: nat)
    requires ReplayedAfter(a, b, env, env', last, unit) && Apart(a, key, env.now, last, unit)
    ensures Follows(SRem(a, key, members, env.now).0, SRem(b, key, members, env'.now).0, env'.now, last, unit)
  {
    ApartLookup(a, b, key, env, env', last, unit);
    var a', b' := SRem(a, key, members, env.now).0, SRem(b, key, members, env'.now).0;
    assert FollowsAt(a, b, key, env'.now, last, unit);
    match Lookup(a, key, env.now)
    case Some(Set(s)) =>
      OnlyAtKey(a, key, Set(s - ToSet(members)), 0);
      OnlyAtKey(b, key, Set(s - ToSet(members)), 0);
      ChangeAt(a, b, a', b', key, env'.now, last, unit);
    case _ =>
  }

  // ----- Whole keys -----

  lemma {:induction false} MSetFollows(a: Db, b: Db, items: seq<(Key, Bytes)>, t: Time, last: Time, unit: nat)
    requires unit > 0 && Follows(a, b, t, last, unit)
    ensures Follows(MSet(a, items), MSet(b, items), t, last, unit)
  {
    if items != [] {
      var n := |items| - 1;
      MSetFollows(a, b, items[..n], t, last, unit);
      PutFollows(MSet(a, items[..n]), MSet(b, items[..n]), items[n].0, Str(items[n].1), t, last, unit);
    }
  }

  lemma GetDelFollows(a: Db, b: Db, key: Key, env: Env, env': Env, last: Time, unit: nat)
    requires ReplayedAfter(a, b, env, env', last, unit)
    ensures Follows(GetDel(a, key, env.now), GetDel(b, key, env'.now), env'.now, last, unit)
  {
    var a', b' := GetDel(a, key, env.now), GetDel(b, key, env'.now);
    assert FollowsAt(a, b, key, env'.now, last, unit);
    OnlyAtKey(a, key, Str([]), 0);
    OnlyAtKey(b, key, Str([]), 0);
    if Expired(a, key, env.now) && key in a.data {
      DivMonotone(a.expiry[key], last, unit);
    }
    ChangeAt(a, b, a', b', key, env'.now, last, unit);
  }

  /** Deleting keys that had expired, by a unit, before the replay began. */
  lemma DeletionFollows(a: Db, b: Db, keys: set<Key>, first: Time, t: Time, last: Time, unit: nat)
    requires IsUnit(unit) && Follows(a, b, t, last, unit) && first <= t <= last
    requires forall k :: k in keys && k in a.data ==> k in a.expiry && a.expiry[k] / unit < first / unit
    ensures Follows(Remove(a, keys), b, t, last, unit)
  {
    DivMonotone(first, t, unit);
    forall k ensures FollowsAt(Remove(a, keys), b, k, t, last, unit) {
      assert FollowsAt(a, b, k, t, last, unit);
      if k in keys && k in b.data && SameAt(a, b, k, unit) {
        UnitOrder(b.expiry[k], t, unit);
      }
    }
  }

  lemma PersistFollows(a: Db, b: Db, key: Key, t: Time, last: Time, unit: nat)
    requires unit > 0 && Follows(a, b, t, last, unit) && key in a.data && !Reached(a, key, last, unit)
    ensures Follows(a.(expiry := a.expiry - {key}), b.(expiry := b.expiry - {key}), t, last, unit)
  {
    var a', b' := a.(expiry := a.expiry - {key}), b.(expiry := b.expiry - {key});
    assert FollowsAt(a, b, key, t, last, unit);
    OnlyAtKey(a, key, Str([]), 0);
    OnlyAtKey(b, key, Str([]), 0);
    ChangeAt(a, b, a', b', key, t, last, unit);
  }

  // ----- Deadlines -----

  /** A Unix deadline installed by the run and, later, by the replay: in the same unit, or passed. */
  lemma UnixLapses(n: nat, now: Time, now': Time, last: Time, base: nat, unit: nat)
    requires Within(base, unit) && now <= now' <= last < INSTANT_LIMIT && UnixToInstant(n, now, base) < INSTANT_LIMIT
    ensures UnixToInstant(n, now', base) < INSTANT_LIMIT
    ensures n > now' / base ==> UnixToInstant(n, now', base) / unit == UnixToInstant(n, now, base) / unit
    ensures n <= now' / base ==> UnixToInstant(n, now', base) == now' && UnixToInstant(n, now, base) / unit <= last / unit
  {
    DivMonotone(now, now', base);
    if n > now' / base {
      InstantOf(n, now, base);
      InstantOf(n, now', base);
      BelowLimit(n, now % base, now' % base, base);
      CoarserUnit(base, unit, n, now % base);
      CoarserUnit(base, unit, n, now' % base);
    } else if n > now / base {
      InstantOf(n, now, base);
      CoarserUnit(base, unit, n, now % base);
      NotAfter(n, now', base);
      DivMonotone(n * base, last, unit);
    } else {
      DivMonotone(now, last, unit);
    }
  }

  lemma NotAfter(n: nat, now: Time, base: nat)
    requires IsUnit(base) && n <= now / base
    ensures n * base <= now
  {
  }

  /** SET's deadline in the replay is in the unit of the run's; or both have passed. */
  predicate DeadlineFollows(d: NewDeadline, d': NewDeadline, t: Time, last: Time, unit: nat)
    requires unit > 0
  {
    SameNewDeadline(d, d', unit) || (d.At? && d.time / unit <= last / unit && d'.At? && d'.time <= t)
  }

  lemma WrittenFollows(a: Db, b: Db, key: Key, value: Bytes, d: NewDeadline, d': NewDeadline, t: Time, last: Time, unit: nat)
    requires unit > 0 && Follows(a, b, t, last, unit) && DeadlineFollows(d, d', t, last, unit)
    ensures Follows(Written(a, key, value, d), Written(b, key, value, d'), t, last, unit)
  {
    var a', b' := Written(a, key, value, d), Written(b, key, value, d');
    WrittenOnlyAt(a, key, value, d);
    WrittenOnlyAt(b, key, value, d');
    ChangeAt(a, b, a', b', key, t, last, unit);
  }

  lemma WrittenOnlyAt(a: Db, key: Key, value: Bytes, d: NewDeadline)
    ensures OnlyAt(a, Written(a, key, value, d), key)
  {
    OnlyAtKey(a, key, Str(value), 0);
    if d.At? {
      OnlyAtKey(Put(a, key, Str(value)), key, Str(value), d.time);
    }
  }

  /** The expiry options that are logged as absolute. */
  predicate FollowableExpiry(db: Db, key: Key, expiry: Option<C.SetExpiry>, last: Time, unit: nat)
    requires unit > 0
  {
    match expiry
    case Some(Ex(_)) => false
    case Some(Px(_)) => false
    case Some(ExAt(_)) => unit == SECOND
    case Some(KeepTtl) => key in db.data && !Reached(db, key, last, unit)
    case _ => true
  }

  lemma AtUnixFollows(n: nat, now: Time, now': Time, last: Time, base: nat, unit: nat)
    requires Within(base, unit) && now <= now' <= last < INSTANT_LIMIT && AtUnix(n, now, base).At?
    ensures AtUnix(n, now', base).At? && DeadlineFollows(AtUnix(n, now, base), AtUnix(n, now', base), now', last, unit)
  {
    UnixLapses(n, now, now', last, base, unit);
  }

  lemma DeadlineForFollows(a: Db, b: Db, key: Key, expiry: Option<C.SetExpiry>, env: Env, env': Env, last: Time, unit: nat)
    requires ReplayedAfter(a, b, env, env', last, unit) && FollowableExpiry(a, key, expiry, last, unit)
    requires !DeadlineFor(expiry, PrevTtl(a, key), env.now).Overflow?
    ensures var d, d' := DeadlineFor(expiry, PrevTtl(a, key), env.now), DeadlineFor(expiry, PrevTtl(b, key), env'.now);
      !d'.Overflow? && DeadlineFollows(d, d', env'.now, last, unit)
  {
    match expiry
    case Some(ExAt(n)) => AtUnixFollows(n, env.now, env'.now, last, SECOND, unit);
    case Some(PxAt(n)) => AtUnixFollows(n, env.now, env'.now, last, MILLISECOND, unit);
    case Some(KeepTtl) => assert FollowsAt(a, b, key, env'.now, last, unit);
    case _ =>
  }

  /** SET on a key that is steady, or that any SET without a condition may overwrite. */
  predicate FollowableSet(db: Db, key: Key, options: C.SetOptions, env: Env, last: Time, unit: nat)
    requires unit > 0
  {
    && (Steady(db, key, env.now, last, unit) || (options.condition.None? && db.data[key].Str?))
    && (Strings.Writes(db, key, options, env) ==> FollowableExpiry(db, key, options.expiry, last, unit))
  }

  lemma SameWrites(a: Db, b: Db, key: Key, options: C.SetOptions, env: Env, env': Env, last: Time, unit: nat)
    requires ReplayedAfter(a, b, env, env', last, unit) && FollowableSet(a, key, options, env, last, unit)
    ensures Strings.Writes(a, key, options, env) <==> Strings.Writes(b, key, options, env')
  {
    if Steady(a, key, env.now, last, unit) {
      SteadyLookup(a, b, key, env, env', last, unit);
    } else {
      assert FollowsAt(a, b, key, env'.now, last, unit);
    }
  }

  /** What a replayed entry does when deadlines may have passed: it never panics, and the replay still follows. */
  ghost predicate StillFollows(o: Outcome, o': Outcome, t: Time, last: Time, unit: nat)
    requires unit > 0
  {
    o'.reply != Panics && Follows(o.db, o'.db, t, last, unit)
  }

  lemma SetFollows(a: Db, b: Db, key: Key, value: Bytes, options: C.SetOptions, env: Env, env': Env, last: Time, unit: nat)
    requires ReplayedAfter(a, b, env, env', last, unit) && FollowableSet(a, key, options, env, last, unit)
    requires ExecSet(a, key, value, options, env).reply != Panics
    ensures StillFollows(ExecSet(a, key, value, options, env), ExecSet(b, key, value, options, env'), env'.now, last, unit)
  {
    SameWrites(a, b, key, options, env, env', last, unit);
    SetUnfold(a, key, value, options, env);
    SetUnfold(b, key, value, options, env');
    if Strings.Writes(a, key, options, env) {
      var d := DeadlineFor(options.expiry, PrevTtl(a, key), env.now);
      var d' := DeadlineFor(options.expiry, PrevTtl(b, key), env'.now);
      DeadlineForFollows(a, b, key, options.expiry, env, env', last, unit);
      WrittenFollows(a, b, key, value, d, d', env'.now, last, unit);
    }
  }

  /** A deadline the run sets on a stored key, and the absolute one the replay sets later. */
  lemma DeadlineSetFollows(a: Db, b: Db, key: Key, n: nat, base: nat, env: Env, env': Env, last: Time, unit: nat)
    requires ReplayedAfter(a, b, env, env', last, unit) && Within(base, unit)
    requires key in a.data && !Reached(a, key, last, unit) && UnixToInstant(n, env.now, base) < INSTANT_LIMIT
    ensures var o' := ExpireAtUnix(b, key, env'.now, n, base);
      && o'.reply != Panics
      && Follows(SetTtl(a, key, UnixToInstant(n, env.now, base)), o'.db, env'.now, last, unit)
  {
    var t := UnixToInstant(n, env.now, base);
    var a', b' := SetTtl(a, key, t), ExpireAtUnix(b, key, env'.now, n, base).db;
    assert FollowsAt(a, b, key, env'.now, last, unit);
    UnixLapses(n, env.now, env'.now, last, base, unit);
    OnlyAtKey(a, key, Str([]), t);
    OnlyAtKey(b, key, Str([]), UnixToInstant(n, env'.now, base));
    ChangeAt(a, b, a', b', key, env'.now, last, unit);
  }

  lemma RelativeInstant(now: Time, amount: nat, factor: nat)
    requires now / MILLISECOND + amount * factor <= U64_MAX
    ensures UnixToInstant(LoggedDeadline(now, amount, factor), now, MILLISECOND) == now + amount * factor * MILLISECOND
  {
    LoggedDeadlineExact(now, amount, factor);
  }

  lemma RelativeFollows(a: Db, b: Db, key: Key, n: nat, factor: nat, base: nat, env: Env, env': Env, last: Time, unit: nat)
    requires ReplayedAfter(a, b, env, env', last, unit)
    requires (factor == 1 && base == MILLISECOND) || (factor == 1000 && base == SECOND)
    requires key in a.data && !Reached(a, key, last, unit) && env.now / MILLISECOND + n * factor <= U64_MAX
    requires env.now + n * base < INSTANT_LIMIT
    ensures StillFollows(ExpireIn(a, key, env.now, n * base),
                         ExpireAtUnix(b, key, env'.now, LoggedDeadline(env.now, n, factor), MILLISECOND), env'.now, last, unit)
  {
    assert n * base == n * factor * MILLISECOND;
    RelativeInstant(env.now, n, factor);
    DeadlineSetFollows(a, b, key, LoggedDeadline(env.now, n, factor), MILLISECOND, env, env', last, unit);
  }

  // ----- Commands -----

  /**
   * The commands a replay can follow although deadlines have passed since. A key whose deadline is reached by
   * `last` is not created again, moved, extended or made to depend on before it expires, and not even popped from
   * or pushed to by the X forms in the very unit of its deadline.
   */
  predicate Followable(db: Db, c: C.Command, env: Env, last: Time, unit: nat)
    requires unit > 0
  {
    if IsListWrite(c) then FollowableList(db, c, env.now, last, unit)
    else if IsSetWrite(c) then FollowableMembers(db, c, env.now, last, unit)
    else if IsExpiryWrite(c) then FollowableDeadline(db, c, env.now, last, unit)
    else c.Set? ==> FollowableSet(db, c.key, c.options, env, last, unit)
  }

  predicate FollowableList(db: Db, c: C.Command, now: Time, last: Time, unit: nat)
    requires unit > 0 && IsListWrite(c)
  {
    if c.LPush? || c.RPush? then Steady(db, c.key, now, last, unit)
    else !c.LSet? ==> Apart(db, c.key, now, last, unit)
  }

  predicate FollowableMembers(db: Db, c: C.Command, now: Time, last: Time, unit: nat)
    requires unit > 0 && IsSetWrite(c)
  {
    match c
    case SAdd(key, _) => Steady(db, key, now, last, unit)
    case SRem(key, _) => Apart(db, key, now, last, unit)
    case SMove(source, destination, _) => Steady(db, source, now, last, unit) && Steady(db, destination, now, last, unit)
    case SPop(key, count) => Apart(db, key, now, last, unit) && NoChoice(db, key, count, now)
  }

  predicate FollowableDeadline(db: Db, c: C.Command, now: Time, last: Time, unit: nat)
    requires unit > 0 && IsExpiryWrite(c)
  {
    && (c.Persist? ==> c.key in db.data) && !Reached(db, c.key, last, unit)
    && (c.Expire? ==> now / MILLISECOND + c.seconds * 1000 <= U64_MAX)
    && (c.PExpire? ==> now / MILLISECOND + c.milliseconds <= U64_MAX)
    && (c.ExpireAt? ==> unit == SECOND)
  }

  lemma ListFollows(a: Db, b: Db, c: C.Command, env: Env, env': Env, last: Time, unit: nat)
    requires ReplayedAfter(a, b, env, env', last, unit) && IsListWrite(c) && !c.LSet? && C.WellFormed(c) && FollowableList(a, c, env.now, last, unit)
    ensures StillFollows(MutateList(a, c, env.now), MutateList(b, c, env'.now), env'.now, last, unit)
  {
    match c
    case LPush(key, es) => PushFollows(a, b, key, es, true, Front, env, env', last, unit);
    case RPush(key, es) => PushFollows(a, b, key, es, true, Back, env, env', last, unit);
    case LPushX(key, es) => PushXFollows(a, b, key, es, Front, env, env', last, unit);
    case RPushX(key, es) => PushXFollows(a, b, key, es, Back, env, env', last, unit);
    case LPop(key, count) => PopFollows(a, b, key, CountOr1(count), Front, env, env', last, unit);
    case RPop(key, count) => PopFollows(a, b, key, CountOr1(count), Back, env, env', last, unit);
  }

  lemma MembersFollow(a: Db, b: Db, c: C.Command, env: Env, env': Env, last: Time, unit: nat)
    requires ReplayedAfter(a, b, env, env', last, unit) && IsSetWrite(c) && FollowableMembers(a, c, env.now, last, unit)
    requires ValidSampler(env.draw) && ValidSampler(env'.draw)
    ensures StillFollows(MutateSet(a, c, env), MutateSet(b, c, env'), env'.now, last, unit)
  {
    match c
    case SAdd(key, members) => SAddFollows(a, b, key, members, env, env', last, unit);
    case SRem(key, members) => SRemFollows(a, b, key, members, env, env', last, unit);
    case SMove(source, destination, member) => SMoveFollows(a, b, source, destination, member, env, env', last, unit);
    case SPop(key, count) => SPopFollows(a, b, key, count, env, env', last, unit);
  }

  lemma ExpiryFollows(a: Db, b: Db, c: C.Command, env: Env, env': Env, last: Time, unit: nat)
    requires ReplayedAfter(a, b, env, env', last, unit) && IsExpiryWrite(c) && FollowableDeadline(a, c, env.now, last, unit)
    requires Logged(c, MutateExpiry(a, c, env.now).reply)
    ensures StillFollows(MutateExpiry(a, c, env.now), MutateExpiry(b, LoggedCommand(c, env.now), env'.now), env'.now, last, unit)
  {
    if c.Persist? {
      PersistFollows(a, b, c.key, env'.now, last, unit);
    } else if c.ExpireAt? || c.PExpireAt? {
      AbsoluteFollows(a, b, c, env, env', last, unit);
    } else {
      match c
      case Expire(key, n) => RelativeFollows(a, b, key, n, 1000, SECOND, env, env', last, unit);
      case PExpire(key, n) => RelativeFollows(a, b, key, n, 1, MILLISECOND, env, env', last, unit);
    }
  }

  lemma AbsoluteFollows(a: Db, b: Db, c: C.Command, env: Env, env': Env, last: Time, unit: nat)
    requires ReplayedAfter(a, b, env, env', last, unit) && (c.ExpireAt? || c.PExpireAt?) && FollowableDeadline(a, c, env.now, last, unit)
    requires Logged(c, MutateExpiry(a, c, env.now).reply)
    ensures StillFollows(MutateExpiry(a, c, env.now), MutateExpiry(b, c, env'.now), env'.now, last, unit)
  {
    match c
    case ExpireAt(key, n) => DeadlineSetFollows(a, b, key, n, SECOND, env, env', last, unit);
    case PExpireAt(key, n) => DeadlineSetFollows(a, b, key, n, MILLISECOND, env, env', last, unit);
  }

  lemma GroupedFollows(a: Db, b: Db, c: C.Command, env: Env, env': Env, last: Time, unit: nat)
    requires IsListWrite(c) || IsSetWrite(c) || IsExpiryWrite(c)
    requires ValidSampler(env.draw) && ValidSampler(env'.draw)
    requires ReplayedAfter(a, b, env, env', last, unit) && C.WellFormed(c) && Followable(a, c, env, last, unit)
    requires Logged(c, Exec(a, c, env).reply)
    ensures StillFollows(Exec(a, c, env), Exec(b, LoggedCommand(c, env.now), env'), env'.now, last, unit)
  {
    if IsListWrite(c) {
      ListFollows(a, b, c, env, env', last, unit);
    } else if IsSetWrite(c) {
      MembersFollow(a, b, c, env, env', last, unit);
    } else {
      ExpiryFollows(a, b, c, env, env', last, unit);
    }
  }

  /** Replaying the entry of a logged command after deadlines have passed keeps following the run. */
  lemma LoggedFollows(a: Db, b: Db, c: C.Command, env: Env, env': Env, last: Time, unit: nat)
    requires ValidSampler(env.draw) && ValidSampler(env'.draw)
    requires ReplayedAfter(a, b, env, env', last, unit) && C.WellFormed(c) && Followable(a, c, env, last, unit)
    requires Logged(c, Exec(a, c, env).reply)
    ensures StillFollows(Exec(a, c, env), Exec(b, LoggedCommand(c, env.now), env'), env'.now, last, unit)
  {
    if IsListWrite(c) || IsSetWrite(c) || IsExpiryWrite(c) {
      GroupedFollows(a, b, c, env, env', last, unit);
    } else if c.Set? {
      var Set(key, value, options) := c;
      SetFollows(a, b, key, value, options, env, env', last, unit);
    } else if c.Delete? {
      var Delete(keys) := c;
      RemoveFollows(a, b, ToSet(keys), env'.now, last, unit);
    } else if c.GetDel? {
      var GetDel(key) := c;
      GetDelFollows(a, b, key, env, env', last, unit);
    } else if c.MSet? {
      MSetFollows(a, b, c.items, env'.now, last, unit);
    }
  }

  /** So does leaving out a command that is not logged and loses nothing. */
  lemma UnloggedFollows(a: Db, b: Db, c: C.Command, env: Env, t: Time, last: Time, unit: nat)
    requires unit > 0 && Follows(a, b, t, last, unit) && C.WellFormed(c)
    requires !Logged(c, Exec(a, c, env).reply) && !Loses(a, c, env)
    ensures Follows(Exec(a, c, env).db, b, t, last, unit)
  {
    LostWrites(a, c, env);
    var a' := Exec(a, c, env).db;
    forall k ensures FollowsAt(a', b, k, t, last, unit) {
      assert FollowsAt(a, b, k, t, last, unit);
      if k in a.data {
        assert PrevTtl(a, k) == PrevTtl(a', k);
      }
    }
  }
}
