/** Why the replay theorem has the conditions it has: what happens to a log without them. */
module ReplayLimits {
  import opened Bytes
  import opened Decimal
  import opened Database
  import opened Execution
  import opened Deadlines
  import opened Recovery
  import opened RecoverySteps
  import opened Resp2
  import opened Resp2Streams
  import opened Journal
  import opened Aof
  import opened Lapsed
  import opened LateRuns
  import E = Eviction
  import Sets
  import C = Command

  /**
   * A deadline reached before the replay. In the run a list gets a deadline and then one more element; when
   * the log is replayed after that deadline, PEXPIREAT deletes the list at once and the last push creates a
   * new one, which lives on without any deadline.
   */
  lemma ListOutlivesDeadline(key: Key, x: Bytes, y: Bytes, n: nat, t0: Time, t1: Time, last: Time)
    requires n > t0 / MILLISECOND && UnixToInstant(n, t0, MILLISECOND) < INSTANT_LIMIT
    requires t1 < UnixToInstant(n, t0, MILLISECOND) <= last
    ensures
      var run1 := ExpireAtUnix(Push(EMPTY, key, x, true, Back, t0).0, key, t0, n, MILLISECOND).db;
      var run2 := Push(run1, key, y, true, Back, t1).0;
      var replay1 := ExpireAtUnix(Push(EMPTY, key, x, true, Back, last).0, key, last, n, MILLISECOND).db;
      var replay2 := Push(replay1, key, y, true, Back, last).0;
      && Lookup(run2, key, t1) == Some(List([x, y]))
      && Lookup(run2, key, last) == None
      && Lookup(replay2, key, last) == Some(List([y]))
      && key !in replay2.expiry
  {
    InstantOf(n, t0, MILLISECOND);
    assert n <= last / MILLISECOND;
    var pushed := Put(EMPTY, key, List([x]));
    assert Push(EMPTY, key, x, true, Back, t0).0 == pushed == Push(EMPTY, key, x, true, Back, last).0;
    assert [x] + [y] == [x, y];
  }

  /** Popping a list empty leaves its entry in the expiry index. */
  lemma PopLeavesEntry(key: Key, x: Bytes, deadline: Time, now: Time)
    requires now < deadline
    ensures Pop(SetTtl(Put(EMPTY, key, List([x])), key, deadline), key, 1, Front, now).0 ==
      Db(map[], map[key := deadline])
  {
    var list := SetTtl(Put(EMPTY, key, List([x])), key, deadline);
    assert Lookup(list, key, now) == Some(List([x]));
    assert Unpopped([x], 1, Front) == [];
    assert list.data - {key} == map[] && list.expiry == map[key := deadline];
  }

  /** KEEPTTL on a missing key keeps whatever the index holds for it. */
  lemma KeepTtlReadsIndex(db: Db, key: Key, value: Bytes, env: Env)
    requires key !in db.data
    ensures PrevTtl(ExecSet(db, key, value, C.SetOptions(None, Some(C.KeepTtl), false), env).db, key) == PrevTtl(db, key)
  {
  }

  lemma DeleteClearsEntry(key: Key, deadline: Time)
    ensures ExecDelete(Db(map[], map[key := deadline]), [key]) == Outcome(EMPTY, Number(0))
  {
    var stale := Db(map[], map[key := deadline]);
    assert ToSet([key]) == {key};
    assert {key} * stale.data.Keys == {};
    assert stale.expiry - {key} == map[];
  }

  /**
   * KEEPTTL after a list was popped empty. A DEL that finds no key clears the stale entry but is not logged;
   * so SET KEEPTTL picks up a deadline in the replay only.
   */
  lemma KeepTtlFindsStaleEntry(key: Key, x: Bytes, value: Bytes, deadline: Time, env: Env, env': Env)
    requires env.now < deadline
    ensures
      var popped := Pop(SetTtl(Put(EMPTY, key, List([x])), key, deadline), key, 1, Front, env.now).0;
      var del := ExecDelete(popped, [key]);
      var keep := C.SetOptions(None, Some(C.KeepTtl), false);
      && !Logged(C.Delete([key]), del.reply)
      && PrevTtl(ExecSet(del.db, key, value, keep, env).db, key) == None
      && PrevTtl(ExecSet(popped, key, value, keep, env').db, key) == Some(deadline)
  {
    PopLeavesEntry(key, x, deadline, env.now);
    DeleteClearsEntry(key, deadline);
    KeepTtlReadsIndex(EMPTY, key, value, env);
    KeepTtlReadsIndex(Db(map[], map[key := deadline]), key, value, env');
  }

  /** EXPIRE with more seconds than `u64` milliseconds can hold succeeds, and is logged as already expired. */
  lemma HugeExpireLogsThePast(db: Db, key: Key, seconds: nat, now: Time, later: Time)
    requires key in db.data && seconds * 1000 > U64_MAX && now + seconds * SECOND < INSTANT_LIMIT
    requires 0 < now / MILLISECOND <= U64_MAX && now <= later
    ensures ExpireIn(db, key, now, seconds * SECOND).reply == Number(1)
    ensures LoggedDeadline(now, seconds, 1000) == now / MILLISECOND - 1
    ensures key !in ExpireAtUnix(db, key, later, LoggedDeadline(now, seconds, 1000), MILLISECOND).db.data
  {
    assert now / MILLISECOND <= later / MILLISECOND;
  }

  // ----- A first SET -----

  function SetRequest(key: Key, value: Bytes): RespValue {
    Request(["SET", key, value])
  }

  lemma PlainSet(key: Key, value: Bytes)
    ensures C.FromResp2(SetRequest(key, value)) == C.Parsed(C.Set(key, value, C.NO_OPTIONS))
  {
    var args := ["SET", key, value];
    RequestParses(args);
    assert args[3..] == [];
  }

  lemma FirstSet(key: Key, value: Bytes, env: Env)
    ensures Exec(EMPTY, C.Set(key, value, C.NO_OPTIONS), env) == Outcome(Put(EMPTY, key, Str(value)), OK)
  {
  }

  lemma SetReacts(key: Key, value: Bytes, env: Env)
    ensures SERVER.react(EMPTY, SetRequest(key, value), env).db == Put(EMPTY, key, Str(value))
  {
    PlainSet(key, value);
    FirstSet(key, value, env);
    ServerReacts(EMPTY, SetRequest(key, value), C.Set(key, value, C.NO_OPTIONS), env);
  }

  lemma NotEmpty(log: Bytes, key: Key, value: Bytes, p: Setting)
    requires Restarted(SERVER, log, p.clock).db == Put(EMPTY, key, Str(value))
    ensures !Rebuilds(SERVER, Session(EMPTY, log, true), RuleOf(p))
  {
    assert key in Put(EMPTY, key, Str(value)).data && key !in EMPTY.data;
  }

  // ----- Logged commands that replay to something else -----

  /** A command that is logged, and whose replay leaves other data or another deadline. */
  ghost predicate GoesWrong(a: Db, b: Db, c: C.Command, env: Env, env': Env, last: Time, unit: nat) {
    && Ready(a, b, env, env', last, unit) && Logged(c, Exec(a, c, env).reply) && Unreached(Exec(a, c, env).db, last, unit)
    && !Recovered(Exec(a, c, env).db, Exec(b, LoggedCommand(c, env.now), env').db, unit)
  }

  /** Two clock readings one millisecond apart. */
  ghost predicate ReadApart(env: Env, env': Env) {
    env.now == 0 && env'.now == MILLISECOND && env.digest == env'.digest
  }

  function SetWith(key: Key, value: Bytes, expiry: C.SetExpiry): C.Command {
    C.Set(key, value, C.SetOptions(None, Some(expiry), false))
  }

  lemma FirstSetWith(key: Key, value: Bytes, expiry: C.SetExpiry, env: Env, t: Time)
    requires DeadlineFor(Some(expiry), None, env.now) == At(t)
    ensures Exec(EMPTY, SetWith(key, value, expiry), env) == Outcome(SetTtl(Put(EMPTY, key, Str(value)), key, t), OK)
  {
  }

  /** A first SET that finds another millisecond in the replay. */
  lemma SetGoesWrong(key: Key, value: Bytes, expiry: C.SetExpiry, env: Env, env': Env, t: Time, t': Time)
    requires ReadApart(env, env') && t / MILLISECOND != t' / MILLISECOND && t / MILLISECOND > 1
    requires DeadlineFor(Some(expiry), None, env.now) == At(t) && DeadlineFor(Some(expiry), None, env'.now) == At(t')
    ensures GoesWrong(EMPTY, EMPTY, SetWith(key, value, expiry), env, env', MILLISECOND, MILLISECOND)
  {
    FirstSetWith(key, value, expiry, env, t);
    FirstSetWith(key, value, expiry, env', t');
    var a, b := SetTtl(Put(EMPTY, key, Str(value)), key, t), SetTtl(Put(EMPTY, key, Str(value)), key, t');
    assert !SameDeadline(a, b, key, MILLISECOND);
  }

  /** SET EX and PX are logged as they came, and a replay counts the delay from its own clock. */
  lemma SetExDrifts(key: Key, value: Bytes, env: Env, env': Env)
    requires ReadApart(env, env')
    ensures GoesWrong(EMPTY, EMPTY, SetWith(key, value, C.Ex(10)), env, env', MILLISECOND, MILLISECOND)
  {
    SetGoesWrong(key, value, C.Ex(10), env, env', 10 * SECOND, 10 * SECOND + MILLISECOND);
  }

  lemma SetPxDrifts(key: Key, value: Bytes, env: Env, env': Env)
    requires ReadApart(env, env')
    ensures GoesWrong(EMPTY, EMPTY, SetWith(key, value, C.Px(10)), env, env', MILLISECOND, MILLISECOND)
  {
    SetGoesWrong(key, value, C.Px(10), env, env', 10 * MILLISECOND, 11 * MILLISECOND);
  }

  /** A deadline in seconds takes over the milliseconds of the clock that installs it. */
  lemma SetExAtShifts(key: Key, value: Bytes, env: Env, env': Env)
    requires ReadApart(env, env')
    ensures GoesWrong(EMPTY, EMPTY, SetWith(key, value, C.ExAt(5)), env, env', MILLISECOND, MILLISECOND)
  {
    SetGoesWrong(key, value, C.ExAt(5), env, env', 5 * SECOND, 5 * SECOND + MILLISECOND);
  }

  lemma ExpireAtShifts(key: Key, value: Bytes, env: Env, env': Env)
    requires ReadApart(env, env')
    ensures var db := Put(EMPTY, key, Str(value));
      GoesWrong(db, db, C.ExpireAt(key, 5), env, env', MILLISECOND, MILLISECOND)
  {
    var db := Put(EMPTY, key, Str(value));
    var a, b := SetTtl(db, key, 5 * SECOND), SetTtl(db, key, 5 * SECOND + MILLISECOND);
    assert ExpireAtUnix(db, key, 0, 5, SECOND) == Outcome(a, Number(1));
    assert ExpireAtUnix(db, key, MILLISECOND, 5, SECOND) == Outcome(b, Number(1));
    assert !SameDeadline(a, b, key, MILLISECOND);
  }

  // ----- Evicted keys -----

  function PxArguments(key: Key, value: Bytes, millis: nat): seq<Bytes> {
    ["SET", key, value, "PX", DecimalText(millis)]
  }

  lemma PxOption(millis: nat)
    requires millis <= U64_MAX
    ensures C.ScanOptions(["PX", DecimalText(millis)], C.NO_OPTIONS) == C.Parsed(C.SetOptions(None, Some(C.Px(millis)), false))
  {
    var tokens := ["PX", DecimalText(millis)];
    ParseU64OfText(millis);
    assert C.IsExpiryWord(tokens[0]);
    assert tokens[2..] == [];
  }

  lemma PxParses(key: Key, value: Bytes, millis: nat)
    requires millis <= U64_MAX
    ensures C.FromResp2(Request(PxArguments(key, value, millis))) == C.Parsed(SetWith(key, value, C.Px(millis)))
  {
    var args := PxArguments(key, value, millis);
    RequestParses(args);
    assert args[3..] == ["PX", DecimalText(millis)];
    PxOption(millis);
  }

  /** A store that holds nothing but a string at `key`, with or without a deadline. */
  predicate HoldsOnly(db: Db, key: Key, s: Bytes) {
    db.data == map[key := Str(s)] && db.expiry.Keys <= {key}
  }

  lemma PxExecuted(key: Key, was: Bytes, millis: nat, env: Env)
    requires env.now + millis * MILLISECOND < INSTANT_LIMIT
    ensures var t := env.now + millis * MILLISECOND;
      Exec(EMPTY, SetWith(key, was, C.Px(millis)), env) == Outcome(Db(map[key := Str(was)], map[key := t]), OK)
  {
    var t := env.now + millis * MILLISECOND;
    FirstSetWith(key, was, C.Px(millis), env, t);
    assert SetTtl(Put(EMPTY, key, Str(was)), key, t) == Db(map[key := Str(was)], map[key := t]);
  }

  lemma PxServes(key: Key, was: Bytes, millis: nat, env: Env)
    requires millis <= U64_MAX && env.now + millis * MILLISECOND < INSTANT_LIMIT
    ensures var o := Serve(EMPTY, Incoming(Request(PxArguments(key, was, millis)), env));
      && HoldsOnly(o.db, key, was) && o.db.expiry == map[key := env.now + millis * MILLISECOND]
      && o.entry == Encode(Request(PxArguments(key, was, millis))) && o.up
  {
    PxParses(key, was, millis);
    PxExecuted(key, was, millis, env);
    ServesParsed(EMPTY, Incoming(Request(PxArguments(key, was, millis)), env), SetWith(key, was, C.Px(millis)));
  }

  /** Replaying that SET leaves the key with that value, whatever becomes of its deadline. */
  lemma PxReacts(key: Key, was: Bytes, millis: nat, env: Env)
    requires millis <= U64_MAX
    ensures var r := SERVER.react(EMPTY, Request(PxArguments(key, was, millis)), env); r.up && HoldsOnly(r.db, key, was)
  {
    var c := SetWith(key, was, C.Px(millis));
    PxParses(key, was, millis);
    SetUnfold(EMPTY, key, was, c.options, env);
    ServerReacts(EMPTY, Request(PxArguments(key, was, millis)), c, env);
  }

  lemma SetOverString(db: Db, key: Key, was: Bytes, value: Bytes, env: Env)
    requires HoldsOnly(db, key, was)
    ensures Exec(db, C.Set(key, value, C.NO_OPTIONS), env) == Outcome(Put(EMPTY, key, Str(value)), OK)
  {
    assert Put(db, key, Str(value)) == Put(EMPTY, key, Str(value));
  }

  lemma SetAnew(db: Db, key: Key, was: Bytes, value: Bytes, env: Env)
    requires HoldsOnly(db, key, was)
    ensures Serve(db, Incoming(SetRequest(key, value), env)) == Served(Put(EMPTY, key, Str(value)), Encode(SetRequest(key, value)), true)
    ensures SERVER.react(db, SetRequest(key, value), env).db == Put(EMPTY, key, Str(value))
  {
    PlainSet(key, value);
    SetOverString(db, key, was, value, env);
    ServesParsed(db, Incoming(SetRequest(key, value), env), C.Set(key, value, C.NO_OPTIONS));
    ServerReacts(db, SetRequest(key, value), C.Set(key, value, C.NO_OPTIONS), env);
  }

  /** The history: set with a deadline, set anew, deleted; and what the daemon sampled after the first turn. */
  function RaceTurns(key: Key, was: Bytes, millis: nat, env: Env, value: Bytes, env': Env, sampled: set<Key>): seq<Turn> {
    [Incoming(Request(PxArguments(key, was, millis)), env), Incoming(SetRequest(key, value), env'), Deletion(sampled)]
  }

  lemma FirstTurn(key: Key, was: Bytes, millis: nat, env: Env)
    requires millis <= U64_MAX && env.now + millis * MILLISECOND < INSTANT_LIMIT
    ensures var s := Step(SERVER, FRESH, Incoming(Request(PxArguments(key, was, millis)), env));
      && HoldsOnly(s.db, key, was) && s.db.expiry == map[key := env.now + millis * MILLISECOND]
      && s.log == Encode(Request(PxArguments(key, was, millis))) && s.alive
  {
    PxServes(key, was, millis, env);
    ServerServes(FRESH, Incoming(Request(PxArguments(key, was, millis)), env));
    assert [] + Encode(Request(PxArguments(key, was, millis))) == Encode(Request(PxArguments(key, was, millis)));
  }

  lemma OtherTurns(s: Session, key: Key, was: Bytes, value: Bytes, env: Env)
    requires s.alive && HoldsOnly(s.db, key, was)
    ensures Step(SERVER, Step(SERVER, s, Incoming(SetRequest(key, value), env)), Deletion({key})) ==
      Session(EMPTY, s.log + Encode(SetRequest(key, value)), true)
  {
    var r, d := Incoming(SetRequest(key, value), env), Deletion({key});
    var s' := Session(Put(EMPTY, key, Str(value)), s.log + Encode(SetRequest(key, value)), true);
    SetAnew(s.db, key, was, value, env);
    ServerServes(s, r);
    assert Step(SERVER, s, r) == s';
    ServerServes(s', d);
    assert Remove(Put(EMPTY, key, Str(value)), {key}) == EMPTY;
    assert s'.log + [] == s'.log;
  }

  lemma BothReplayed(key: Key, was: Bytes, millis: nat, value: Bytes, clock: nat -> Env)
    requires millis <= U64_MAX && GoodArguments(PxArguments(key, was, millis)) && GoodArguments(["SET", key, value])
    ensures Restarted(SERVER, Encode(Request(PxArguments(key, was, millis))) + Encode(SetRequest(key, value)), clock).db ==
      Put(EMPTY, key, Str(value))
  {
    var e, e' := Encode(Request(PxArguments(key, was, millis))), Encode(SetRequest(key, value));
    PxReacts(key, was, millis, clock(0));
    var db := SERVER.react(EMPTY, Request(PxArguments(key, was, millis)), clock(0)).db;
    SetAnew(db, key, was, value, clock(1));
    TwoEntries(SERVER, e, PxArguments(key, was, millis), e', ["SET", key, value], clock);
  }

  lemma NotSeen(log: Bytes, key: Key, value: Bytes, p: Setting)
    requires Restarted(SERVER, log, p.clock).db == Put(EMPTY, key, Str(value))
    ensures !Rebuilds(SERVER, Session(EMPTY, log, true), LateRule(p))
  {
    var db := Put(EMPTY, key, Str(value));
    assert Lookup(db, key, p.last) == Some(Str(value)) && Lookup(EMPTY, key, p.last) == None;
    if p.unit > 0 {
      assert !ViewAt(EMPTY, db, key, p.last, p.unit);
    }
  }

  /**
   * A key expires and is sampled by the daemon; before the daemon deletes it, it is set anew. The new value is
   * gone, and comes back with the next restart.
   */
  lemma EvictedComesBack(key: Key, was: Bytes, millis: nat, env: Env, sampling: Time, value: Bytes, env': Env, p: Setting)
    requires GoodArguments(PxArguments(key, was, millis)) && GoodArguments(["SET", key, value]) && millis <= U64_MAX
    requires env.now + millis * MILLISECOND <= sampling < INSTANT_LIMIT
    ensures var first := Run(SERVER, FRESH, [Incoming(Request(PxArguments(key, was, millis)), env)]);
      var doomed := E.Doomed(first.db, {key}, sampling);
      var end := Run(SERVER, FRESH, RaceTurns(key, was, millis, env, value, env', doomed.Keys));
      && doomed.Keys == {key} && end.db == EMPTY
      && Restarted(SERVER, end.log, p.clock).db == Put(EMPTY, key, Str(value))
      && !Rebuilds(SERVER, end, RuleOf(p)) && !Rebuilds(SERVER, end, LateRule(p))
  {
    var r, r', d := Incoming(Request(PxArguments(key, was, millis)), env), Incoming(SetRequest(key, value), env'), Deletion({key});
    var first := Step(SERVER, FRESH, r);
    var log := Encode(Request(PxArguments(key, was, millis))) + Encode(SetRequest(key, value));
    RunOne(SERVER, FRESH, r);
    FirstTurn(key, was, millis, env);
    assert E.Doomed(first.db, {key}, sampling).Keys == {key};
    RunThree(SERVER, FRESH, r, r', d);
    OtherTurns(first, key, was, value, env');
    BothReplayed(key, was, millis, value, p.clock);
    NotEmpty(log, key, value, p);
    NotSeen(log, key, value, p);
  }

  // ----- Random pops -----

  ghost function SomeOf(s: set<Bytes>, n: nat): (d: set<Bytes>)
    ensures d <= s && |d| == Min(n, |s|)
  {
    if n == 0 || s == {} then {}
    else
      var x :| x in s;
      {x} + SomeOf(s - {x}, n - 1)
  }

  /** There are samplers. */
  lemma SamplerExists() returns (draw: (set<Bytes>, nat) -> set<Bytes>)
    ensures ValidSampler(draw)
  {
    draw := (s, n) => SomeOf(s, n);
  }

  /** Where a sampler has a choice, another one chooses differently. */
  lemma OtherDraw(draw: (set<Bytes>, nat) -> set<Bytes>, s: set<Bytes>, n: nat) returns (other: (set<Bytes>, nat) -> set<Bytes>)
    requires ValidSampler(draw) && 0 < n < |s|
    ensures ValidSampler(other) && s - other(s, n) != s - draw(s, n)
  {
    var d := draw(s, n);
    assert d <= s && |d| == n;
    var x :| x in d;
    assert |s| == |d| + |s - d|;
    var y :| y in s - d;
    var d' := (d - {x}) + {y};
    assert |d'| == n;
    other := (t, k) => if t == s && k == n then d' else draw(t, k);
    assert y in s - d && y !in s - d';
  }

  lemma SPopGoesWrong(a: Db, b: Db, key: Key, count: Option<nat>, env: Env, env': Env, last: Time, unit: nat)
    returns (draw: (set<Bytes>, nat) -> set<Bytes>)
    requires Ready(a, b, env, env', last, unit) && ValidSampler(env.draw) && !NoChoice(a, key, count, env.now)
    ensures ValidSampler(draw)
    ensures !Recovered(ExecSPop(a, key, count, env).db, ExecSPop(b, key, count, env'.(draw := draw)).db, unit)
  {
    var s, n := Sets.MembersAt(a, key, env.now), CountOr1(count);
    SameLookup(a, b, key, env.now, env'.now, last, unit);
    draw := OtherDraw(env.draw, s, n);
    SPopExact(a, b, key, count, env, env'.(draw := draw), last, unit);
  }

  ghost predicate AnySampler(a: Db, b: Db, key: Key, count: Option<nat>, env: Env, env': Env, unit: nat)
    requires unit > 0
  {
    forall draw :: ValidSampler(draw) ==>
      Recovered(ExecSPop(a, key, count, env).db, ExecSPop(b, key, count, env'.(draw := draw)).db, unit)
  }

  /** SPOP replays to the same set whatever is drawn exactly when there is no choice: nothing or everything to draw. */
  lemma SPopAnySampler(a: Db, b: Db, key: Key, count: Option<nat>, env: Env, env': Env, last: Time, unit: nat)
    requires Ready(a, b, env, env', last, unit) && ValidSampler(env.draw)
    ensures AnySampler(a, b, key, count, env, env', unit) <==> NoChoice(a, key, count, env.now)
  {
    if NoChoice(a, key, count, env.now) {
      forall draw | ValidSampler(draw)
        ensures Recovered(ExecSPop(a, key, count, env).db, ExecSPop(b, key, count, env'.(draw := draw)).db, unit)
      {
        NoChoiceReplays(a, b, key, count, env, env'.(draw := draw), last, unit);
        SPopExact(a, b, key, count, env, env'.(draw := draw), last, unit);
      }
    } else {
      var draw := SPopGoesWrong(a, b, key, count, env, env', last, unit);
    }
  }

  // ----- The condition on the run alone -----

  /** The command replays, whatever the replay has of stale entries, reads of its clock and draws. */
  ghost predicate AnyReplay(a: Db, c: C.Command, env: Env, last: Time, unit: nat)
    requires unit > 0
  {
    forall b, env': Env :: Ready(a, b, env, env', last, unit) && ValidSampler(env'.draw) ==> Replays(a, b, c, env, env', unit)
  }

  lemma ReadyAt(a: Db, env: Env, now: Time, last: Time, unit: nat)
    requires IsUnit(unit) && Unreached(a, last, unit) && env.now <= last && now <= last
    ensures Ready(a, a, env, env.(now := now), last, unit)
  {
  }

  /** A delay counted from 0 and from `last` ends in different units. */
  lemma DelaysDiffer(delay: nat, last: Time, unit: nat)
    requires IsUnit(unit) && unit <= last
    ensures !SameDelayed(delay, 0, last, unit)
  {
  }

  /** A delay or a deadline in seconds that is seen finds another clock reading that moves it. */
  lemma OtherReading(a: Db, expiry: C.SetExpiry, key: Key, env: Env, last: Time, unit: nat) returns (now: Time)
    requires IsUnit(unit) && unit <= last && !ReplayableExpiry(a, key, Some(expiry), unit) && !expiry.KeepTtl?
    ensures now <= last && !ExpiryReplays(a, a, key, Some(expiry), env.now, now, unit)
  {
    match expiry
    case Ex(n) =>
      DelaysDiffer(n * SECOND, last, unit);
      now := if SameDelayed(n * SECOND, env.now, 0, unit) then last else 0;
    case Px(n) =>
      DelaysDiffer(n * MILLISECOND, last, unit);
      now := if SameDelayed(n * MILLISECOND, env.now, 0, unit) then last else 0;
    case ExAt(n) => now := OtherOffset(env.now);
  }

  lemma OtherOffset(now: Time) returns (now': Time)
    ensures now' <= MILLISECOND && !SameOffset(now, now')
  {
    now' := if SameOffset(now, 0) then MILLISECOND else 0;
  }

  /** A stale entry of the index, or none, where the run has it the other way. */
  lemma OtherEntry(a: Db, key: Key, env: Env, last: Time, unit: nat) returns (b: Db)
    requires IsUnit(unit) && Unreached(a, last, unit) && env.now <= last && key !in a.data
    ensures Ready(a, b, env, env, last, unit) && !SameDeadline(a, b, key, unit)
  {
    b := if key in a.expiry then a.(expiry := a.expiry - {key}) else a.(expiry := a.expiry[key := 0]);
    forall k | k in a.data ensures SameDeadline(a, b, k, unit) {
    }
  }

  lemma SetFails(a: Db, c: C.Command, env: Env, last: Time, unit: nat)
    requires IsUnit(unit) && Unreached(a, last, unit) && env.now <= last && unit <= last && ValidSampler(env.draw)
    requires c.Set? && !Replayable(a, c, env, unit)
    ensures !AnyReplay(a, c, env, last, unit)
  {
    var Set(key, value, options) := c;
    if options.expiry == Some(C.KeepTtl) {
      var b := OtherEntry(a, key, env, last, unit);
      assert !Replays(a, b, c, env, env, unit);
    } else {
      var now := OtherReading(a, options.expiry.value, key, env, last, unit);
      ReadyAt(a, env, now, last, unit);
      assert !Replays(a, a, c, env, env.(now := now), unit);
    }
  }

  /** That condition is exact: a command that does not meet it has a replay, ready as any, that goes wrong. */
  lemma ReplayableExactly(a: Db, c: C.Command, env: Env, last: Time, unit: nat)
    requires IsUnit(unit) && Unreached(a, last, unit) && env.now <= last && unit <= last && ValidSampler(env.draw)
    ensures AnyReplay(a, c, env, last, unit) <==> Replayable(a, c, env, unit)
  {
    if Replayable(a, c, env, unit) {
      forall b, env': Env | Ready(a, b, env, env', last, unit) && ValidSampler(env'.draw)
        ensures Replays(a, b, c, env, env', unit)
      {
        ReplayableReplays(a, b, c, env, env', last, unit);
      }
    } else if c.Set? {
      SetFails(a, c, env, last, unit);
    } else {
      OthersFail(a, c, env, last, unit);
    }
  }

  lemma OthersFail(a: Db, c: C.Command, env: Env, last: Time, unit: nat)
    requires IsUnit(unit) && Unreached(a, last, unit) && env.now <= last && unit <= last && ValidSampler(env.draw)
    requires !c.Set? && !Replayable(a, c, env, unit)
    ensures !AnyReplay(a, c, env, last, unit)
  {
    ReadyAt(a, env, env.now, last, unit);
    assert env.(now := env.now) == env;
    if c.SPop? {
      var SPop(key, count) := c;
      var draw := SPopGoesWrong(a, a, key, count, env, env, last, unit);
      SPopExact(a, a, key, count, env, env.(draw := draw), last, unit);
      assert !Replays(a, a, c, env, env.(draw := draw), unit);
    } else if c.ExpireAt? {
      var now := OtherOffset(env.now);
      ReadyAt(a, env, now, last, unit);
      assert !Replays(a, a, c, env, env.(now := now), unit);
    } else {
      assert !Replays(a, a, c, env, env, unit);
    }
  }

  /** One of two members. */
  lemma SPopOfTwo(key: Key, env: Env, env': Env) returns (draw: (set<Bytes>, nat) -> set<Bytes>)
    requires ReadApart(env, env') && ValidSampler(env.draw)
    ensures var db := Put(EMPTY, key, Set({"a", "b"}));
      ValidSampler(draw) && GoesWrong(db, db, C.SPop(key, None), env, env'.(draw := draw), MILLISECOND, MILLISECOND)
  {
    var db := Put(EMPTY, key, Set({"a", "b"}));
    assert Sets.MembersAt(db, key, env.now) == {"a", "b"};
    assert "a" != "b";
    assert Ready(db, db, env, env', MILLISECOND, MILLISECOND);
    draw := SPopGoesWrong(db, db, key, None, env, env', MILLISECOND, MILLISECOND);
  }

  // ----- Appending after a torn entry -----

  /** A crash that leaves just the first byte of the first entry: there is nothing to lose, yet the server refuses to start. */
  lemma FirstByteRefused(args: seq<Bytes>, clock: nat -> Env)
    requires GoodArguments(args)
    ensures Restarted(SERVER, Encode(Request(args))[..1], clock) == Restart(EMPTY, Failed(InvalidInteger))
  {
    TornCommand(args, 1);
    ReplayEnds(SERVER, NOTHING, Encode(Request(args))[..1], clock);
  }

  /** `SET key` with a five-byte value, cut where the value should start. */
  function TornSet(key: Key): Bytes {
    Header('*', DecimalText(3)) + (Encode(BulkString("SET")) + (Encode(BulkString(key)) + Header('$', DecimalText(5))))
  }

  /** The head of the entry appended next, taken for the missing value. */
  const SWALLOWED: Bytes := "*2\r\n$"

  /** Those bytes are what a crash can leave of the entry of such a SET. */
  lemma TornSetIsTorn(key: Key, value: Bytes)
    requires |value| == 5
    ensures TornSet(key) < Encode(Request(["SET", key, value]))
  {
    var args := ["SET", key, value];
    assert args[1..] == [key, value] && args[1..][1..] == [value] && args[1..][1..][1..] == [];
    EncodeBulks(args);
    EncodeBulks(args[1..]);
    EncodeBulks(args[1..][1..]);
    var a, b, c, d := Header('*', DecimalText(3)), Encode(BulkString("SET")), Encode(BulkString(key)), Header('$', DecimalText(5));
    var e := value + CRLF;
    assert Encode(BulkString(value)) == d + e;
    PrefixOfFour(a, b, c, d, e, EncodeAll(Bulks([])));
  }

  lemma PrefixOfFour(a: Bytes, b: Bytes, c: Bytes, d: Bytes, e: Bytes, f: Bytes)
    requires e != []
    ensures a + (b + (c + d)) < a + (b + (c + ((d + e) + f)))
  {
    assert a + (b + (c + ((d + e) + f))) == (a + (b + (c + d))) + (e + f);
  }

  predicate SwallowedHead(next: Bytes) {
    |next| > 7 && next[..5] == SWALLOWED && next[7] == '\n'
  }

  function GetDelRequest(x: Key): RespValue {
    Request(["GETDEL", x])
  }

  /** The entry of a GETDEL starts like that. */
  lemma GetDelHead(x: Key)
    ensures SwallowedHead(Encode(GetDelRequest(x)))
  {
    var args := ["GETDEL", x];
    var next := Encode(GetDelRequest(x));
    var h, g := Header('*', DecimalText(2)), Header('$', DecimalText(6));
    var tail := "GETDEL" + CRLF + EncodeAll(Bulks(args[1..]));
    EncodeBulks(args);
    assert Encode(BulkString("GETDEL")) == g + "GETDEL" + CRLF;
    assert next == h + (g + tail);
    HeadBytes(next, h, g, tail);
  }

  lemma HeadBytes(next: Bytes, h: Bytes, g: Bytes, tail: Bytes)
    requires h == Header('*', DecimalText(2)) && g == Header('$', DecimalText(6))
    requires next == h + (g + tail) && tail != []
    ensures SwallowedHead(next)
  {
    assert h == "*2\r\n" && g == "$6\r\n";
    assert next[..5] == h + [g[0]];
    assert next[7] == g[3];
  }

  lemma SwallowedBody(b: Bytes)
    requires SwallowedHead(b)
    ensures Decode(Header('$', DecimalText(5)) + b) == Ok(BulkString(SWALLOWED), b[7..])
  {
    AsciiIsUtf8(SWALLOWED);
    DecodeNumberHeader('$', 5, b);
    FiveByteBody(DecimalText(5), b);
  }

  lemma FiveByteBody(text: Bytes, b: Bytes)
    requires ParseI64(text) == Some(5) && |b| > 7 && Utf8(b[..5])
    ensures DecodeBody('$', text, b) == Ok(BulkString(b[..5]), b[7..])
  {
    assert DecodeBody('$', text, b) == DecodeBulkString(text, b);
  }

  lemma ItemsCons(n: nat, b: Bytes, v: RespValue, rest: Bytes, items: seq<RespValue>, end: Bytes)
    requires Decode(b) == Ok(v, rest) && DecodeItems(n, rest) == Ok(items, end)
    ensures DecodeItems(n + 1, b) == Ok([v] + items, end)
  {
  }

  lemma TornItemsRead(key: Key, next: Bytes)
    requires Utf8(key) && |key| <= I64_MAX && SwallowedHead(next)
    ensures var b := Encode(BulkString("SET")) + (Encode(BulkString(key)) + (Header('$', DecimalText(5)) + next));
      DecodeItems(3, b) == Ok(Bulks(["SET", key, SWALLOWED]), next[7..])
  {
    var b2 := Header('$', DecimalText(5)) + next;
    var b1 := Encode(BulkString(key)) + b2;
    SwallowedBody(next);
    DecodeEncodeBulkString(key, b2);
    DecodeSetName(b1);
    ThreeItems(Encode(BulkString("SET")) + b1, b1, b2, next[7..], "SET", key, SWALLOWED);
  }

  lemma DecodeSetName(rest: Bytes)
    ensures Decode(Encode(BulkString("SET")) + rest) == Ok(BulkString("SET"), rest)
  {
    AsciiIsUtf8("SET");
    DecodeEncodeBulkString("SET", rest);
  }

  lemma ThreeItems(b0: Bytes, b1: Bytes, b2: Bytes, b3: Bytes, u: Bytes, v: Bytes, w: Bytes)
    requires Decode(b0) == Ok(BulkString(u), b1) && Decode(b1) == Ok(BulkString(v), b2) && Decode(b2) == Ok(BulkString(w), b3)
    ensures DecodeItems(3, b0) == Ok(Bulks([u, v, w]), b3)
  {
    ItemsCons(0, b2, BulkString(w), b3, [], b3);
    ItemsCons(1, b1, BulkString(v), b2, [BulkString(w)] + [], b3);
    ItemsCons(2, b0, BulkString(u), b1, [BulkString(v)] + ([BulkString(w)] + []), b3);
    assert Bulks([u, v, w]) == [BulkString(u)] + ([BulkString(v)] + ([BulkString(w)] + []));
  }

  /** After a torn entry the next append is read as part of it: a SET is decoded that no client sent. */
  lemma TornTailSwallowsNext(key: Key, next: Bytes)
    requires Utf8(key) && |key| <= I64_MAX && SwallowedHead(next)
    ensures Decode(TornSet(key) + next) == Ok(SetRequest(key, SWALLOWED), next[7..])
  {
    var a, b, c, d := Header('*', DecimalText(3)), Encode(BulkString("SET")), Encode(BulkString(key)), Header('$', DecimalText(5));
    assert a + (b + (c + d)) + next == a + (b + (c + (d + next))) by {
      assert (c + d) + next == c + (d + next);
      assert (b + (c + d)) + next == b + ((c + d) + next);
    }
    TornItemsRead(key, next);
    DecodeNumberHeader('*', 3, b + (c + (d + next)));
    DecodeArrayBody(DecimalText(3), Bulks(["SET", key, SWALLOWED]), b + (c + (d + next)), next[7..]);
  }

  /** A restart from the torn SET finds nothing, and starts: the cut is not at an edge of a length. */
  lemma TornSetStarts(key: Key, clock: nat -> Env)
    requires Utf8(key) && |key| <= I64_MAX
    ensures Restarted(SERVER, TornSet(key), clock) == Restart(EMPTY, Synced)
  {
    TornSetDecodes(key);
    ReplayEnds(SERVER, NOTHING, TornSet(key), clock);
  }

  lemma MissingBody()
    ensures DecodeItems(1, Header('$', DecimalText(5))) == Err(UnexpectedEof)
  {
    var d := Header('$', DecimalText(5));
    assert d + [] == d;
    DecodeNumberHeader('$', 5, []);
    ShortBulkBody(DecimalText(5), 5, []);
    FirstFails(1, d, UnexpectedEof);
  }

  lemma NameThenFails(rest: Bytes)
    requires DecodeItems(2, rest) == Err(UnexpectedEof)
    ensures DecodeItems(3, Encode(BulkString("SET")) + rest) == Err(UnexpectedEof)
  {
    AsciiIsUtf8("SET");
    LaterFails(3, "SET", rest, UnexpectedEof);
  }

  lemma ThreeFail(b: Bytes)
    requires DecodeItems(3, b) == Err(UnexpectedEof)
    ensures Decode(Header('*', DecimalText(3)) + b) == Err(UnexpectedEof)
  {
    DecodeNumberHeader('*', 3, b);
    ShortArrayBody(DecimalText(3), 3, b, UnexpectedEof);
  }

  lemma TornSetDecodes(key: Key)
    requires Utf8(key) && |key| <= I64_MAX
    ensures Decode(TornSet(key)) == Err(UnexpectedEof)
  {
    var c := Encode(BulkString(key)) + Header('$', DecimalText(5));
    MissingBody();
    LaterFails(2, key, Header('$', DecimalText(5)), UnexpectedEof);
    NameThenFails(c);
    ThreeFail(Encode(BulkString("SET")) + c);
  }

  /** GETDEL of a missing key changes nothing, replies nil, and is logged. */
  lemma GetDelIsLogged(x: Key, env: Env)
    ensures Serve(EMPTY, Incoming(GetDelRequest(x), env)) == Served(EMPTY, Encode(GetDelRequest(x)), true)
  {
    RequestParses(["GETDEL", x]);
    assert Exec(EMPTY, C.GetDel(x), env) == Outcome(EMPTY, Value(NullBulkString)) by {
      assert Remove(EMPTY, {x}) == EMPTY;
    }
    ServesParsed(EMPTY, Incoming(GetDelRequest(x), env), C.GetDel(x));
  }

  lemma GetDelStep(left: Bytes, x: Key, env: Env)
    ensures Step(SERVER, Session(EMPTY, left, true), Incoming(GetDelRequest(x), env)) ==
      Session(EMPTY, left + Encode(GetDelRequest(x)), true)
  {
    GetDelIsLogged(x, env);
    ServerServes(Session(EMPTY, left, true), Incoming(GetDelRequest(x), env));
  }

  lemma SwallowedIsReplayed(key: Key, next: Bytes, clock: nat -> Env)
    requires Utf8(key) && |key| <= I64_MAX && SwallowedHead(next)
    ensures Restarted(SERVER, TornSet(key) + next, clock).db == Put(EMPTY, key, Str(SWALLOWED))
  {
    TornTailSwallowsNext(key, next);
    StrayNewline(next[7..]);
    SetReacts(key, SWALLOWED, clock(0));
    RestartFrom(SERVER, SetRequest(key, SWALLOWED), TornSet(key) + next, next[7..], clock, Put(EMPTY, key, Str(SWALLOWED)));
  }

  /**
   * A server that crashed while it appended its first SET starts again with an empty store, and serves a GETDEL
   * that finds nothing. Its store is still empty; but the next restart finds a key whose value no client sent.
   */
  lemma TornTailCorrupts(key: Key, x: Key, env: Env, clock: nat -> Env, p: Setting)
    requires Utf8(key) && |key| <= I64_MAX
    ensures Restarted(SERVER, TornSet(key), clock) == Restart(EMPTY, Synced)
    ensures var end := Run(SERVER, Reborn(SERVER, TornSet(key), clock), [Incoming(GetDelRequest(x), env)]);
      && end == Session(EMPTY, TornSet(key) + Encode(GetDelRequest(x)), true)
      && Restarted(SERVER, end.log, p.clock).db == Put(EMPTY, key, Str(SWALLOWED))
      && !Rebuilds(SERVER, end, RuleOf(p))
  {
    TornSetStarts(key, clock);
    RunOne(SERVER, Session(EMPTY, TornSet(key), true), Incoming(GetDelRequest(x), env));
    GetDelStep(TornSet(key), x, env);
    GetDelHead(x);
    SwallowedIsReplayed(key, Encode(GetDelRequest(x)), p.clock);
    NotEmpty(TornSet(key) + Encode(GetDelRequest(x)), key, SWALLOWED, p);
  }

  lemma StrayNewline(b: Bytes)
    requires b != [] && b[0] == '\n'
    ensures Decode(b).Err?
  {
    assert LineLength(b) == 1 && b[..1] == "\n";
    AsciiIsUtf8(b[..1]);
  }
}
