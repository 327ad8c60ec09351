/** Why a torn log must not be appended to: the server's own requests, and the cuts after which one is lost. */
module TornLog {
  import opened Bytes
  import opened Decimal
  import opened Resp2
  import opened Resp2Streams
  import opened Database
  import opened Execution
  import opened Recovery
  import opened RecoverySteps
  import opened Strings
  import opened Journal
  import opened SecondLife
  import opened Aof
  import T = TornTail
  import C = Command

  // ----- Requests that any replay follows -----

  /** A condition on the run alone: see `Replayable` and `Loses`. */
  ghost predicate PlainTurn(db: Db, r: Turn, unit: nat) {
    && (r.Deletion? ==> r.keys !! db.data.Keys)
    && forall c :: Asks(r, c) ==>
      if Logged(c, Exec(db, c, r.env).reply) then Replayable(db, c, r.env, unit) else !Loses(db, c, r.env)
  }

  ghost predicate PlainRequest(s: Session, r: Turn, last: Time, unit: nat, digest: Bytes -> int) {
    Timely(s, r, last, unit, digest) && (r.Incoming? ==> ValidSampler(r.env.draw)) && (s.alive ==> PlainTurn(s.db, r, unit))
  }

  ghost function PlainOf(last: Time, unit: nat, digest: Bytes -> int): (Session, Turn) -> bool {
    (s, r) => PlainRequest(s, r, last, unit, digest)
  }

  ghost predicate PlainSetting(p: Setting) {
    ValidSetting(p) && forall i :: ValidSampler(p.clock(i).draw)
  }

  lemma PlainIsFaithful(db: Db, r: Turn, m: Rebuild, p: Setting)
    requires PlainSetting(p) && Alike(db, m.db, p.unit) && PlainTurn(db, r, p.unit) && (r.Incoming? ==> ValidSampler(r.env.draw))
    requires InTime(r, p.last, p.digest) && Unreached(db, p.last, p.unit)
    ensures Faithful(db, r, m.db, p.clock(m.entries), p.unit)
  {
    forall c | Asks(r, c) && Logged(c, Exec(db, c, r.env).reply)
      ensures Replays(db, m.db, c, r.env, p.clock(m.entries), p.unit)
    {
      assert p.clock(m.entries).now <= p.last;
      ReplayableReplays(db, m.db, c, r.env, p.clock(m.entries), p.last, p.unit);
    }
  }

  lemma ServerPlainIsGood(p: Setting)
    requires PlainSetting(p)
    ensures PlainIsGood(SERVER, RuleOf(p), PlainOf(p.last, p.unit, p.digest))
  {
    var rule, plain := RuleOf(p), PlainOf(p.last, p.unit, p.digest);
    forall s, r, m | InStep(SERVER, s, m, rule) && plain(s, r) ensures rule.good(s, r, m) {
      if s.alive {
        PlainIsFaithful(s.db, r, m, p);
      }
    }
  }

  // ----- A request appended after a torn entry -----

  function Appended(wide: bool, n: nat, env: Env): Turn {
    Incoming(Request(T.Arguments(wide, n)), env)
  }

  lemma AppendedArguments(wide: bool, n: nat)
    requires n <= I64_MAX
    ensures GoodArguments(T.Arguments(wide, n)) && WellTyped(Request(T.Arguments(wide, n)))
  {
    var args := T.Arguments(wide, n);
    AsciiIsUtf8("MSET");
    AsciiIsUtf8(T.KEY);
    AsciiIsUtf8(T.Filler(n));
    assert GoodArguments(args);
    forall i | 0 <= i < |args| ensures WellTyped(Request(args).items[i]) {
      assert Request(args).items[i] == BulkString(args[i]);
    }
  }

  function Items(wide: bool, v: Bytes): seq<(Bytes, Bytes)> {
    var p := (T.KEY, v);
    if wide then [p] + ([p] + ([p] + ([p] + [p]))) else [p]
  }

  lemma PairsOf(rest: seq<Bytes>, v: Bytes)
    ensures C.Pairs([T.KEY, v] + rest) == [(T.KEY, v)] + C.Pairs(rest)
  {
    assert ([T.KEY, v] + rest)[2..] == rest;
  }

  lemma AppendedPairs(wide: bool, v: Bytes)
    ensures C.Pairs(T.Pairs(wide, v)) == Items(wide, v)
  {
    var p: seq<Bytes> := [T.KEY, v];
    PairsOf([], v);
    assert p + [] == p;
    if wide {
      PairsOf(p, v);
      PairsOf(p + p, v);
      PairsOf(p + (p + p), v);
      PairsOf(p + (p + (p + p)), v);
      assert T.Pairs(true, v) == p + (p + (p + (p + p)));
    }
  }

  lemma AppendedParses(wide: bool, n: nat)
    ensures C.FromResp2(Request(T.Arguments(wide, n))) == C.Parsed(C.MSet(Items(wide, T.Filler(n))))
  {
    var args := T.Arguments(wide, n);
    RequestParses(args);
    assert args[1..] == T.Pairs(wide, T.Filler(n));
    AppendedPairs(wide, T.Filler(n));
  }

  lemma ItemsStore(db: Db, wide: bool, v: Bytes)
    ensures var db' := MSet(db, Items(wide, v));
      && Holds(db', T.KEY, v) && T.KEY !in db'.expiry
      && forall k :: k != T.KEY && k in db'.data ==> k in db.data && PrevTtl(db', k) == PrevTtl(db, k)
  {
    var items := Items(wide, v);
    assert LastPair(items, T.KEY, |items| - 1);
    MSetLastWins(db, items, T.KEY, |items| - 1);
    forall k | k != T.KEY && k in MSet(db, items).data
      ensures k in db.data && PrevTtl(MSet(db, items), k) == PrevTtl(db, k)
    {
      MSetLeavesOthers(db, items, k);
    }
  }

  lemma AppendedServes(db: Db, wide: bool, n: nat, env: Env)
    ensures Serve(db, Appended(wide, n, env)) ==
      Served(MSet(db, Items(wide, T.Filler(n))), Encode(Request(T.Arguments(wide, n))), true)
  {
    AppendedParses(wide, n);
    ServesParsed(db, Appended(wide, n, env), C.MSet(Items(wide, T.Filler(n))));
  }

  lemma AppendedStep(s: Session, wide: bool, n: nat, env: Env)
    requires s.alive
    ensures var end := Step(SERVER, s, Appended(wide, n, env));
      && end.db == MSet(s.db, Items(wide, T.Filler(n)))
      && end.log == s.log + Encode(Request(T.Arguments(wide, n)))
  {
    AppendedServes(s.db, wide, n, env);
    ServerServes(s, Appended(wide, n, env));
  }

  lemma AppendedIsUnreached(db: Db, wide: bool, v: Bytes, last: Time, unit: nat)
    requires unit > 0 && Unreached(db, last, unit)
    ensures Unreached(MSet(db, Items(wide, v)), last, unit)
  {
    ItemsStore(db, wide, v);
    var db' := MSet(db, Items(wide, v));
    forall k | k in db'.data ensures UnreachedAt(db', k, last, unit) {
      if k != T.KEY {
        assert UnreachedAt(db, k, last, unit);
      }
    }
  }

  lemma AppendedIsPlain(s: Session, wide: bool, n: nat, env: Env, p: Setting)
    requires s.alive && n <= I64_MAX && env.now <= p.last && env.digest == p.digest && ValidSampler(env.draw)
    requires p.unit > 0 && Unreached(s.db, p.last, p.unit)
    ensures PlainRequest(s, Appended(wide, n, env), p.last, p.unit, p.digest)
  {
    AppendedArguments(wide, n);
    AppendedParses(wide, n);
    AppendedStep(s, wide, n, env);
    AppendedIsUnreached(s.db, wide, T.Filler(n), p.last, p.unit);
  }

  // ----- What a replay makes of it -----

  /** A stray command stores no string it does not hold. */
  lemma StrayReaction(db: Db, value: RespValue, env: Env, key: Key, v: Bytes)
    requires value.Array? && BulkString(v) !in value.items && !Holds(db, key, v)
    ensures !Holds(React(db, value, env).db, key, v)
  {
    var r := C.FromResp2(value);
    if r.Parsed? {
      var args := C.Arguments(value).value;
      C.ParsedWellFormed(args);
      forall i | 0 <= i < |args| ensures args[i] != v {
        assert value.items[i] == BulkString(args[i]);
      }
      if Holds(Exec(db, r.value, env).db, key, v) {
        OnlySentStrings(db, r.value, env, key, v);
        C.StoredFromArguments(args, v);
      }
    }
  }

  lemma StrayReplay(m: Rebuild, log: Bytes, clock: nat -> Env, key: Key, v: Bytes)
    requires T.StrayCommand(Decode(log), v) && !Holds(m.db, key, v)
    ensures !Holds(Resumed(SERVER, m, log, clock).db, key, v)
  {
    var d := Decode(log);
    if d.Ok? {
      StrayReaction(m.db, d.value, clock(m.entries), key, v);
      ReplayLast(SERVER, m, d.value, log, d.rest, clock);
    }
  }

  lemma {:induction false} ArgumentsShorter(args: seq<Bytes>, i: nat)
    requires i < |args|
    ensures |args[i]| < |EncodeAll(Bulks(args))|
  {
    EncodeBulks(args);
    if i > 0 {
      ArgumentsShorter(args[1..], i - 1);
    }
  }

  lemma {:induction false} MissingBound(args: seq<Bytes>, k: nat)
    ensures T.Missing(args, k) <= |EncodeAll(Bulks(args))|
  {
    if args != [] {
      EncodeBulks(args);
      var first := |Encode(BulkString(args[0]))|;
      if k >= first {
        MissingBound(args[1..], k - first);
      }
    }
  }

  lemma EntryBounds(args: seq<Bytes>, k: nat, n: nat)
    requires GoodArguments(args) && |Encode(Request(args))| <= n
    ensures T.Shorter(args, T.Filler(n)) && T.MissingOfCommand(args, k) <= n
  {
    forall i | 0 <= i < |args| ensures T.ShorterText(args[i], T.Filler(n)) {
      ArgumentsShorter(args, i);
    }
    if k >= |Header('*', Digits(|args|))| {
      MissingBound(args, k - |Header('*', Digits(|args|))|);
    }
  }

  lemma AppendedIsNext(wide: bool, n: nat) returns (rest: Bytes)
    requires n <= I64_MAX
    ensures T.IsNextEntry(Encode(Request(T.Arguments(wide, n))), T.Count(wide), rest)
  {
    var tail := T.EntryShape(wide, n);
    rest := T.MIDDLE + (Header('$', Digits(n)) + (T.Filler(n) + tail));
    AppendedArguments(wide, n);
    DecodeRequest(T.Arguments(wide, n), []);
    assert Encode(Request(T.Arguments(wide, n))) + [] == Encode(Request(T.Arguments(wide, n)));
  }

  /** For a cut strictly inside an entry some request, appended there, is never read again. */
  lemma TornThenAppended(args: seq<Bytes>, k: nat, n: nat) returns (wide: bool)
    requires GoodArguments(args) && |Encode(Request(args))| <= n <= I64_MAX
    requires 0 < k < |Encode(Request(args))| && !EdgeOfCommand(args, k)
    ensures T.StrayCommand(Decode(Encode(Request(args))[..k] + Encode(Request(T.Arguments(wide, n)))), T.Filler(n))
  {
    var q := T.MissingOfCommand(args, k);
    EntryBounds(args, k, n);
    wide := T.Misalignable(n, q);
    var next := Encode(Request(T.Arguments(wide, n)));
    if q > 0 {
      T.Misaligned(wide, n, q);
    }
    var rest := AppendedIsNext(wide, n);
    T.TornCommandThen(args, k, next, T.Count(wide), rest, T.Filler(n));
  }

  /** A value too long to be part of the torn entry, and not the one stored. */
  lemma FreshValue(db: Db, size: nat) returns (n: nat)
    ensures size <= n <= size + 1 && !Holds(db, T.KEY, T.Filler(n))
  {
    n := size;
    if Holds(db, T.KEY, T.Filler(size)) {
      n := size + 1;
      assert |T.Filler(size)| != |T.Filler(size + 1)|;
    }
  }

  /** What is appended after part of an entry is not found by a restart, if what is read across the tear is stray. */
  lemma AppendIsLost(log: Bytes, m: Rebuild, torn: Bytes, next: Bytes, v: Bytes, clock: nat -> Env)
    requires ReplaysTo(SERVER, log, m, clock) && T.StrayCommand(Decode(torn + next), v) && !Holds(m.db, T.KEY, v)
    ensures !Holds(Restarted(SERVER, log + torn + next, clock).db, T.KEY, v)
  {
    StrayReplay(m, torn + next, clock, T.KEY, v);
    Associate(log, torn, next);
    assert Resumed(SERVER, NOTHING, log + (torn + next), clock) == Resumed(SERVER, m, torn + next, clock);
  }

  lemma StillUnreached(a: Db, b: Db, last: Time, unit: nat)
    requires unit > 0 && Recovered(a, b, unit) && Unreached(a, last, unit)
    ensures Unreached(b, last, unit)
  {
    forall k | k in b.data ensures UnreachedAt(b, k, last, unit) {
      assert SameDeadline(a, b, k, unit) && UnreachedAt(a, k, last, unit);
    }
  }

  lemma NotRebuilt(s: Session, p: Setting, key: Key, v: Bytes)
    requires Holds(s.db, key, v) && !Holds(Restarted(SERVER, s.log, p.clock).db, key, v)
    ensures !Rebuilds(SERVER, s, RuleOf(p))
  {
  }

  /** What the session holds at the key, every restart whose replay of `log` finds the data of `db` does without. */
  ghost predicate Forgotten(end: Session, log: Bytes, db: Db, v: Bytes) {
    && Holds(end.db, T.KEY, v)
    && forall p: Setting, m :: ReplaysTo(SERVER, log, m, p.clock) && m.db.data == db.data ==>
         !Holds(Restarted(SERVER, end.log, p.clock).db, T.KEY, v) && !Rebuilds(SERVER, end, RuleOf(p))
  }

  /** After a tear the server has a next request, an MSET, that every later restart forgets, whatever its clock. */
  lemma ForgetsAppended(log: Bytes, db: Db, args: seq<Bytes>, k: nat, reborn: Session, env: Env, p: Setting)
    returns (next: Turn, wide: bool, n: nat)
    requires p.unit > 0 && GoodArguments(args) && |Encode(Request(args))| < I64_MAX
    requires 0 < k < |Encode(Request(args))| && !EdgeOfCommand(args, k)
    requires reborn.alive && reborn.log == log + Encode(Request(args))[..k] && Unreached(reborn.db, p.last, p.unit)
    requires env.now <= p.last && env.digest == p.digest && ValidSampler(env.draw)
    ensures next == Appended(wide, n, env) && PlainRequest(reborn, next, p.last, p.unit, p.digest)
    ensures Forgotten(Step(SERVER, reborn, next), log, db, T.Filler(n))
  {
    n := FreshValue(db, |Encode(Request(args))|);
    wide := TornThenAppended(args, k, n);
    next := Appended(wide, n, env);
    AppendedIsPlain(reborn, wide, n, env, p);
    AppendedStep(reborn, wide, n, env);
    ItemsStore(reborn.db, wide, T.Filler(n));
    ForgottenAfter(log, db, Step(SERVER, reborn, next), Encode(Request(args))[..k], Encode(Request(T.Arguments(wide, n))), T.Filler(n));
  }

  lemma ForgottenAfter(log: Bytes, db: Db, end: Session, torn: Bytes, next: Bytes, v: Bytes)
    requires T.StrayCommand(Decode(torn + next), v) && !Holds(db, T.KEY, v)
    requires end.log == log + torn + next && Holds(end.db, T.KEY, v)
    ensures Forgotten(end, log, db, v)
  {
    forall p: Setting, m | ReplaysTo(SERVER, log, m, p.clock) && m.db.data == db.data
      ensures !Holds(Restarted(SERVER, end.log, p.clock).db, T.KEY, v) && !Rebuilds(SERVER, end, RuleOf(p))
    {
      AppendIsLost(log, m, torn, next, v, p.clock);
      NotRebuilt(end, p, T.KEY, v);
    }
  }

  lemma EntryArgumentsOf(e: Bytes, k: nat) returns (args: seq<Bytes>)
    requires IsEntry(e) && !CutAtEdge(e, k)
    ensures EncodesAs(e, args) && !EdgeOfCommand(args, k)
  {
    args :| EncodesAs(e, args);
  }

  lemma ServerForgetsAt(s: Session, m: Rebuild, r: Turn, k: nat, reborn: Session, p: Setting) returns (next: Turn)
    requires PlainSetting(p) && InStep(SERVER, s, m, RuleOf(p)) && Unreached(s.db, p.last, p.unit)
    requires CameUpInside(SERVER, s, r, k, reborn) && Alike(s.db, reborn.db, p.unit)
    ensures PlainRequest(reborn, next, p.last, p.unit, p.digest) && !Rebuilds(SERVER, Step(SERVER, reborn, next), RuleOf(p))
  {
    var args := EntryArgumentsOf(EntryOf(SERVER, s, r), k);
    StillUnreached(s.db, reborn.db, p.last, p.unit);
    var wide, n;
    next, wide, n := ForgetsAppended(s.log, s.db, args, k, reborn, p.clock(0), p);
  }

  lemma ServerForgets(p: Setting)
    requires PlainSetting(p)
    ensures Forgets(SERVER, RuleOf(p), PlainOf(p.last, p.unit, p.digest))
  {
    var rule, plain := RuleOf(p), PlainOf(p.last, p.unit, p.digest);
    forall s, m, r, k, reborn |
      InStep(SERVER, s, m, rule) && plain(s, r) && CameUpInside(SERVER, s, r, k, reborn) && rule.same(s.db, reborn.db)
      ensures exists next :: plain(reborn, next) && !Rebuilds(SERVER, Step(SERVER, reborn, next), rule)
    {
      var next := ServerForgetsAt(s, m, r, k, reborn, p);
      assert plain(reborn, next);
    }
  }

  lemma ServerLivesTwice(q: Setting, p: Setting)
    requires PlainSetting(q) && PlainSetting(p) && q == p.(clock := q.clock)
    ensures TwoLives(SERVER, RuleOf(q), RuleOf(p), PlainOf(p.last, p.unit, p.digest))
  {
    ServerIsExact(q);
    ServerIsExact(p);
    ServerPlainIsGood(q);
    ServerPlainIsGood(p);
    FreshInStep(q);
    FreshInStep(p);
    SettingsTransfer(q, p);
  }

  /**
   * Exactly when a server that comes up from a cut log can go on appending to it: when the cut is between two
   * entries. After any other cut there is a next request that a later restart forgets.
   */
  lemma AppendingIsSafe(rs: seq<Turn>, cut: nat, p: Setting, clock: nat -> Env)
    requires PlainSetting(p) && PlainSetting(p.(clock := clock))
    requires PlainRun(SERVER, FRESH, rs, PlainOf(p.last, p.unit, p.digest))
    requires cut <= |Run(SERVER, FRESH, rs).log| < I64_MAX
    requires Restarted(SERVER, Run(SERVER, FRESH, rs).log[..cut], clock).ending == Synced
    ensures SafeToAppend(SERVER, Reborn(SERVER, Run(SERVER, FRESH, rs).log[..cut], clock), RuleOf(p), PlainOf(p.last, p.unit, p.digest))
      <==> IsBoundary(SERVER, rs, cut)
  {
    ServerLivesTwice(p.(clock := clock), p);
    ServerForgets(p);
    SafeExactly(SERVER, rs, cut, RuleOf(p.(clock := clock)), RuleOf(p), PlainOf(p.last, p.unit, p.digest));
  }

  /** A plain run is rebuilt whatever the replay's clock and sampler do. */
  lemma PlainRunKeeps(rs: seq<Turn>, p: Setting)
    requires PlainSetting(p) && PlainRun(SERVER, FRESH, rs, PlainOf(p.last, p.unit, p.digest))
    ensures Keeps(FRESH, rs, NOTHING, p)
  {
    ServerIsExact(p);
    ServerPlainIsGood(p);
    FreshInStep(p);
    PlainRunIsGood(SERVER, FRESH, rs, NOTHING, RuleOf(p), PlainOf(p.last, p.unit, p.digest));
  }
}
