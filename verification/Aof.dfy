/** The append-only log: what the server writes to it for a request, and what a restart rebuilds from it. */
module Aof {
  import opened Bytes
  import opened Decimal
  import opened Resp2
  import opened Resp2Streams
  import opened Database
  import opened Execution
  import opened Recovery
  import opened RecoverySteps
  import opened Journal
  import C = Command
  import L = Lists

  // ----- The server -----

  function PExpireAtEntry(key: Key, deadline: nat): RespValue {
    Request([C.PEXPIREAT, key, DecimalText(deadline)])
  }

  /** The request that stands for a command in the log. */
  function Entry(c: C.Command, v: RespValue, now: Time): RespValue {
    match c
    case Expire(key, seconds) => PExpireAtEntry(key, LoggedDeadline(now, seconds, 1000))
    case PExpire(key, milliseconds) => PExpireAtEntry(key, LoggedDeadline(now, milliseconds, 1))
    case _ => v
  }

  /** Parses a request, executes it, and appends to the log the entry of a write that took effect. */
  ghost function ServeRequest(db: Db, v: RespValue, env: Env): Served {
    match C.FromResp2(v)
    case Rejected(_) => Served(db, [], true)
    case Crash => Served(db, [], false)
    case Parsed(c) =>
      var o := Exec(db, c, env);
      Served(o.db, if Logged(c, o.reply) then Encode(Entry(c, v, env.now)) else [], o.reply != Panics)
  }

  /** A turn of the server; the eviction daemon writes nothing to the log. */
  ghost function Serve(db: Db, r: Turn): Served {
    match r
    case Incoming(v, env) => ServeRequest(db, v, env)
    case Deletion(keys) => Served(Remove(db, keys), [], true)
  }

  /** Parses and executes an entry of the log. */
  ghost function React(db: Db, v: RespValue, env: Env): Reaction {
    match C.FromResp2(v)
    case Rejected(_) => Reaction(db, true)
    case Crash => Reaction(db, false)
    case Parsed(c) =>
      var o := Exec(db, c, env);
      Reaction(o.db, o.reply != Panics)
  }

  ghost const SERVER := Server((db, r) => Serve(db, r), (db, v, env) => React(db, v, env))

  lemma ServerServes(s: Session, r: Turn)
    requires s.alive
    ensures Step(SERVER, s, r) == Session(Serve(s.db, r).db, s.log + Serve(s.db, r).entry, Serve(s.db, r).up)
    ensures EntryOf(SERVER, s, r) == Serve(s.db, r).entry && SERVER.serve(s.db, r) == Serve(s.db, r)
  {
  }

  /** The turn is a request for `c`. */
  ghost predicate Asks(r: Turn, c: C.Command) {
    r.Incoming? && C.FromResp2(r.value) == C.Parsed(c)
  }

  ghost predicate AsksNothing(r: Turn) {
    r.Incoming? && !C.FromResp2(r.value).Parsed?
  }

  lemma ServesParsed(db: Db, r: Turn, c: C.Command)
    requires Asks(r, c)
    ensures var o := Exec(db, c, r.env);
      && Serve(db, r).db == o.db
      && (if Logged(c, o.reply)
          then Serve(db, r) == Served(o.db, Encode(Entry(c, r.value, r.env.now)), true)
          else Serve(db, r).entry == [])
  {
  }

  lemma ServesOther(db: Db, r: Turn)
    requires AsksNothing(r)
    ensures Serve(db, r).db == db && Serve(db, r).entry == []
  {
  }

  lemma ServerReacts(db: Db, v: RespValue, c: C.Command, env: Env)
    requires C.FromResp2(v) == C.Parsed(c)
    ensures SERVER.react(db, v, env) == Reaction(Exec(db, c, env).db, Exec(db, c, env).reply != Panics)
  {
  }

  // ----- Log entries -----

  lemma {:induction false} DigitsShort(n: nat)
    ensures |Digits(n)| <= 1 + n / 10
  {
    if n >= 10 {
      DigitsShort(n / 10);
    }
  }

  lemma ArgumentsOfRequest(args: seq<Bytes>)
    ensures C.Arguments(Request(args)) == Some(args)
  {
    var got := C.Arguments(Request(args)).value;
    forall i | 0 <= i < |args| ensures got[i] == args[i] {
      assert Request(args).items[i] == BulkString(args[i]);
    }
    assert got == args;
  }

  /** A parsed request is the request of its own arguments. */
  lemma RequestOfArguments(v: RespValue)
    requires WellTyped(v) && C.FromResp2(v).Parsed?
    ensures var args := C.Arguments(v).value;
      GoodArguments(args) && v == Request(args) && C.FromResp2(v) == C.ParseArguments(args)
  {
    var args := C.Arguments(v).value;
    assert v.items == Bulks(args);
    forall i | 0 <= i < |args| ensures Utf8(args[i]) && |args[i]| <= I64_MAX {
      assert WellTyped(v.items[i]) && v.items[i] == BulkString(args[i]);
    }
  }

  lemma NumberIsUtf8(n: nat)
    requires n <= U64_MAX
    ensures Utf8(DecimalText(n)) && |DecimalText(n)| <= I64_MAX
  {
    TextIsPlain(n);
    AsciiIsUtf8(DecimalText(n));
    DigitsShort(n);
  }

  lemma ThreeArguments(a: Bytes, b: Bytes, c: Bytes)
    requires Utf8(a) && Utf8(b) && Utf8(c)
    requires |a| <= I64_MAX && |b| <= I64_MAX && |c| <= I64_MAX
    ensures GoodArguments([a, b, c])
  {
  }

  lemma RequestParses(args: seq<Bytes>)
    requires args != []
    ensures C.FromResp2(Request(args)) == C.ParseArguments(args)
  {
    ArgumentsOfRequest(args);
  }

  lemma RewrittenEntry(key: Key, deadline: nat) returns (args: seq<Bytes>)
    requires Utf8(key) && |key| <= I64_MAX && deadline <= U64_MAX
    ensures GoodArguments(args) && PExpireAtEntry(key, deadline) == Request(args)
    ensures C.FromResp2(Request(args)) == C.Parsed(C.PExpireAt(key, deadline))
  {
    args := [C.PEXPIREAT, key, DecimalText(deadline)];
    C.NameIsUtf8();
    NumberIsUtf8(deadline);
    ThreeArguments(C.PEXPIREAT, key, DecimalText(deadline));
    C.ParsePExpireAt(key, deadline);
    RequestParses(args);
  }

  /** The key of a relative deadline is a string the client sent. */
  lemma RelativeKey(v: RespValue, key: Key, c: C.Command)
    requires WellTyped(v) && C.FromResp2(v) == C.Parsed(c)
    requires (c.Expire? && c == C.Expire(key, c.seconds)) || (c.PExpire? && c == C.PExpire(key, c.milliseconds))
    ensures Utf8(key) && |key| <= I64_MAX
  {
    RequestOfArguments(v);
    var args := C.Arguments(v).value;
    C.ParsedWellFormed(args);
    assert key == args[1];
  }

  /** Whatever is appended is one whole request, and it parses to the command the log stands for. */
  lemma EntryArguments(v: RespValue, c: C.Command, now: Time) returns (args: seq<Bytes>)
    requires WellTyped(v) && C.FromResp2(v) == C.Parsed(c)
    ensures GoodArguments(args) && Entry(c, v, now) == Request(args)
    ensures C.FromResp2(Entry(c, v, now)) == C.Parsed(LoggedCommand(c, now))
  {
    if c.Expire? {
      var Expire(key, seconds) := c;
      RelativeKey(v, key, c);
      args := RewrittenEntry(key, LoggedDeadline(now, seconds, 1000));
    } else if c.PExpire? {
      var PExpire(key, milliseconds) := c;
      RelativeKey(v, key, c);
      args := RewrittenEntry(key, LoggedDeadline(now, milliseconds, 1));
    } else {
      RequestOfArguments(v);
      args := C.Arguments(v).value;
    }
  }

  lemma EntryEncodes(v: RespValue, c: C.Command, now: Time) returns (args: seq<Bytes>)
    requires WellTyped(v) && C.FromResp2(v) == C.Parsed(c)
    ensures EncodesAs(Encode(Entry(c, v, now)), args) && C.FromResp2(Request(args)) == C.Parsed(LoggedCommand(c, now))
  {
    args := EntryArguments(v, c, now);
  }

  lemma RequestReacts(m: Rebuild, e: Bytes, args: seq<Bytes>, c: C.Command, clock: nat -> Env)
    requires EncodesAs(e, args) && C.FromResp2(Request(args)) == C.Parsed(c)
    ensures var o := Exec(m.db, c, clock(m.entries));
      && IsEntry(e) && ReplayOne(SERVER, m, e, clock) == Rebuild(o.db, m.entries + 1)
      && (GoesOn(SERVER, m, e, clock) <==> o.reply != Panics)
  {
    OneReplayed(SERVER, m, e, args, clock);
    ServerReacts(m.db, Request(args), c, clock(m.entries));
  }

  /** Replaying the entry of a command executes the command it stands for. */
  lemma EntryReacts(v: RespValue, c: C.Command, now: Time, m: Rebuild, clock: nat -> Env)
    requires WellTyped(v) && C.FromResp2(v) == C.Parsed(c)
    ensures var e, o := Encode(Entry(c, v, now)), Exec(m.db, LoggedCommand(c, now), clock(m.entries));
      && IsEntry(e) && ReplayOne(SERVER, m, e, clock) == Rebuild(o.db, m.entries + 1)
      && (GoesOn(SERVER, m, e, clock) <==> o.reply != Panics)
  {
    var args := EntryEncodes(v, c, now);
    RequestReacts(m, Encode(Entry(c, v, now)), args, LoggedCommand(c, now), clock);
  }

  lemma ParsedIsWellFormed(v: RespValue, c: C.Command)
    requires WellTyped(v) && C.FromResp2(v) == C.Parsed(c)
    ensures C.WellFormed(c)
  {
    RequestOfArguments(v);
    C.ParsedWellFormed(C.Arguments(v).value);
  }

  // ----- Runs -----

  /** How a replay is judged: the clock it reads, the latest time considered, and the unit deadlines are compared in. */
  datatype Setting = Setting(clock: nat -> Env, last: Time, unit: nat, digest: Bytes -> int)

  ghost predicate ValidSetting(p: Setting) {
    IsUnit(p.unit) && forall i :: p.clock(i).now <= p.last && p.clock(i).digest == p.digest
  }

  /** The same data, and for every stored key the same deadline, to the unit. */
  ghost predicate Alike(a: Db, b: Db, unit: nat) {
    unit > 0 && Recovered(a, b, unit)
  }

  /** A request that comes off the wire, no later than `last`; or a deletion. */
  ghost predicate InTime(r: Turn, last: Time, digest: Bytes -> int) {
    r.Incoming? ==> WellTyped(r.value) && r.env.now <= last && r.env.digest == digest
  }

  /** No deadline is reached by `last`, and no request is later. */
  ghost predicate Timely(s: Session, r: Turn, last: Time, unit: nat, digest: Bytes -> int) {
    && unit > 0 && InTime(r, last, digest)
    && Unreached(s.db, last, unit) && Unreached(Step(SERVER, s, r).db, last, unit)
  }

  /**
   * The log keeps up with the turn: see `Replays` for a request that is logged and `Loses` for one that is not;
   * a deletion finds nothing to delete.
   */
  ghost predicate Faithful(db: Db, r: Turn, b: Db, env': Env, unit: nat) {
    && unit > 0 && (r.Deletion? ==> r.keys !! db.data.Keys)
    && forall c :: Asks(r, c) ==>
      if Logged(c, Exec(db, c, r.env).reply) then Replays(db, b, c, r.env, env', unit) else !Loses(db, c, r.env)
  }

  ghost function RuleOf(p: Setting): Rule {
    Rule(p.clock,
         (a, b) => Alike(a, b, p.unit),
         (s, r) => Timely(s, r, p.last, p.unit, p.digest),
         (s: Session, r, m: Rebuild) => s.alive ==> Faithful(s.db, r, m.db, p.clock(m.entries), p.unit))
  }

  lemma FaithfulRequest(db: Db, r: Turn, c: C.Command, b: Db, env': Env, unit: nat)
    requires unit > 0 && Asks(r, c)
    ensures Faithful(db, r, b, env', unit) <==>
      if Logged(c, Exec(db, c, r.env).reply) then Replays(db, b, c, r.env, env', unit) else !Loses(db, c, r.env)
  {
  }

  lemma LoggedExact(s: Session, r: Turn, m: Rebuild, c: C.Command, p: Setting)
    requires ValidSetting(p) && InStep(SERVER, s, m, RuleOf(p)) && Timely(s, r, p.last, p.unit, p.digest)
    requires s.alive && Asks(r, c) && Logged(c, Exec(s.db, c, r.env).reply)
    ensures ExactAt(SERVER, s, r, m, RuleOf(p))
  {
    var env', o := p.clock(m.entries), Exec(s.db, c, r.env);
    assert env'.now <= p.last;
    ServerServes(s, r);
    ServesParsed(s.db, r, c);
    ParsedIsWellFormed(r.value, c);
    LoggedStep(s.db, m.db, c, r.env, env', p.last, p.unit);
    EntryReacts(r.value, c, r.env.now, m, p.clock);
    FaithfulRequest(s.db, r, c, m.db, env', p.unit);
    var o' := Rebuild(Exec(m.db, LoggedCommand(c, r.env.now), env').db, m.entries + 1);
    ExactWhenLogged(SERVER, s, r, m, RuleOf(p), Served(o.db, Encode(Entry(c, r.value, r.env.now)), true), o',
                    Replays(s.db, m.db, c, r.env, env', p.unit));
  }

  lemma UnloggedExact(s: Session, r: Turn, m: Rebuild, c: C.Command, p: Setting)
    requires ValidSetting(p) && InStep(SERVER, s, m, RuleOf(p)) && s.alive
    requires Asks(r, c) && WellTyped(r.value) && !Logged(c, Exec(s.db, c, r.env).reply)
    ensures ExactAt(SERVER, s, r, m, RuleOf(p))
  {
    ParsedIsWellFormed(r.value, c);
    ServerServes(s, r);
    ServesParsed(s.db, r, c);
    UnloggedStep(s.db, m.db, c, r.env, p.unit);
    FaithfulRequest(s.db, r, c, m.db, p.clock(m.entries), p.unit);
    ExactWhenUnlogged(SERVER, s, r, m, RuleOf(p), Exec(s.db, c, r.env).db, !Loses(s.db, c, r.env));
  }

  lemma DeletionExact(s: Session, r: Turn, m: Rebuild, p: Setting)
    requires ValidSetting(p) && InStep(SERVER, s, m, RuleOf(p)) && s.alive && r.Deletion?
    ensures ExactAt(SERVER, s, r, m, RuleOf(p))
  {
    ServerServes(s, r);
    DeletionStep(s.db, m.db, r.keys, p.unit);
    ExactWhenUnlogged(SERVER, s, r, m, RuleOf(p), Remove(s.db, r.keys), r.keys !! s.db.data.Keys);
  }

  /** One turn keeps the store and what the log rebuilds in step exactly when it is faithful. */
  lemma StepExact(s: Session, r: Turn, m: Rebuild, p: Setting)
    requires ValidSetting(p) && InStep(SERVER, s, m, RuleOf(p)) && Timely(s, r, p.last, p.unit, p.digest)
    ensures ExactAt(SERVER, s, r, m, RuleOf(p))
  {
    if s.alive && r.Deletion? {
      DeletionExact(s, r, m, p);
    } else if s.alive && C.FromResp2(r.value).Parsed? {
      var c := C.FromResp2(r.value).value;
      if Logged(c, Exec(s.db, c, r.env).reply) {
        LoggedExact(s, r, m, c, p);
      } else {
        UnloggedExact(s, r, m, c, p);
      }
    } else {
      if s.alive {
        ServerServes(s, r);
        ServesOther(s.db, r);
      }
      ExactWhenSilent(SERVER, s, r, m, RuleOf(p));
    }
  }

  /** The log is as good as the theory of journals asks. */
  lemma ServerIsExact(p: Setting)
    requires ValidSetting(p)
    ensures Exact(SERVER, RuleOf(p))
  {
    forall s, r, m | InStep(SERVER, s, m, RuleOf(p)) && RuleOf(p).fair(s, r) ensures ExactAt(SERVER, s, r, m, RuleOf(p)) {
      StepExact(s, r, m, p);
    }
  }

  lemma FreshInStep(p: Setting)
    requires p.unit > 0
    ensures InStep(SERVER, FRESH, NOTHING, RuleOf(p))
  {
    FreshReplays(SERVER, p.clock);
  }

  /** A run without late requests or reached deadlines whose every request is faithful. */
  ghost predicate Keeps(s: Session, rs: seq<Turn>, m: Rebuild, p: Setting) {
    FairRun(SERVER, s, rs, RuleOf(p)) && GoodRun(SERVER, s, rs, m, RuleOf(p))
  }

  /** Replay equals the run: the whole log is read, and rebuilds the data and, to the unit, the deadline of every stored key. */
  lemma ReplayEqualsRun(rs: seq<Turn>, p: Setting)
    requires ValidSetting(p) && Keeps(FRESH, rs, NOTHING, p)
    ensures var s, restart := Run(SERVER, FRESH, rs), Restarted(SERVER, Run(SERVER, FRESH, rs).log, p.clock);
      restart.ending == Synced && Recovered(s.db, restart.db, p.unit)
  {
    ServerIsExact(p);
    FreshInStep(p);
    RunRecovers(SERVER, FRESH, rs, NOTHING, RuleOf(p));
    InStepRebuilds(SERVER, Run(SERVER, FRESH, rs), Rebuilding(SERVER, FRESH, rs, NOTHING, p.clock), RuleOf(p));
  }

  /** And the log rebuilds the store at every moment of a timely run exactly when every request is faithful. */
  lemma FaithfulExactly(rs: seq<Turn>, p: Setting)
    requires ValidSetting(p) && FairRun(SERVER, FRESH, rs, RuleOf(p))
    ensures AlwaysRebuilds(SERVER, FRESH, rs, RuleOf(p)) <==> GoodRun(SERVER, FRESH, rs, NOTHING, RuleOf(p))
  {
    ServerIsExact(p);
    FreshInStep(p);
    GoodExactly(SERVER, FRESH, rs, NOTHING, RuleOf(p));
  }

  /** Crash consistency: the log cut at any byte rebuilds the state after a prefix of the run. */
  lemma CrashConsistency(rs: seq<Turn>, cut: nat, p: Setting) returns (j: nat)
    requires ValidSetting(p) && Keeps(FRESH, rs, NOTHING, p) && cut <= |Run(SERVER, FRESH, rs).log|
    ensures FoundAfter(SERVER, FRESH, rs, cut, j, RuleOf(p))
  {
    ServerIsExact(p);
    FreshInStep(p);
    j := CrashFinds(SERVER, FRESH, rs, NOTHING, cut, RuleOf(p));
  }

  lemma SettingsTransfer(q: Setting, p: Setting)
    requires q.unit == p.unit
    ensures Transfers(RuleOf(q), RuleOf(p))
  {
    forall a, b, c | RuleOf(q).same(a, b) && RuleOf(p).same(a, c) ensures RuleOf(p).same(b, c) {
      RecoveredChain(a, b, c, p.unit);
    }
  }

  /** A second life: restart from the log, serve on, and the one log still rebuilds everything. */
  lemma RestartKeeps(rs: seq<Turn>, more: seq<Turn>, p: Setting, clock: nat -> Env)
    requires ValidSetting(p) && ValidSetting(p.(clock := clock))
    requires Keeps(FRESH, rs, NOTHING, p) && Keeps(FRESH, rs, NOTHING, p.(clock := clock))
    requires Keeps(Reborn(SERVER, Run(SERVER, FRESH, rs).log, clock), more, Rebuilding(SERVER, FRESH, rs, NOTHING, p.clock), p)
    ensures var end := Run(SERVER, Reborn(SERVER, Run(SERVER, FRESH, rs).log, clock), more);
      Alike(end.db, Restarted(SERVER, end.log, p.clock).db, p.unit)
  {
    var q := p.(clock := clock);
    ServerIsExact(p);
    ServerIsExact(q);
    FreshInStep(p);
    FreshInStep(q);
    SettingsTransfer(q, p);
    RestartRecovers(SERVER, rs, more, RuleOf(q), RuleOf(p));
  }

  // ----- Invariants of every run -----

  lemma ServeNoEmptyList(db: Db, r: Turn)
    requires L.NoEmptyList(db)
    ensures L.NoEmptyList(Serve(db, r).db)
  {
    if r.Incoming? {
      var c := C.FromResp2(r.value);
      if c.Parsed? {
        C.ParsedWellFormed(C.Arguments(r.value).value);
        L.StepNoEmptyList(db, c.value, r.env);
        ServesParsed(db, r, c.value);
      } else {
        ServesOther(db, r);
      }
    }
  }

  /** No request a client can send, well formed or not, and no eviction makes the server store an empty list. */
  lemma {:induction false} RunNoEmptyList(rs: seq<Turn>)
    ensures L.NoEmptyList(Run(SERVER, FRESH, rs).db)
  {
    if rs != [] {
      var n := |rs| - 1;
      RunNoEmptyList(rs[..n]);
      var before := Run(SERVER, FRESH, rs[..n]);
      if before.alive {
        ServerServes(before, rs[n]);
        ServeNoEmptyList(before.db, rs[n]);
      }
    }
  }
}
