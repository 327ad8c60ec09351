/**
 * A server that keeps a journal, and a restart that replays it, for any way of serving and replaying one turn.
 *
 * What the server of this project does in a turn is in `Aof`; here is what follows for whole runs.
 */
module Journal {
  import opened Bytes
  import opened Decimal
  import opened Resp2
  import opened Resp2Streams
  import opened Database
  import opened Execution

  // ----- Serving -----

  /**
   * What may happen next: a decoded request, with the environment its command runs in, or the eviction daemon
   * deleting the keys it has sampled.
   */
  datatype Turn = Incoming(value: RespValue, env: Env) | Deletion(keys: set<Key>)

  /** The store, the log on disk, and whether the handler still runs. */
  datatype Session = Session(db: Db, log: Bytes, alive: bool)

  /** The store after a turn, the bytes appended to the log for it, and whether the handler goes on. */
  datatype Served = Served(db: Db, entry: Bytes, up: bool)

  /** The store after a replayed entry, and whether the replay goes on. */
  datatype Reaction = Reaction(db: Db, up: bool)

  datatype Server = Server(serve: (Db, Turn) -> Served, react: (Db, RespValue, Env) -> Reaction)

  const FRESH := Session(EMPTY, [], true)

  /** One turn of the server. */
  ghost function Step(v: Server, s: Session, r: Turn): Session {
    if !s.alive then s
    else
      var o := v.serve(s.db, r);
      Session(o.db, s.log + o.entry, o.up)
  }

  ghost function Run(v: Server, s: Session, rs: seq<Turn>): Session {
    if rs == [] then s else Step(v, Run(v, s, rs[..|rs| - 1]), rs[|rs| - 1])
  }

  lemma LogGrows(v: Server, s: Session, r: Turn)
    ensures s.log <= Step(v, s, r).log
  {
  }

  lemma {:induction false} PrefixOfLog(v: Server, s: Session, rs: seq<Turn>, j: nat)
    requires j <= |rs|
    ensures Run(v, s, rs[..j]).log <= Run(v, s, rs).log
    decreases |rs|
  {
    if j == |rs| {
      assert rs[..j] == rs;
    } else {
      var shorter := rs[..|rs| - 1];
      PrefixOfLog(v, s, shorter, j);
      assert shorter[..j] == rs[..j];
      LogGrows(v, Run(v, s, shorter), rs[|rs| - 1]);
    }
  }

  lemma {:induction false} RunCons(v: Server, s: Session, r: Turn, rs: seq<Turn>)
    ensures Run(v, s, [r] + rs) == Run(v, Step(v, s, r), rs)
  {
    var all := [r] + rs;
    if rs == [] {
      assert all == [r] && all[..0] == [];
      assert Run(v, s, all[..0]) == s;
    } else {
      var n := |rs| - 1;
      assert all[..|all| - 1] == [r] + rs[..n];
      RunCons(v, s, r, rs[..n]);
    }
  }

  lemma RunOne(v: Server, s: Session, r: Turn)
    ensures Run(v, s, [r]) == Step(v, s, r)
  {
    var none: seq<Turn> := [];
    assert [r][..0] == none;
    assert Run(v, s, none) == s;
  }

  lemma RunThree(v: Server, s: Session, a: Turn, b: Turn, c: Turn)
    ensures Run(v, s, [a, b, c]) == Step(v, Step(v, Step(v, s, a), b), c)
  {
    assert [a, b, c] == [a] + ([b] + [c]);
    RunCons(v, s, a, [b] + [c]);
    RunCons(v, Step(v, s, a), b, [c]);
    RunOne(v, Step(v, Step(v, s, a), b), c);
  }

  lemma {:induction false} DeadRun(v: Server, s: Session, rs: seq<Turn>)
    requires !s.alive
    ensures Run(v, s, rs) == s
  {
    if rs != [] {
      DeadRun(v, s, rs[..|rs| - 1]);
    }
  }

  /** The requests a stream holds up to its end or its first malformed one; request `i` reads `clock(i)`. */
  ghost function Requests(stream: Bytes, clock: nat -> Env, i: nat): seq<Turn>
    decreases |stream|
  {
    match Decode(stream)
    case Ok(x, rest) => [Incoming(x, clock(i))] + Requests(rest, clock, i + 1)
    case Err(_) => []
    case Panic => []
  }

  /** The handler loop: requests are served as they are decoded, until the stream ends or the handler goes down. */
  ghost function Serving(v: Server, s: Session, stream: Bytes, clock: nat -> Env, i: nat): Session
    decreases |stream|
  {
    match Decode(stream)
    case Err(_) => s
    case Panic => s
    case Ok(x, rest) =>
      var next := Step(v, s, Incoming(x, clock(i)));
      if next.alive then Serving(v, next, rest, clock, i + 1) else next
  }

  /** Every request that comes off the wire is well typed, as the replay theorems ask. */
  lemma {:induction false} RequestsWellTyped(stream: Bytes, clock: nat -> Env, i: nat, k: nat)
    requires k < |Requests(stream, clock, i)|
    ensures Requests(stream, clock, i)[k].Incoming? && WellTyped(Requests(stream, clock, i)[k].value)
    decreases |stream|
  {
    DecodeWellTyped(stream);
    if k > 0 {
      RequestsWellTyped(Decode(stream).rest, clock, i + 1, k - 1);
    }
  }

  /** Serving a stream is the run of the requests it holds. */
  lemma {:induction false} ServingIsRun(v: Server, s: Session, stream: Bytes, clock: nat -> Env, i: nat)
    ensures Serving(v, s, stream, clock, i) == Run(v, s, Requests(stream, clock, i))
    decreases |stream|
  {
    match Decode(stream)
    case Ok(x, rest) =>
      var r := Incoming(x, clock(i));
      var next := Step(v, s, r);
      RunCons(v, s, r, Requests(rest, clock, i + 1));
      if next.alive {
        ServingIsRun(v, next, rest, clock, i + 1);
      } else {
        DeadRun(v, next, Requests(rest, clock, i + 1));
      }
    case _ =>
  }

  // ----- Restarting -----

  /** How a replay ends: at the end of the log, with an error that keeps the server from starting, or in a panic. */
  datatype Ending = Synced | Failed(error: RespError) | Panicked

  datatype Restart = Restart(db: Db, ending: Ending)

  /** A log that ends inside an entry counts as having ended. */
  function EndingOf(e: RespError): Ending {
    if e == UnexpectedEof then Synced else Failed(e)
  }

  /** Decodes and replays entry after entry, stopping at the first that does not decode; entry `i` reads `clock(i)`. */
  ghost function Replay(v: Server, db: Db, log: Bytes, clock: nat -> Env, i: nat): Restart
    decreases |log|
  {
    match Decode(log)
    case Err(e) => Restart(db, EndingOf(e))
    case Panic => Restart(db, Panicked)
    case Ok(x, rest) =>
      var r := v.react(db, x, clock(i));
      if r.up then Replay(v, r.db, rest, clock, i + 1) else Restart(r.db, Panicked)
  }

  /** What a replay has rebuilt after some number of entries. */
  datatype Rebuild = Rebuild(db: Db, entries: nat)

  const NOTHING := Rebuild(EMPTY, 0)

  ghost function Resumed(v: Server, m: Rebuild, log: Bytes, clock: nat -> Env): Restart {
    Replay(v, m.db, log, clock, m.entries)
  }

  /** What a restart from `log` finds. */
  ghost function Restarted(v: Server, log: Bytes, clock: nat -> Env): Restart {
    Resumed(v, NOTHING, log, clock)
  }

  /** Replaying `entry` takes the replay from `m` to `m'`, whatever follows. */
  ghost predicate Advances(v: Server, entry: Bytes, m: Rebuild, m': Rebuild, clock: nat -> Env) {
    forall rest {:trigger entry + rest} :: Resumed(v, m, entry + rest, clock) == Resumed(v, m', rest, clock)
  }

  /** Replaying `log` and more is replaying the rest from what `m` has rebuilt. */
  ghost predicate ReplaysTo(v: Server, log: Bytes, m: Rebuild, clock: nat -> Env) {
    Advances(v, log, NOTHING, m, clock)
  }

  lemma FreshReplays(v: Server, clock: nat -> Env)
    ensures ReplaysTo(v, [], NOTHING, clock)
  {
    forall rest: Bytes ensures Resumed(v, NOTHING, [] + rest, clock) == Resumed(v, NOTHING, rest, clock) {
      assert [] + rest == rest;
    }
  }

  lemma ReplayExtends(v: Server, log: Bytes, entry: Bytes, m: Rebuild, m': Rebuild, clock: nat -> Env)
    requires ReplaysTo(v, log, m, clock) && Advances(v, entry, m, m', clock)
    ensures ReplaysTo(v, log + entry, m', clock)
  {
    forall rest ensures Resumed(v, NOTHING, log + entry + rest, clock) == Resumed(v, m', rest, clock) {
      Associate(log, entry, rest);
      assert Resumed(v, NOTHING, log + (entry + rest), clock) == Resumed(v, m, entry + rest, clock);
    }
  }

  lemma ReplayEnds(v: Server, m: Rebuild, log: Bytes, clock: nat -> Env)
    requires Decode(log).Err?
    ensures Resumed(v, m, log, clock) == Restart(m.db, EndingOf(Decode(log).error))
  {
  }

  lemma WholeLog(v: Server, log: Bytes, m: Rebuild, clock: nat -> Env)
    requires ReplaysTo(v, log, m, clock)
    ensures Restarted(v, log, clock) == Restart(m.db, Synced)
  {
    assert log + [] == log;
    assert Resumed(v, NOTHING, log + [], clock) == Resumed(v, m, [], clock);
    assert Decode([]) == Err(UnexpectedEof);
    ReplayEnds(v, m, [], clock);
  }

  // ----- Entries -----

  ghost predicate GoodArguments(args: seq<Bytes>) {
    && args != [] && |args| <= I64_MAX
    && forall i :: 0 <= i < |args| ==> Utf8(args[i]) && |args[i]| <= I64_MAX
  }

  ghost predicate EncodesAs(e: Bytes, args: seq<Bytes>) {
    GoodArguments(args) && e == Encode(Request(args))
  }

  /** An entry is one whole request. */
  ghost predicate IsEntry(e: Bytes) {
    exists args :: EncodesAs(e, args)
  }

  /** The cut is right after the prefix of one of the entry's lengths, or between its CR and LF. */
  ghost predicate CutAtEdge(e: Bytes, k: nat) {
    exists args :: EncodesAs(e, args) && EdgeOfCommand(args, k)
  }

  lemma DecodeRequest(args: seq<Bytes>, rest: Bytes)
    requires GoodArguments(args)
    ensures Decode(Encode(Request(args)) + rest) == Ok(Request(args), rest)
  {
    var items := Bulks(args);
    forall i | 0 <= i < |items| ensures WellTyped(items[i]) && OneLiners(items[i]) {
      assert items[i] == BulkString(args[i]);
    }
    DecodeEncode(Request(args), rest);
  }

  lemma DecodeEntry(e: Bytes, args: seq<Bytes>)
    requires EncodesAs(e, args)
    ensures Decode(e) == Ok(Request(args), [])
  {
    DecodeRequest(args, []);
    assert e + [] == e;
  }

  lemma SameArguments(e: Bytes, args: seq<Bytes>, args': seq<Bytes>)
    requires EncodesAs(e, args) && EncodesAs(e, args')
    ensures args == args'
  {
    DecodeEntry(e, args);
    DecodeEntry(e, args');
    assert Bulks(args) == Bulks(args');
    forall i | 0 <= i < |args| ensures args[i] == args'[i] {
      assert Bulks(args)[i] == BulkString(args[i]) && Bulks(args')[i] == BulkString(args'[i]);
    }
  }

  lemma EdgeOf(e: Bytes, args: seq<Bytes>, k: nat)
    requires EncodesAs(e, args)
    ensures CutAtEdge(e, k) <==> EdgeOfCommand(args, k)
  {
    if CutAtEdge(e, k) {
      var args' :| EncodesAs(e, args') && EdgeOfCommand(args', k);
      SameArguments(e, args, args');
    }
  }

  /** A torn entry does not decode; the error is fatal exactly at an edge of a length. */
  lemma TornEntry(e: Bytes, k: nat)
    requires IsEntry(e) && k < |e|
    ensures Decode(e[..k]) == Err(TornError(CutAtEdge(e, k)))
  {
    var args :| EncodesAs(e, args);
    EdgeOf(e, args, k);
    TornCommand(args, k);
  }

  /** The replay of one whole entry. */
  ghost function ReplayOne(v: Server, m: Rebuild, e: Bytes, clock: nat -> Env): Rebuild {
    match Decode(e)
    case Ok(x, _) => Rebuild(v.react(m.db, x, clock(m.entries)).db, m.entries + 1)
    case _ => m
  }

  ghost predicate GoesOn(v: Server, m: Rebuild, e: Bytes, clock: nat -> Env) {
    Decode(e).Ok? && v.react(m.db, Decode(e).value, clock(m.entries)).up
  }

  /** An entry, and nothing readable after it. */
  lemma ReplayLast(v: Server, m: Rebuild, x: RespValue, log: Bytes, rest: Bytes, clock: nat -> Env)
    requires Decode(log) == Ok(x, rest) && Decode(rest).Err?
    ensures Resumed(v, m, log, clock).db == v.react(m.db, x, clock(m.entries)).db
  {
    ReplayEnds(v, Rebuild(v.react(m.db, x, clock(m.entries)).db, m.entries + 1), rest, clock);
  }

  lemma RestartFrom(v: Server, x: RespValue, log: Bytes, rest: Bytes, clock: nat -> Env, db: Db)
    requires Decode(log) == Ok(x, rest) && Decode(rest).Err? && v.react(EMPTY, x, clock(0)).db == db
    ensures Restarted(v, log, clock).db == db
  {
    ReplayLast(v, NOTHING, x, log, rest, clock);
  }

  lemma OneReplayed(v: Server, m: Rebuild, e: Bytes, args: seq<Bytes>, clock: nat -> Env)
    requires EncodesAs(e, args)
    ensures var reaction := v.react(m.db, Request(args), clock(m.entries));
      && ReplayOne(v, m, e, clock) == Rebuild(reaction.db, m.entries + 1)
      && (GoesOn(v, m, e, clock) <==> reaction.up)
  {
    DecodeEntry(e, args);
  }

  lemma ReplayFirst(v: Server, m: Rebuild, x: RespValue, log: Bytes, rest: Bytes, clock: nat -> Env)
    requires Decode(log) == Ok(x, rest) && v.react(m.db, x, clock(m.entries)).up
    ensures Resumed(v, m, log, clock) ==
      Resumed(v, Rebuild(v.react(m.db, x, clock(m.entries)).db, m.entries + 1), rest, clock)
  {
  }

  /** Replaying a whole entry executes it and goes on with what follows. */
  lemma EntryReplays(v: Server, m: Rebuild, e: Bytes, args: seq<Bytes>, rest: Bytes, clock: nat -> Env)
    requires EncodesAs(e, args) && GoesOn(v, m, e, clock)
    ensures Resumed(v, m, e + rest, clock) == Resumed(v, ReplayOne(v, m, e, clock), rest, clock)
  {
    OneReplayed(v, m, e, args, clock);
    DecodeRequest(args, rest);
    ReplayFirst(v, m, Request(args), e + rest, rest, clock);
  }

  lemma EntryAdvances(v: Server, m: Rebuild, e: Bytes, clock: nat -> Env)
    requires IsEntry(e) && GoesOn(v, m, e, clock)
    ensures Advances(v, e, m, ReplayOne(v, m, e, clock), clock)
  {
    var args :| EncodesAs(e, args);
    var m' := ReplayOne(v, m, e, clock);
    forall rest ensures Resumed(v, m, e + rest, clock) == Resumed(v, m', rest, clock) {
      EntryReplays(v, m, e, args, rest, clock);
    }
  }

  // ----- Runs and their replays -----

  /** The bytes a request appends. */
  ghost function EntryOf(v: Server, s: Session, r: Turn): Bytes {
    if s.alive then v.serve(s.db, r).entry else []
  }

  ghost predicate Proper(v: Server, s: Session, r: Turn) {
    EntryOf(v, s, r) == [] || IsEntry(EntryOf(v, s, r))
  }

  lemma StepLog(v: Server, s: Session, r: Turn)
    ensures Step(v, s, r).log == s.log + EntryOf(v, s, r)
  {
    assert s.log + [] == s.log;
  }

  /** What is rebuilt once the entry of a request is replayed. */
  ghost function RebuildStep(v: Server, s: Session, r: Turn, m: Rebuild, clock: nat -> Env): Rebuild {
    if EntryOf(v, s, r) == [] then m else ReplayOne(v, m, EntryOf(v, s, r), clock)
  }

  ghost function Rebuilding(v: Server, s: Session, rs: seq<Turn>, m: Rebuild, clock: nat -> Env): Rebuild {
    if rs == [] then m
    else
      var n := |rs| - 1;
      RebuildStep(v, Run(v, s, rs[..n]), rs[n], Rebuilding(v, s, rs[..n], m, clock), clock)
  }

  lemma StepReplays(v: Server, s: Session, r: Turn, m: Rebuild, clock: nat -> Env)
    requires ReplaysTo(v, s.log, m, clock) && Proper(v, s, r)
    requires EntryOf(v, s, r) == [] || GoesOn(v, m, EntryOf(v, s, r), clock)
    ensures ReplaysTo(v, Step(v, s, r).log, RebuildStep(v, s, r, m, clock), clock)
  {
    var e := EntryOf(v, s, r);
    StepLog(v, s, r);
    if e == [] {
      assert s.log + e == s.log;
    } else {
      EntryAdvances(v, m, e, clock);
      ReplayExtends(v, s.log, e, m, ReplayOne(v, m, e, clock), clock);
    }
  }

  /**
   * How a replay is judged: the clock it reads, when what it rebuilds counts as the same, which requests are
   * considered at all, and which of them the log keeps up with.
   */
  datatype Rule = Rule(clock: nat -> Env, same: (Db, Db) -> bool, fair: (Session, Turn) -> bool,
                       good: (Session, Turn, Rebuild) -> bool)

  /** The log rebuilds the store of the session. */
  ghost predicate InStep(v: Server, s: Session, m: Rebuild, p: Rule) {
    ReplaysTo(v, s.log, m, p.clock) && p.same(s.db, m.db)
  }

  /** The turn appends a proper entry if any; a good one keeps the replay in step, and after any other it is wrong. */
  ghost predicate ExactAt(v: Server, s: Session, r: Turn, m: Rebuild, p: Rule) {
    var s', m' := Step(v, s, r), RebuildStep(v, s, r, m, p.clock);
    && Proper(v, s, r)
    && if p.good(s, r, m) then InStep(v, s', m', p) else !Rebuilds(v, s', p)
  }

  lemma ExactWhenLogged(v: Server, s: Session, r: Turn, m: Rebuild, p: Rule, o: Served, o': Rebuild, good: bool)
    requires ReplaysTo(v, s.log, m, p.clock) && s.alive && v.serve(s.db, r) == o
    requires IsEntry(o.entry) && (good ==> GoesOn(v, m, o.entry, p.clock)) && ReplayOne(v, m, o.entry, p.clock) == o'
    requires (p.same(o.db, o'.db) <==> good) && (p.good(s, r, m) <==> good)
    ensures ExactAt(v, s, r, m, p)
  {
    assert o.entry != [] by {
      var args :| EncodesAs(o.entry, args);
    }
    StepLog(v, s, r);
    FoundAfterEntry(v, s.log, m, o.entry, p.clock);
    if good {
      StepReplays(v, s, r, m, p.clock);
    }
  }

  /** Whether the replay goes on after an entry or stops there, it has applied the entry. */
  lemma FoundAfterEntry(v: Server, log: Bytes, m: Rebuild, e: Bytes, clock: nat -> Env)
    requires ReplaysTo(v, log, m, clock) && IsEntry(e)
    ensures Restarted(v, log + e, clock).db == ReplayOne(v, m, e, clock).db
  {
    var args :| EncodesAs(e, args);
    DecodeEntry(e, args);
    OneReplayed(v, m, e, args, clock);
    assert Resumed(v, NOTHING, log + e, clock) == Resumed(v, m, e, clock);
    assert Decode([]) == Err(UnexpectedEof);
    ReplayLast(v, m, Request(args), e, [], clock);
  }

  /** A log of one entry. */
  lemma OneEntry(v: Server, e: Bytes, args: seq<Bytes>, clock: nat -> Env)
    requires EncodesAs(e, args) && v.react(EMPTY, Request(args), clock(0)).up
    ensures ReplaysTo(v, e, Rebuild(v.react(EMPTY, Request(args), clock(0)).db, 1), clock)
  {
    OneReplayed(v, NOTHING, e, args, clock);
    EntryAdvances(v, NOTHING, e, clock);
  }

  /** A log of two entries. */
  lemma TwoEntries(v: Server, e: Bytes, args: seq<Bytes>, e': Bytes, args': seq<Bytes>, clock: nat -> Env)
    requires EncodesAs(e, args) && EncodesAs(e', args') && v.react(EMPTY, Request(args), clock(0)).up
    ensures Restarted(v, e + e', clock).db ==
      v.react(v.react(EMPTY, Request(args), clock(0)).db, Request(args'), clock(1)).db
  {
    var m := Rebuild(v.react(EMPTY, Request(args), clock(0)).db, 1);
    OneEntry(v, e, args, clock);
    FoundAfterEntry(v, e, m, e', clock);
    OneReplayed(v, m, e', args', clock);
  }

  lemma ExactWhenSilent(v: Server, s: Session, r: Turn, m: Rebuild, p: Rule)
    requires ReplaysTo(v, s.log, m, p.clock) && EntryOf(v, s, r) == []
    requires p.same(Step(v, s, r).db, m.db) <==> p.good(s, r, m)
    ensures ExactAt(v, s, r, m, p)
  {
    StepReplays(v, s, r, m, p.clock);
    InStepRebuilds(v, Step(v, s, r), m, p);
  }

  lemma ExactWhenUnlogged(v: Server, s: Session, r: Turn, m: Rebuild, p: Rule, db: Db, good: bool)
    requires ReplaysTo(v, s.log, m, p.clock) && s.alive && v.serve(s.db, r).db == db && v.serve(s.db, r).entry == []
    requires (p.same(db, m.db) <==> good) && (p.good(s, r, m) <==> good)
    ensures ExactAt(v, s, r, m, p)
  {
    ExactWhenSilent(v, s, r, m, p);
  }

  ghost predicate Exact(v: Server, p: Rule) {
    forall s, r, m :: InStep(v, s, m, p) && p.fair(s, r) ==> ExactAt(v, s, r, m, p)
  }

  ghost predicate FairRun(v: Server, s: Session, rs: seq<Turn>, p: Rule) {
    rs == [] || (
      var n := |rs| - 1;
      FairRun(v, s, rs[..n], p) && p.fair(Run(v, s, rs[..n]), rs[n]))
  }

  ghost predicate GoodRun(v: Server, s: Session, rs: seq<Turn>, m: Rebuild, p: Rule) {
    rs == [] || (
      var n := |rs| - 1;
      GoodRun(v, s, rs[..n], m, p) && p.good(Run(v, s, rs[..n]), rs[n], Rebuilding(v, s, rs[..n], m, p.clock)))
  }

  /** A fair and good run stays in step with the replay of its log. */
  lemma {:induction false} RunRecovers(v: Server, s: Session, rs: seq<Turn>, m: Rebuild, p: Rule)
    requires Exact(v, p) && InStep(v, s, m, p) && FairRun(v, s, rs, p) && GoodRun(v, s, rs, m, p)
    ensures InStep(v, Run(v, s, rs), Rebuilding(v, s, rs, m, p.clock), p)
  {
    if rs != [] {
      var n := |rs| - 1;
      RunRecovers(v, s, rs[..n], m, p);
      assert ExactAt(v, Run(v, s, rs[..n]), rs[n], Rebuilding(v, s, rs[..n], m, p.clock), p);
    }
  }

  ghost predicate Rebuilds(v: Server, s: Session, p: Rule) {
    p.same(s.db, Restarted(v, s.log, p.clock).db)
  }

  lemma InStepRebuilds(v: Server, s: Session, m: Rebuild, p: Rule)
    requires ReplaysTo(v, s.log, m, p.clock)
    ensures Rebuilds(v, s, p) <==> InStep(v, s, m, p)
    ensures Restarted(v, s.log, p.clock) == Restart(m.db, Synced)
  {
    WholeLog(v, s.log, m, p.clock);
  }

  /** The log rebuilds the store after every prefix of the run. */
  ghost predicate AlwaysRebuilds(v: Server, s: Session, rs: seq<Turn>, p: Rule) {
    Rebuilds(v, Run(v, s, rs), p) && (rs == [] || AlwaysRebuilds(v, s, rs[..|rs| - 1], p))
  }

  /** A fair run is rebuilt at every moment exactly when it is good: the first request that is not shows. */
  lemma {:induction false} GoodExactly(v: Server, s: Session, rs: seq<Turn>, m: Rebuild, p: Rule)
    requires Exact(v, p) && InStep(v, s, m, p) && FairRun(v, s, rs, p)
    ensures AlwaysRebuilds(v, s, rs, p) <==> GoodRun(v, s, rs, m, p)
  {
    if rs == [] {
      InStepRebuilds(v, s, m, p);
    } else {
      var n := |rs| - 1;
      GoodExactly(v, s, rs[..n], m, p);
      if GoodRun(v, s, rs[..n], m, p) {
        RunRecovers(v, s, rs[..n], m, p);
        var s', m' := Run(v, s, rs[..n]), Rebuilding(v, s, rs[..n], m, p.clock);
        assert ExactAt(v, s', rs[n], m', p);
        if p.good(s', rs[n], m') {
          InStepRebuilds(v, Step(v, s', rs[n]), RebuildStep(v, s', rs[n], m', p.clock), p);
        }
      }
    }
  }

  // ----- Crashes -----

  lemma CutBytes(log: Bytes, entry: Bytes, cut: nat)
    requires |log| <= cut <= |log + entry|
    ensures (log + entry)[..cut] == log + entry[..cut - |log|]
  {
  }

  /** A log that ends inside an entry rebuilds what the entries before it rebuild. */
  lemma CutInside(v: Server, log: Bytes, m: Rebuild, e: Bytes, k: nat, clock: nat -> Env)
    requires ReplaysTo(v, log, m, clock) && IsEntry(e) && k < |e|
    ensures Restarted(v, log + e[..k], clock) == Restart(m.db, EndingOf(TornError(CutAtEdge(e, k))))
  {
    TornEntry(e, k);
    assert Resumed(v, NOTHING, log + e[..k], clock) == Resumed(v, m, e[..k], clock);
    ReplayEnds(v, m, e[..k], clock);
  }

  /** The first `j` requests are the longest prefix of the run whose entries all lie within `size` bytes of log. */
  ghost predicate LongestWithin(v: Server, s: Session, rs: seq<Turn>, size: nat, j: nat) {
    && j <= |rs| && |Run(v, s, rs[..j]).log| <= size
    && (j < |rs| ==> size < |Run(v, s, rs[..j + 1]).log|)
  }

  /** The entry a cut after the first `j` requests falls into. */
  ghost function NextEntry(v: Server, s: Session, rs: seq<Turn>, j: nat): Bytes {
    if j < |rs| then EntryOf(v, Run(v, s, rs[..j]), rs[j]) else []
  }

  /**
   * A restart from a log that holds the entries before `e` and the first `k` bytes of `e`: it finds what those
   * entries rebuild, and the server comes up unless the log ends on an edge of a length.
   */
  ghost predicate RestartsAs(restart: Restart, m: Rebuild, e: Bytes, k: nat) {
    restart.db == m.db && (restart.ending == Synced <==> !CutAtEdge(e, k))
  }

  /** The restart from `left` finds what the entries of the requests `rs` rebuild, and `e` cut short after them. */
  ghost predicate RestartsAfter(v: Server, s: Session, rs: seq<Turn>, e: Bytes, m: Rebuild, left: Bytes, clock: nat -> Env) {
    var before := |Run(v, s, rs).log|;
    before <= |left| && RestartsAs(Restarted(v, left, clock), Rebuilding(v, s, rs, m, clock), e, |left| - before)
  }

  /** The log `left` rebuilds the store as it was after the first `j` requests. */
  ghost predicate RebuiltFrom(v: Server, s: Session, rs: seq<Turn>, m: Rebuild, left: Bytes, j: nat, clock: nat -> Env) {
    LongestWithin(v, s, rs, |left|, j) && RestartsAfter(v, s, rs[..j], NextEntry(v, s, rs, j), m, left, clock)
  }

  lemma NoEdgeAtAll(k: nat)
    ensures !CutAtEdge([], k)
  {
    forall args ensures !EncodesAs([], args) {
      assert Encode(Request(args)) != [];
    }
  }

  lemma CutStep(v: Server, s: Session, r: Turn, m: Rebuild, cut: nat, clock: nat -> Env)
    requires ReplaysTo(v, s.log, m, clock) && Proper(v, s, r) && |s.log| <= cut < |Step(v, s, r).log|
    ensures RestartsAs(Restarted(v, Step(v, s, r).log[..cut], clock), m, EntryOf(v, s, r), cut - |s.log|)
  {
    var e := EntryOf(v, s, r);
    StepLog(v, s, r);
    CutBytes(s.log, e, cut);
    CutInside(v, s.log, m, e, cut - |s.log|, clock);
  }

  lemma RebuiltFromExtends(v: Server, s: Session, rs: seq<Turn>, m: Rebuild, left: Bytes, j: nat, clock: nat -> Env)
    requires rs != [] && |left| < |Run(v, s, rs[..|rs| - 1]).log|
    requires RebuiltFrom(v, s, rs[..|rs| - 1], m, left, j, clock)
    ensures RebuiltFrom(v, s, rs, m, left, j, clock)
  {
    LongestWithinExtends(v, s, rs, |left|, j);
  }

  lemma LongestWithinExtends(v: Server, s: Session, rs: seq<Turn>, size: nat, j: nat)
    requires rs != [] && size < |Run(v, s, rs[..|rs| - 1]).log| && LongestWithin(v, s, rs[..|rs| - 1], size, j)
    ensures j < |rs| - 1 && LongestWithin(v, s, rs, size, j) && rs[..|rs| - 1][..j] == rs[..j]
    ensures NextEntry(v, s, rs[..|rs| - 1], j) == NextEntry(v, s, rs, j)
  {
    var shorter := rs[..|rs| - 1];
    assert shorter[..|shorter|] == shorter;
    assert shorter[..j] == rs[..j];
    if j < |shorter| {
      assert shorter[..j + 1] == rs[..j + 1];
    }
  }

  lemma UncutRecovers(v: Server, s: Session, rs: seq<Turn>, m: Rebuild, p: Rule)
    requires Exact(v, p) && InStep(v, s, m, p) && FairRun(v, s, rs, p) && GoodRun(v, s, rs, m, p)
    ensures RebuiltFrom(v, s, rs, m, Run(v, s, rs).log, |rs|, p.clock)
  {
    assert rs[..|rs|] == rs;
    RunRecovers(v, s, rs, m, p);
    InStepRebuilds(v, Run(v, s, rs), Rebuilding(v, s, rs, m, p.clock), p);
    NoEdgeAtAll(0);
  }

  lemma CutInLastEntry(v: Server, s: Session, rs: seq<Turn>, m: Rebuild, cut: nat, p: Rule)
    requires rs != [] && Exact(v, p) && InStep(v, s, m, p) && FairRun(v, s, rs, p) && GoodRun(v, s, rs, m, p)
    requires |Run(v, s, rs[..|rs| - 1]).log| <= cut < |Run(v, s, rs).log|
    ensures RebuiltFrom(v, s, rs, m, Run(v, s, rs).log[..cut], |rs| - 1, p.clock)
  {
    var n := |rs| - 1;
    assert rs[..n + 1] == rs;
    RunRecovers(v, s, rs[..n], m, p);
    var s', m' := Run(v, s, rs[..n]), Rebuilding(v, s, rs[..n], m, p.clock);
    assert ExactAt(v, s', rs[n], m', p);
    CutStep(v, s', rs[n], m', cut, p.clock);
  }

  /** Crash consistency: the log of a good run, cut at any byte, rebuilds the state after a prefix of the run. */
  lemma {:induction false} CrashRecovers(v: Server, s: Session, rs: seq<Turn>, m: Rebuild, cut: nat, p: Rule) returns (j: nat)
    requires Exact(v, p) && InStep(v, s, m, p) && FairRun(v, s, rs, p) && GoodRun(v, s, rs, m, p)
    requires |s.log| <= cut <= |Run(v, s, rs).log|
    ensures RebuiltFrom(v, s, rs, m, Run(v, s, rs).log[..cut], j, p.clock)
  {
    var log := Run(v, s, rs).log;
    if cut == |log| {
      j := |rs|;
      assert log[..cut] == log;
      UncutRecovers(v, s, rs, m, p);
    } else {
      var n := |rs| - 1;
      var before := Run(v, s, rs[..n]).log;
      if cut < |before| {
        j := CrashRecovers(v, s, rs[..n], m, cut, p);
        LogGrows(v, Run(v, s, rs[..n]), rs[n]);
        assert log[..cut] == before[..cut];
        RebuiltFromExtends(v, s, rs, m, log[..cut], j, p.clock);
      } else {
        j := n;
        CutInLastEntry(v, s, rs, m, cut, p);
      }
    }
  }

  /** The restart shows the store `db`, and the server comes up unless the log ends on an edge of a length in `e`. */
  ghost predicate Shows(p: Rule, db: Db, restart: Restart, e: Bytes, k: nat) {
    p.same(db, restart.db) && (restart.ending == Synced <==> !CutAtEdge(e, k))
  }

  /**
   * What a restart from the first `cut` bytes of the log finds: the store as it was after the first `j` requests,
   * the longest prefix of the run whose entries are whole.
   */
  ghost predicate FoundAfter(v: Server, s: Session, rs: seq<Turn>, cut: nat, j: nat, p: Rule) {
    && LongestWithin(v, s, rs, cut, j) && cut <= |Run(v, s, rs).log|
    && var before := Run(v, s, rs[..j]);
       Shows(p, before.db, Restarted(v, Run(v, s, rs).log[..cut], p.clock), NextEntry(v, s, rs, j), cut - |before.log|)
  }

  lemma {:induction false} PrefixIsGood(v: Server, s: Session, rs: seq<Turn>, m: Rebuild, j: nat, p: Rule)
    requires j <= |rs| && FairRun(v, s, rs, p) && GoodRun(v, s, rs, m, p)
    ensures FairRun(v, s, rs[..j], p) && GoodRun(v, s, rs[..j], m, p)
    decreases |rs|
  {
    if j == |rs| {
      assert rs[..j] == rs;
    } else {
      var shorter := rs[..|rs| - 1];
      PrefixIsGood(v, s, shorter, m, j, p);
      assert shorter[..j] == rs[..j];
    }
  }

  lemma CrashFinds(v: Server, s: Session, rs: seq<Turn>, m: Rebuild, cut: nat, p: Rule) returns (j: nat)
    requires Exact(v, p) && InStep(v, s, m, p) && FairRun(v, s, rs, p) && GoodRun(v, s, rs, m, p)
    requires |s.log| <= cut <= |Run(v, s, rs).log|
    ensures FoundAfter(v, s, rs, cut, j, p)
  {
    j := CrashRecovers(v, s, rs, m, cut, p);
    PrefixIsGood(v, s, rs, m, j, p);
    RunRecovers(v, s, rs[..j], m, p);
    RebuiltIsFound(v, s, rs, m, cut, j, p);
  }

  lemma RebuiltShows(p: Rule, db: Db, restart: Restart, m: Rebuild, e: Bytes, k: nat)
    requires RestartsAs(restart, m, e, k) && p.same(db, m.db)
    ensures Shows(p, db, restart, e, k)
  {
  }

  lemma LongestIsLongest(v: Server, s: Session, rs: seq<Turn>, left: Bytes, cut: nat, j: nat)
    requires LongestWithin(v, s, rs, |left|, j) && |left| == cut
    ensures LongestWithin(v, s, rs, cut, j)
  {
  }

  lemma RebuiltIsFound(v: Server, s: Session, rs: seq<Turn>, m: Rebuild, cut: nat, j: nat, p: Rule)
    requires cut <= |Run(v, s, rs).log| && RebuiltFrom(v, s, rs, m, Run(v, s, rs).log[..cut], j, p.clock)
    requires p.same(Run(v, s, rs[..j]).db, Rebuilding(v, s, rs[..j], m, p.clock).db)
    ensures FoundAfter(v, s, rs, cut, j, p)
  {
    var left := Run(v, s, rs).log[..cut];
    RebuiltShows(p, Run(v, s, rs[..j]).db, Restarted(v, left, p.clock), Rebuilding(v, s, rs[..j], m, p.clock),
                 NextEntry(v, s, rs, j), |left| - |Run(v, s, rs[..j]).log|);
    LongestIsLongest(v, s, rs, left, cut, j);
  }

  // ----- A second life -----

  /** The server that comes up from the log `left`, reading `clock` while it replays. */
  ghost function Reborn(v: Server, left: Bytes, clock: nat -> Env): Session {
    Session(Restarted(v, left, clock).db, left, true)
  }

  /** Two rebuilds of one store are the same to the second rule. */
  ghost predicate Transfers(q: Rule, p: Rule) {
    forall a, b, c :: q.same(a, b) && p.same(a, c) ==> p.same(b, c)
  }

  lemma RebornInStep(v: Server, rs: seq<Turn>, q: Rule, p: Rule)
    requires Exact(v, q) && Exact(v, p) && Transfers(q, p)
    requires InStep(v, FRESH, NOTHING, q) && FairRun(v, FRESH, rs, q) && GoodRun(v, FRESH, rs, NOTHING, q)
    requires InStep(v, FRESH, NOTHING, p) && FairRun(v, FRESH, rs, p) && GoodRun(v, FRESH, rs, NOTHING, p)
    ensures InStep(v, Reborn(v, Run(v, FRESH, rs).log, q.clock), Rebuilding(v, FRESH, rs, NOTHING, p.clock), p)
  {
    var s := Run(v, FRESH, rs);
    RunRecovers(v, FRESH, rs, NOTHING, q);
    RunRecovers(v, FRESH, rs, NOTHING, p);
    InStepRebuilds(v, s, Rebuilding(v, FRESH, rs, NOTHING, q.clock), q);
    assert q.same(s.db, Restarted(v, s.log, q.clock).db) && p.same(s.db, Rebuilding(v, FRESH, rs, NOTHING, p.clock).db);
  }

  /** A second life: restart from the log, serve on, and the one log still rebuilds everything. */
  lemma RestartRecovers(v: Server, rs: seq<Turn>, more: seq<Turn>, q: Rule, p: Rule)
    requires Exact(v, q) && Exact(v, p) && Transfers(q, p)
    requires InStep(v, FRESH, NOTHING, q) && FairRun(v, FRESH, rs, q) && GoodRun(v, FRESH, rs, NOTHING, q)
    requires InStep(v, FRESH, NOTHING, p) && FairRun(v, FRESH, rs, p) && GoodRun(v, FRESH, rs, NOTHING, p)
    requires var reborn := Reborn(v, Run(v, FRESH, rs).log, q.clock);
      FairRun(v, reborn, more, p) && GoodRun(v, reborn, more, Rebuilding(v, FRESH, rs, NOTHING, p.clock), p)
    ensures Rebuilds(v, Run(v, Reborn(v, Run(v, FRESH, rs).log, q.clock), more), p)
  {
    var reborn, m := Reborn(v, Run(v, FRESH, rs).log, q.clock), Rebuilding(v, FRESH, rs, NOTHING, p.clock);
    RebornInStep(v, rs, q, p);
    RunRecovers(v, reborn, more, m, p);
    InStepRebuilds(v, Run(v, reborn, more), Rebuilding(v, reborn, more, m, p.clock), p);
  }
}
