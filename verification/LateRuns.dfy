/** Whole runs replayed at one later time: exactly when their logs rebuild what clients can then see. */
module LateRuns {
  import opened Bytes
  import opened Resp2
  import opened Database
  import opened Execution
  import opened Recovery
  import opened RecoverySteps
  import opened Journal
  import opened Aof
  import opened Lapsed
  import opened LateSteps
  import C = Command

  /** The whole log is read at the time `last`. */
  ghost predicate ReadAtOnce(p: Setting) {
    IsUnit(p.unit) && p.last < INSTANT_LIMIT && forall i :: p.clock(i).now == p.last && p.clock(i).digest == p.digest
  }

  /** Clients see the same at time `t`. */
  ghost predicate SeenAlike(a: Db, b: Db, t: Time, unit: nat) {
    unit > 0 && SameView(a, b, t, unit)
  }

  /** The log keeps up with the turn: see `LateReplays` and `LosesLate`; a deletion takes nothing that would still be seen. */
  ghost predicate LateFaithful(db: Db, r: Turn, b: Db, env': Env, unit: nat) {
    && unit > 0 && (r.Deletion? ==> forall k :: k in r.keys ==> !Live(db, k, env'.now))
    && forall c :: Asks(r, c) ==>
      if Logged(c, Exec(db, c, r.env).reply) then LateReplays(db, b, c, r.env, env', unit) else !LosesLate(db, c, r.env, env'.now)
  }

  ghost function LateRule(p: Setting): Rule {
    Rule(p.clock,
         (a, b) => SeenAlike(a, b, p.last, p.unit),
         (s, r) => InTime(r, p.last, p.digest),
         (s: Session, r, m: Rebuild) => s.alive ==> LateFaithful(s.db, r, m.db, p.clock(m.entries), p.unit))
  }

  lemma LateFaithfulRequest(db: Db, r: Turn, c: C.Command, b: Db, env': Env, unit: nat)
    requires unit > 0 && Asks(r, c)
    ensures LateFaithful(db, r, b, env', unit) <==>
      if Logged(c, Exec(db, c, r.env).reply) then LateReplays(db, b, c, r.env, env', unit) else !LosesLate(db, c, r.env, env'.now)
  {
  }

  lemma LoggedLateExact(s: Session, r: Turn, m: Rebuild, c: C.Command, p: Setting)
    requires ReadAtOnce(p) && InStep(SERVER, s, m, LateRule(p)) && InTime(r, p.last, p.digest)
    requires s.alive && Asks(r, c) && Logged(c, Exec(s.db, c, r.env).reply)
    ensures ExactAt(SERVER, s, r, m, LateRule(p))
  {
    var env', o := p.clock(m.entries), Exec(s.db, c, r.env);
    assert env'.now == p.last;
    ServerServes(s, r);
    ServesParsed(s.db, r, c);
    ParsedIsWellFormed(r.value, c);
    LoggedLate(s.db, m.db, c, r.env, env', p.unit);
    EntryReacts(r.value, c, r.env.now, m, p.clock);
    LateFaithfulRequest(s.db, r, c, m.db, env', p.unit);
    var o' := Rebuild(Exec(m.db, LoggedCommand(c, r.env.now), env').db, m.entries + 1);
    ExactWhenLogged(SERVER, s, r, m, LateRule(p), Served(o.db, Encode(Entry(c, r.value, r.env.now)), true), o',
                    LateReplays(s.db, m.db, c, r.env, env', p.unit));
  }

  lemma UnloggedLateExact(s: Session, r: Turn, m: Rebuild, c: C.Command, p: Setting)
    requires ReadAtOnce(p) && InStep(SERVER, s, m, LateRule(p)) && InTime(r, p.last, p.digest)
    requires s.alive && Asks(r, c) && !Logged(c, Exec(s.db, c, r.env).reply)
    ensures ExactAt(SERVER, s, r, m, LateRule(p))
  {
    assert p.clock(m.entries).now == p.last;
    ParsedIsWellFormed(r.value, c);
    ServerServes(s, r);
    ServesParsed(s.db, r, c);
    UnloggedLate(s.db, m.db, c, r.env, p.last, p.unit);
    LateFaithfulRequest(s.db, r, c, m.db, p.clock(m.entries), p.unit);
    ExactWhenUnlogged(SERVER, s, r, m, LateRule(p), Exec(s.db, c, r.env).db, !LosesLate(s.db, c, r.env, p.last));
  }

  lemma DeletionLateExact(s: Session, r: Turn, m: Rebuild, p: Setting)
    requires ReadAtOnce(p) && InStep(SERVER, s, m, LateRule(p)) && s.alive && r.Deletion?
    ensures ExactAt(SERVER, s, r, m, LateRule(p))
  {
    assert p.clock(m.entries).now == p.last;
    ServerServes(s, r);
    DeletionLate(s.db, m.db, r.keys, p.last, p.unit);
    ExactWhenUnlogged(SERVER, s, r, m, LateRule(p), Remove(s.db, r.keys), forall k :: k in r.keys ==> !Live(s.db, k, p.last));
  }

  /** One turn keeps what clients will see and what the log rebuilds of it in step exactly when the log keeps up with it. */
  lemma StepLateExact(s: Session, r: Turn, m: Rebuild, p: Setting)
    requires ReadAtOnce(p) && InStep(SERVER, s, m, LateRule(p)) && InTime(r, p.last, p.digest)
    ensures ExactAt(SERVER, s, r, m, LateRule(p))
  {
    if s.alive && r.Deletion? {
      DeletionLateExact(s, r, m, p);
    } else if s.alive && C.FromResp2(r.value).Parsed? {
      var c := C.FromResp2(r.value).value;
      if Logged(c, Exec(s.db, c, r.env).reply) {
        LoggedLateExact(s, r, m, c, p);
      } else {
        UnloggedLateExact(s, r, m, c, p);
      }
    } else {
      if s.alive {
        ServerServes(s, r);
        ServesOther(s.db, r);
      }
      ExactWhenSilent(SERVER, s, r, m, LateRule(p));
    }
  }

  lemma ServerIsLateExact(p: Setting)
    requires ReadAtOnce(p)
    ensures Exact(SERVER, LateRule(p)) && InStep(SERVER, FRESH, NOTHING, LateRule(p))
  {
    FreshReplays(SERVER, p.clock);
    forall s, r, m | InStep(SERVER, s, m, LateRule(p)) && LateRule(p).fair(s, r) ensures ExactAt(SERVER, s, r, m, LateRule(p)) {
      StepLateExact(s, r, m, p);
    }
  }

  /**
   * Replayed at one time, however late, the log rebuilds what clients can then see of every prefix of the run
   * exactly when it keeps up with every turn.
   */
  lemma LateFaithfulExactly(rs: seq<Turn>, p: Setting)
    requires ReadAtOnce(p) && FairRun(SERVER, FRESH, rs, LateRule(p))
    ensures AlwaysRebuilds(SERVER, FRESH, rs, LateRule(p)) <==> GoodRun(SERVER, FRESH, rs, NOTHING, LateRule(p))
  {
    ServerIsLateExact(p);
    GoodExactly(SERVER, FRESH, rs, NOTHING, LateRule(p));
  }

  /** In particular the whole log is then read. */
  lemma LateReplayEqualsRun(rs: seq<Turn>, p: Setting)
    requires ReadAtOnce(p) && FairRun(SERVER, FRESH, rs, LateRule(p)) && GoodRun(SERVER, FRESH, rs, NOTHING, LateRule(p))
    ensures var s, restart := Run(SERVER, FRESH, rs), Restarted(SERVER, Run(SERVER, FRESH, rs).log, p.clock);
      restart.ending == Synced && SameView(s.db, restart.db, p.last, p.unit)
  {
    ServerIsLateExact(p);
    RunRecovers(SERVER, FRESH, rs, NOTHING, LateRule(p));
    InStepRebuilds(SERVER, Run(SERVER, FRESH, rs), Rebuilding(SERVER, FRESH, rs, NOTHING, p.clock), LateRule(p));
  }

  /** And cut at any byte, the log rebuilds what clients can then see of a prefix of the run. */
  lemma LateCrash(rs: seq<Turn>, cut: nat, p: Setting) returns (j: nat)
    requires ReadAtOnce(p) && FairRun(SERVER, FRESH, rs, LateRule(p)) && GoodRun(SERVER, FRESH, rs, NOTHING, LateRule(p))
    requires cut <= |Run(SERVER, FRESH, rs).log|
    ensures FoundAfter(SERVER, FRESH, rs, cut, j, LateRule(p))
  {
    ServerIsLateExact(p);
    j := CrashFinds(SERVER, FRESH, rs, NOTHING, cut, LateRule(p));
  }

  // ----- The eviction daemon -----

  /** Keys sampled as expired, and deleted while they still have the deadline they were sampled with, are never missed. */
  lemma SampledAreNotMissed(db: Db, sampled: map<Key, Time>, t: Time, last: Time)
    requires t <= last && forall k :: k in sampled ==> sampled[k] <= t && k in db.expiry && db.expiry[k] == sampled[k]
    ensures forall k :: k in sampled.Keys ==> !Live(db, k, last)
  {
  }
}
