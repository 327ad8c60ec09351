/** Whole runs replayed after some of their deadlines have passed. */
module LapsedRuns {
  import opened Bytes
  import opened Resp2
  import opened Database
  import opened Execution
  import opened Recovery
  import opened RecoverySteps
  import opened Journal
  import opened Aof
  import opened Lapsed
  import C = Command

  /** The clock of a replay: it does not go back, and stays before `last`. */
  ghost predicate LateSetting(p: Setting) {
    && IsUnit(p.unit) && p.last < INSTANT_LIMIT
    && (forall i, j :: i <= j ==> p.clock(i).now <= p.clock(j).now)
    && (forall i :: p.clock(i).now <= p.last && p.clock(i).digest == p.digest && ValidSampler(p.clock(i).draw))
  }

  /** A key that had expired, by a unit, before the replay began. */
  ghost predicate Gone(db: Db, k: Key, p: Setting)
    requires p.unit > 0
  {
    k in db.expiry && db.expiry[k] / p.unit < p.clock(0).now / p.unit
  }

  /**
   * A request served before the replay, which the replay can follow if it is logged and need not if it is not;
   * or a deletion of keys that have expired.
   */
  ghost predicate FollowableTurn(s: Session, r: Turn, p: Setting) {
    && p.unit > 0 && InTime(r, p.clock(0).now, p.digest) && (r.Incoming? ==> ValidSampler(r.env.draw))
    && (s.alive && r.Deletion? ==> forall k :: k in r.keys && k in s.db.data ==> Gone(s.db, k, p))
    && (s.alive ==> forall c :: Asks(r, c) ==>
        if Logged(c, Exec(s.db, c, r.env).reply) then Followable(s.db, c, r.env, p.last, p.unit) else !Loses(s.db, c, r.env))
  }

  ghost predicate FollowableRun(s: Session, rs: seq<Turn>, p: Setting) {
    rs == [] || (
      var n := |rs| - 1;
      FollowableRun(s, rs[..n], p) && FollowableTurn(Run(SERVER, s, rs[..n]), rs[n], p))
  }

  /** The replay of the log follows the session. */
  ghost predicate Following(s: Session, m: Rebuild, p: Setting) {
    && p.unit > 0 && ReplaysTo(SERVER, s.log, m, p.clock)
    && Follows(s.db, m.db, p.clock(m.entries).now, p.last, p.unit)
  }

  /** The store and the replay after a request that is logged. */
  lemma LoggedOutcome(db: Db, r: Turn, c: C.Command, m: Rebuild, p: Setting)
    requires LateSetting(p) && Follows(db, m.db, p.clock(m.entries).now, p.last, p.unit)
    requires InTime(r, p.clock(0).now, p.digest) && r.Incoming? && ValidSampler(r.env.draw)
    requires Asks(r, c) && Logged(c, Exec(db, c, r.env).reply) && Followable(db, c, r.env, p.last, p.unit)
    ensures var o' := Exec(m.db, LoggedCommand(c, r.env.now), p.clock(m.entries));
      o'.reply != Panics && Follows(Exec(db, c, r.env).db, o'.db, p.clock(m.entries + 1).now, p.last, p.unit)
  {
    var env' := p.clock(m.entries);
    ParsedIsWellFormed(r.value, c);
    assert p.clock(0).now <= env'.now <= p.clock(m.entries + 1).now;
    LoggedFollows(db, m.db, c, r.env, env', p.last, p.unit);
    FollowsLater(Exec(db, c, r.env).db, Exec(m.db, LoggedCommand(c, r.env.now), env').db, env'.now,
                 p.clock(m.entries + 1).now, p.last, p.unit);
  }

  /** From what a request does to the store, and its entry to the replay, to the session. */
  lemma FollowsOn(v: Server, s: Session, r: Turn, m: Rebuild, e: Bytes, clock: nat -> Env)
    requires ReplaysTo(v, s.log, m, clock) && EntryOf(v, s, r) == e && IsEntry(e) && GoesOn(v, m, e, clock)
    ensures RebuildStep(v, s, r, m, clock) == ReplayOne(v, m, e, clock)
    ensures ReplaysTo(v, Step(v, s, r).log, RebuildStep(v, s, r, m, clock), clock)
  {
    assert e != [] by {
      var args :| EncodesAs(e, args);
    }
    StepReplays(v, s, r, m, clock);
  }

  lemma StepFollowsLogged(s: Session, r: Turn, m: Rebuild, c: C.Command, p: Setting)
    requires LateSetting(p) && Following(s, m, p) && FollowableTurn(s, r, p)
    requires s.alive && Asks(r, c) && Logged(c, Exec(s.db, c, r.env).reply)
    ensures Following(Step(SERVER, s, r), RebuildStep(SERVER, s, r, m, p.clock), p)
  {
    ServerServes(s, r);
    ServesParsed(s.db, r, c);
    LoggedOutcome(s.db, r, c, m, p);
    EntryReacts(r.value, c, r.env.now, m, p.clock);
    FollowsOn(SERVER, s, r, m, Encode(Entry(c, r.value, r.env.now)), p.clock);
  }

  lemma StepFollowsSilent(s: Session, r: Turn, m: Rebuild, p: Setting)
    requires Following(s, m, p) && EntryOf(SERVER, s, r) == []
    requires Follows(Step(SERVER, s, r).db, m.db, p.clock(m.entries).now, p.last, p.unit)
    ensures Following(Step(SERVER, s, r), RebuildStep(SERVER, s, r, m, p.clock), p)
  {
    StepReplays(SERVER, s, r, m, p.clock);
  }

  lemma StepFollowsUnlogged(s: Session, r: Turn, m: Rebuild, c: C.Command, p: Setting)
    requires LateSetting(p) && Following(s, m, p) && FollowableTurn(s, r, p)
    requires s.alive && Asks(r, c) && !Logged(c, Exec(s.db, c, r.env).reply)
    ensures Following(Step(SERVER, s, r), RebuildStep(SERVER, s, r, m, p.clock), p)
  {
    ParsedIsWellFormed(r.value, c);
    ServerServes(s, r);
    ServesParsed(s.db, r, c);
    UnloggedFollows(s.db, m.db, c, r.env, p.clock(m.entries).now, p.last, p.unit);
    StepFollowsSilent(s, r, m, p);
  }

  lemma StepFollows(s: Session, r: Turn, m: Rebuild, p: Setting)
    requires LateSetting(p) && Following(s, m, p) && FollowableTurn(s, r, p)
    ensures Following(Step(SERVER, s, r), RebuildStep(SERVER, s, r, m, p.clock), p)
  {
    if s.alive && r.Deletion? {
      ServerServes(s, r);
      assert p.clock(0).now <= p.clock(m.entries).now <= p.last;
      DeletionFollows(s.db, m.db, r.keys, p.clock(0).now, p.clock(m.entries).now, p.last, p.unit);
      StepFollowsSilent(s, r, m, p);
    } else if s.alive && C.FromResp2(r.value).Parsed? {
      var c := C.FromResp2(r.value).value;
      if Logged(c, Exec(s.db, c, r.env).reply) {
        StepFollowsLogged(s, r, m, c, p);
      } else {
        StepFollowsUnlogged(s, r, m, c, p);
      }
    } else {
      if s.alive {
        ServerServes(s, r);
        ServesOther(s.db, r);
      }
      StepFollowsSilent(s, r, m, p);
    }
  }

  lemma {:induction false} RunFollows(rs: seq<Turn>, p: Setting)
    requires LateSetting(p) && FollowableRun(FRESH, rs, p)
    ensures Following(Run(SERVER, FRESH, rs), Rebuilding(SERVER, FRESH, rs, NOTHING, p.clock), p)
  {
    if rs == [] {
      FreshReplays(SERVER, p.clock);
    } else {
      var n := |rs| - 1;
      RunFollows(rs[..n], p);
      StepFollows(Run(SERVER, FRESH, rs[..n]), rs[n], Rebuilding(SERVER, FRESH, rs[..n], NOTHING, p.clock), p);
    }
  }

  /**
   * Replay after deadlines: read at any time after the run, however many deadlines have passed since, the log
   * rebuilds what clients can still see at every key whose deadline does not fall in the very unit of the end.
   */
  lemma LateReplay(rs: seq<Turn>, p: Setting)
    requires LateSetting(p) && FollowableRun(FRESH, rs, p)
    ensures var s, restart := Run(SERVER, FRESH, rs), Restarted(SERVER, Run(SERVER, FRESH, rs).log, p.clock);
      && restart.ending == Synced
      && forall k :: SettledAt(s.db, k, p.last, p.unit) ==> ViewAt(s.db, restart.db, k, p.last, p.unit)
  {
    var s, m := Run(SERVER, FRESH, rs), Rebuilding(SERVER, FRESH, rs, NOTHING, p.clock);
    RunFollows(rs, p);
    WholeLog(SERVER, s.log, m, p.clock);
    assert p.clock(m.entries).now <= p.last;
    forall k | SettledAt(s.db, k, p.last, p.unit) ensures ViewAt(s.db, m.db, k, p.last, p.unit) {
      assert FollowsAt(s.db, m.db, k, p.clock(m.entries).now, p.last, p.unit);
      FollowsShows(s.db, m.db, k, p.clock(m.entries).now, p.last, p.unit);
    }
  }
}
