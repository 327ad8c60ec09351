/** A server restarted from a cut log appends to what is left of it: exactly which cuts are safe. */
module SecondLife {
  import opened Bytes
  import opened Decimal
  import opened Execution
  import opened Journal

  // ----- Requests that any replay follows -----

  ghost predicate PlainRun(v: Server, s: Session, rs: seq<Turn>, plain: (Session, Turn) -> bool) {
    rs == [] || (
      var n := |rs| - 1;
      PlainRun(v, s, rs[..n], plain) && plain(Run(v, s, rs[..n]), rs[n]))
  }

  /** A plain request is fair, and good whatever the replay has rebuilt so far. */
  ghost predicate PlainIsGood(v: Server, p: Rule, plain: (Session, Turn) -> bool) {
    && (forall s, r :: plain(s, r) ==> p.fair(s, r))
    && (forall s, r, m :: InStep(v, s, m, p) && plain(s, r) ==> p.good(s, r, m))
  }

  lemma {:induction false} PlainRunIsGood(v: Server, s: Session, rs: seq<Turn>, m: Rebuild, p: Rule, plain: (Session, Turn) -> bool)
    requires Exact(v, p) && PlainIsGood(v, p, plain) && InStep(v, s, m, p) && PlainRun(v, s, rs, plain)
    ensures FairRun(v, s, rs, p) && GoodRun(v, s, rs, m, p)
  {
    if rs != [] {
      var n := |rs| - 1;
      PlainRunIsGood(v, s, rs[..n], m, p, plain);
      RunRecovers(v, s, rs[..n], m, p);
      assert plain(Run(v, s, rs[..n]), rs[n]);
    }
  }

  lemma {:induction false} PrefixIsPlain(v: Server, s: Session, rs: seq<Turn>, j: nat, plain: (Session, Turn) -> bool)
    requires j <= |rs| && PlainRun(v, s, rs, plain)
    ensures PlainRun(v, s, rs[..j], plain)
    ensures j < |rs| ==> plain(Run(v, s, rs[..j]), rs[j])
    decreases |rs|
  {
    if j == |rs| {
      assert rs[..j] == rs;
    } else {
      var shorter := rs[..|rs| - 1];
      PrefixIsPlain(v, s, shorter, j, plain);
      assert shorter[..j] == rs[..j];
    }
  }

  // ----- Safe cuts -----

  /** Whatever plain requests the session serves next, its log rebuilds it. */
  ghost predicate SafeToAppend(v: Server, s: Session, p: Rule, plain: (Session, Turn) -> bool) {
    forall more :: PlainRun(v, s, more, plain) ==> Rebuilds(v, Run(v, s, more), p)
  }

  /** The session `reborn` came up from a log that ends `k` bytes into the entry of request `r`. */
  ghost predicate CameUpInside(v: Server, s: Session, r: Turn, k: nat, reborn: Session) {
    var e := EntryOf(v, s, r);
    && IsEntry(e) && 0 < k < |e| < I64_MAX && !CutAtEdge(e, k)
    && reborn.alive && reborn.log == s.log + e[..k]
  }

  /** After such a tear some plain request is lost to a later restart. */
  ghost predicate Forgets(v: Server, p: Rule, plain: (Session, Turn) -> bool) {
    forall s, m, r, k, reborn ::
      InStep(v, s, m, p) && plain(s, r) && CameUpInside(v, s, r, k, reborn) && p.same(s.db, reborn.db) ==>
        exists next :: plain(reborn, next) && !Rebuilds(v, Step(v, reborn, next), p)
  }

  /** The two restarts: the first by rule `q`, the second by rule `p`. */
  ghost predicate TwoLives(v: Server, q: Rule, p: Rule, plain: (Session, Turn) -> bool) {
    && Exact(v, q) && PlainIsGood(v, q, plain) && InStep(v, FRESH, NOTHING, q)
    && Exact(v, p) && PlainIsGood(v, p, plain) && InStep(v, FRESH, NOTHING, p)
    && Transfers(q, p) && forall a, b :: q.same(a, b) ==> p.same(a, b)
  }

  /** Cut between entries, the log is that of a shorter run, and safe to append to. */
  lemma BoundaryIsSafe(v: Server, rs: seq<Turn>, q: Rule, p: Rule, plain: (Session, Turn) -> bool)
    requires TwoLives(v, q, p, plain) && PlainRun(v, FRESH, rs, plain)
    ensures SafeToAppend(v, Reborn(v, Run(v, FRESH, rs).log, q.clock), p, plain)
  {
    PlainRunIsGood(v, FRESH, rs, NOTHING, q, plain);
    PlainRunIsGood(v, FRESH, rs, NOTHING, p, plain);
    RebornInStep(v, rs, q, p);
    var reborn, m := Reborn(v, Run(v, FRESH, rs).log, q.clock), Rebuilding(v, FRESH, rs, NOTHING, p.clock);
    forall more | PlainRun(v, reborn, more, plain) ensures Rebuilds(v, Run(v, reborn, more), p) {
      PlainRunIsGood(v, reborn, more, m, p, plain);
      RestartRecovers(v, rs, more, q, p);
    }
  }

  lemma OneRequest(v: Server, s: Session, r: Turn, plain: (Session, Turn) -> bool)
    requires plain(s, r)
    ensures PlainRun(v, s, [r], plain) && Run(v, s, [r]) == Step(v, s, r)
  {
    var none: seq<Turn> := [];
    RunOne(v, s, r);
    assert [r][..0] == none;
    assert Run(v, s, none) == s && PlainRun(v, s, none, plain);
  }

  /** Cut inside an entry, it is not. */
  lemma InsideIsUnsafe(v: Server, s: Session, r: Turn, m: Rebuild, k: nat, reborn: Session, p: Rule, plain: (Session, Turn) -> bool)
    requires Forgets(v, p, plain) && InStep(v, s, m, p) && plain(s, r)
    requires CameUpInside(v, s, r, k, reborn) && p.same(s.db, reborn.db)
    ensures !SafeToAppend(v, reborn, p, plain)
  {
    var next :| plain(reborn, next) && !Rebuilds(v, Step(v, reborn, next), p);
    OneRequest(v, reborn, next, plain);
    assert !Rebuilds(v, Run(v, reborn, [next]), p);
  }

  ghost predicate IsBoundary(v: Server, rs: seq<Turn>, cut: nat) {
    exists j :: 0 <= j <= |rs| && cut == |Run(v, FRESH, rs[..j]).log|
  }

  lemma InsideIsNoBoundary(v: Server, rs: seq<Turn>, j: nat, cut: nat)
    requires j < |rs| && |Run(v, FRESH, rs[..j]).log| < cut < |Run(v, FRESH, rs[..j + 1]).log|
    ensures !IsBoundary(v, rs, cut)
  {
    forall i | 0 <= i <= |rs| ensures cut != |Run(v, FRESH, rs[..i]).log| {
      if i <= j {
        assert rs[..j][..i] == rs[..i];
        PrefixOfLog(v, FRESH, rs[..j], i);
      } else {
        assert rs[..i][..j + 1] == rs[..j + 1];
        PrefixOfLog(v, FRESH, rs[..i], j + 1);
      }
    }
  }

  lemma NextStep(v: Server, s: Session, rs: seq<Turn>, j: nat)
    requires j < |rs|
    ensures Run(v, s, rs[..j + 1]) == Step(v, Run(v, s, rs[..j]), rs[j])
  {
    assert rs[..j + 1][..j] == rs[..j] && rs[..j + 1][j] == rs[j];
  }

  /** The bytes left by a cut inside the entry of request `j`. */
  lemma LeftInside(v: Server, rs: seq<Turn>, j: nat, cut: nat)
    requires j < |rs| && |Run(v, FRESH, rs[..j]).log| < cut < |Run(v, FRESH, rs[..j + 1]).log|
    ensures var s, e := Run(v, FRESH, rs[..j]), EntryOf(v, Run(v, FRESH, rs[..j]), rs[j]);
      && cut <= |s.log + e| && cut <= |Run(v, FRESH, rs).log|
      && Run(v, FRESH, rs).log[..cut] == s.log + e[..cut - |s.log|]
  {
    var s, e := Run(v, FRESH, rs[..j]), EntryOf(v, Run(v, FRESH, rs[..j]), rs[j]);
    NextStep(v, FRESH, rs, j);
    StepLog(v, s, rs[j]);
    PrefixOfLog(v, FRESH, rs, j + 1);
    CutBytes(s.log, e, cut);
    assert Run(v, FRESH, rs).log[..cut] == (s.log + e)[..cut];
  }

  /** A plain run up to request `j`, and that request. */
  lemma AtRequest(v: Server, rs: seq<Turn>, j: nat, p: Rule, plain: (Session, Turn) -> bool)
    requires Exact(v, p) && PlainIsGood(v, p, plain) && InStep(v, FRESH, NOTHING, p)
    requires PlainRun(v, FRESH, rs, plain) && j < |rs|
    ensures var s := Run(v, FRESH, rs[..j]);
      InStep(v, s, Rebuilding(v, FRESH, rs[..j], NOTHING, p.clock), p) && plain(s, rs[j]) && Proper(v, s, rs[j])
  {
    PrefixIsPlain(v, FRESH, rs, j, plain);
    PlainInStep(v, FRESH, rs[..j], NOTHING, p, plain);
    PlainIsProper(v, Run(v, FRESH, rs[..j]), rs[j], Rebuilding(v, FRESH, rs[..j], NOTHING, p.clock), p, plain);
  }

  lemma PlainInStep(v: Server, s: Session, rs: seq<Turn>, m: Rebuild, p: Rule, plain: (Session, Turn) -> bool)
    requires Exact(v, p) && PlainIsGood(v, p, plain) && InStep(v, s, m, p) && PlainRun(v, s, rs, plain)
    ensures InStep(v, Run(v, s, rs), Rebuilding(v, s, rs, m, p.clock), p)
  {
    PlainRunIsGood(v, s, rs, m, p, plain);
    RunRecovers(v, s, rs, m, p);
  }

  lemma PlainIsProper(v: Server, s: Session, r: Turn, m: Rebuild, p: Rule, plain: (Session, Turn) -> bool)
    requires Exact(v, p) && PlainIsGood(v, p, plain) && InStep(v, s, m, p) && plain(s, r)
    ensures Proper(v, s, r)
  {
    assert ExactAt(v, s, r, m, p);
  }

  /** What is left when the entry of request `r` is cut to its first `k` bytes. */
  ghost predicate CutInside(v: Server, s: Session, r: Turn, k: nat, left: Bytes) {
    0 < k < |EntryOf(v, s, r)| < I64_MAX && left == s.log + EntryOf(v, s, r)[..k]
  }

  lemma CutRequest(v: Server, rs: seq<Turn>, j: nat, cut: nat)
    requires j < |rs| && |Run(v, FRESH, rs).log| < I64_MAX
    requires |Run(v, FRESH, rs[..j]).log| < cut < |Run(v, FRESH, rs[..j + 1]).log|
    ensures var s := Run(v, FRESH, rs[..j]);
      cut <= |Run(v, FRESH, rs).log| && CutInside(v, s, rs[j], cut - |s.log|, Run(v, FRESH, rs).log[..cut])
  {
    LeftInside(v, rs, j, cut);
    InsideSize(v, rs, j, cut);
  }

  lemma CameUp(v: Server, s: Session, r: Turn, m: Rebuild, k: nat, left: Bytes, clock: nat -> Env)
    requires Proper(v, s, r) && CutInside(v, s, r, k, left)
    requires RestartsAs(Restarted(v, left, clock), m, EntryOf(v, s, r), k) && Restarted(v, left, clock).ending == Synced
    ensures CameUpInside(v, s, r, k, Reborn(v, left, clock)) && Reborn(v, left, clock).db == m.db
  {
  }

  /** A server that came up from a cut inside the entry of request `j`. */
  lemma RebornInside(v: Server, rs: seq<Turn>, j: nat, cut: nat, q: Rule, p: Rule)
    requires j < |rs| && |Run(v, FRESH, rs).log| < I64_MAX
    requires |Run(v, FRESH, rs[..j]).log| < cut < |Run(v, FRESH, rs[..j + 1]).log| && cut <= |Run(v, FRESH, rs).log|
    requires RebuiltFrom(v, FRESH, rs, NOTHING, Run(v, FRESH, rs).log[..cut], j, q.clock)
    requires Restarted(v, Run(v, FRESH, rs).log[..cut], q.clock).ending == Synced
    requires var s := Run(v, FRESH, rs[..j]);
      Proper(v, s, rs[j]) && q.same(s.db, Rebuilding(v, FRESH, rs[..j], NOTHING, q.clock).db)
    requires forall a, b :: q.same(a, b) ==> p.same(a, b)
    ensures var s, reborn := Run(v, FRESH, rs[..j]), Reborn(v, Run(v, FRESH, rs).log[..cut], q.clock);
      CameUpInside(v, s, rs[j], cut - |s.log|, reborn) && p.same(s.db, reborn.db)
  {
    var s, left := Run(v, FRESH, rs[..j]), Run(v, FRESH, rs).log[..cut];
    CutRequest(v, rs, j, cut);
    RestartsInside(v, rs, j, left, q.clock);
    CameUpAlike(v, s, rs[j], Rebuilding(v, FRESH, rs[..j], NOTHING, q.clock), cut - |s.log|, left, q, p);
  }

  lemma CameUpAlike(v: Server, s: Session, r: Turn, m: Rebuild, k: nat, left: Bytes, q: Rule, p: Rule)
    requires Proper(v, s, r) && CutInside(v, s, r, k, left)
    requires RestartsAs(Restarted(v, left, q.clock), m, EntryOf(v, s, r), k) && Restarted(v, left, q.clock).ending == Synced
    requires q.same(s.db, m.db) && forall a, b :: q.same(a, b) ==> p.same(a, b)
    ensures CameUpInside(v, s, r, k, Reborn(v, left, q.clock)) && p.same(s.db, Reborn(v, left, q.clock).db)
  {
    CameUp(v, s, r, m, k, left, q.clock);
  }

  lemma RestartsInside(v: Server, rs: seq<Turn>, j: nat, left: Bytes, clock: nat -> Env)
    requires j < |rs| && RebuiltFrom(v, FRESH, rs, NOTHING, left, j, clock)
    ensures var s := Run(v, FRESH, rs[..j]);
      && |s.log| <= |left|
      && RestartsAs(Restarted(v, left, clock), Rebuilding(v, FRESH, rs[..j], NOTHING, clock), EntryOf(v, s, rs[j]), |left| - |s.log|)
  {
  }

  lemma InsideSize(v: Server, rs: seq<Turn>, j: nat, cut: nat)
    requires j < |rs| && |Run(v, FRESH, rs[..j]).log| < cut < |Run(v, FRESH, rs[..j + 1]).log|
    ensures var s := Run(v, FRESH, rs[..j]);
      cut - |s.log| < |EntryOf(v, s, rs[j])| <= |Run(v, FRESH, rs).log|
  {
    NextStep(v, FRESH, rs, j);
    StepLog(v, Run(v, FRESH, rs[..j]), rs[j]);
    PrefixOfLog(v, FRESH, rs, j + 1);
  }

  lemma CutIsUnsafe(v: Server, rs: seq<Turn>, j: nat, cut: nat, q: Rule, p: Rule, plain: (Session, Turn) -> bool)
    requires TwoLives(v, q, p, plain) && Forgets(v, p, plain) && PlainRun(v, FRESH, rs, plain) && cut <= |Run(v, FRESH, rs).log| < I64_MAX
    requires j < |rs| && |Run(v, FRESH, rs[..j]).log| < cut < |Run(v, FRESH, rs[..j + 1]).log|
    requires RebuiltFrom(v, FRESH, rs, NOTHING, Run(v, FRESH, rs).log[..cut], j, q.clock)
    requires Restarted(v, Run(v, FRESH, rs).log[..cut], q.clock).ending == Synced
    ensures !SafeToAppend(v, Reborn(v, Run(v, FRESH, rs).log[..cut], q.clock), p, plain)
  {
    var s := Run(v, FRESH, rs[..j]);
    AtRequest(v, rs, j, q, plain);
    RebornInside(v, rs, j, cut, q, p);
    AtRequest(v, rs, j, p, plain);
    InsideIsUnsafe(v, s, rs[j], Rebuilding(v, FRESH, rs[..j], NOTHING, p.clock), cut - |s.log|,
                   Reborn(v, Run(v, FRESH, rs).log[..cut], q.clock), p, plain);
  }

  /**
   * Exactly when a server that comes up from a cut log can go on appending to it: when the cut is between two
   * entries. Anywhere else there is a next request that the later restart forgets.
   */
  lemma SafeExactly(v: Server, rs: seq<Turn>, cut: nat, q: Rule, p: Rule, plain: (Session, Turn) -> bool)
    requires TwoLives(v, q, p, plain) && Forgets(v, p, plain) && PlainRun(v, FRESH, rs, plain)
    requires cut <= |Run(v, FRESH, rs).log| < I64_MAX
    requires Restarted(v, Run(v, FRESH, rs).log[..cut], q.clock).ending == Synced
    ensures SafeToAppend(v, Reborn(v, Run(v, FRESH, rs).log[..cut], q.clock), p, plain) <==> IsBoundary(v, rs, cut)
  {
    PlainRunIsGood(v, FRESH, rs, NOTHING, q, plain);
    var j := CrashRecovers(v, FRESH, rs, NOTHING, cut, q);
    PrefixOfLog(v, FRESH, rs, j);
    if cut == |Run(v, FRESH, rs[..j]).log| {
      assert Run(v, FRESH, rs).log[..cut] == Run(v, FRESH, rs[..j]).log;
      PrefixIsPlain(v, FRESH, rs, j, plain);
      BoundaryIsSafe(v, rs[..j], q, p, plain);
    } else {
      assert rs[..|rs|] == rs;
      InsideIsNoBoundary(v, rs, j, cut);
      CutIsUnsafe(v, rs, j, cut, q, p, plain);
    }
  }
}
