/** What the restart makes of each value in the log, and how it ends. */
module LogReplay {
  import opened Bytes
  import opened Resp2
  import opened Database
  import opened Execution
  import opened Journal
  import opened Aof
  import C = Command

  lemma ReplayOk(db: Db, v: RespValue, log: Bytes, rest: Bytes, clock: nat -> Env, i: nat)
    requires Decode(log) == Ok(v, rest)
    ensures var r := SERVER.react(db, v, clock(i));
      Replay(SERVER, db, log, clock, i) == if r.up then Replay(SERVER, r.db, rest, clock, i + 1) else Restart(r.db, Panicked)
  {
  }

  /** A command is executed, with the clock as it is read for that entry; one that panics keeps the server from starting. */
  lemma CommandReplayed(db: Db, v: RespValue, c: C.Command, rest: Bytes, clock: nat -> Env, i: nat)
    requires WellTyped(v) && OneLiners(v) && C.FromResp2(v) == C.Parsed(c)
    ensures var o := Exec(db, c, clock(i));
      Replay(SERVER, db, Encode(v) + rest, clock, i) ==
        if o.reply == Panics then Restart(o.db, Panicked) else Replay(SERVER, o.db, rest, clock, i + 1)
  {
    DecodeEncode(v, rest);
    ReplayOk(db, v, Encode(v) + rest, rest, clock, i);
    ServerReacts(db, v, c, clock(i));
  }

  /** A value that is no command is skipped, but an empty array keeps the server from starting. */
  lemma OtherReplayed(db: Db, v: RespValue, rest: Bytes, clock: nat -> Env, i: nat)
    requires WellTyped(v) && OneLiners(v) && !C.FromResp2(v).Parsed?
    ensures Replay(SERVER, db, Encode(v) + rest, clock, i) ==
      if v == Array([]) then Restart(db, Panicked) else Replay(SERVER, db, rest, clock, i + 1)
  {
    DecodeEncode(v, rest);
    ReplayOk(db, v, Encode(v) + rest, rest, clock, i);
    CrashesOnEmpty(v);
  }

  lemma CrashesOnEmpty(v: RespValue)
    ensures C.FromResp2(v).Crash? <==> v == Array([])
  {
    if v == Array([]) {
      assert C.Arguments(v).value == [];
    }
    if C.Arguments(v).Some? && C.Arguments(v).value != [] {
      NeverCrashes(C.Arguments(v).value);
    }
  }

  lemma {:induction false} ScanNeverCrashes(tokens: seq<Bytes>, acc: C.SetOptions)
    ensures !C.ScanOptions(tokens, acc).Crash?
    decreases |tokens|
  {
    if tokens != [] && C.ScanOne(tokens, acc).Parsed? {
      var next := C.ScanOne(tokens, acc).value;
      ScanNeverCrashes(tokens[next.1..], next.0);
    }
  }

  lemma SetNeverCrashes(args: seq<Bytes>)
    ensures !C.ParseSet(args).Crash?
  {
    if |args| >= 3 {
      ScanNeverCrashes(args[3..], C.NO_OPTIONS);
    }
  }

  lemma SetWordsNeverCrash(args: seq<Bytes>)
    requires args != []
    ensures !C.ParseSetArguments(args).Crash?
  {
    assert !C.ParseExpiryArguments(args).Crash?;
  }

  lemma ListWordsNeverCrash(args: seq<Bytes>)
    requires args != []
    ensures !C.ParseListArguments(args).Crash?
  {
    SetWordsNeverCrash(args);
  }

  lemma ServerWordsNeverCrash(args: seq<Bytes>)
    requires args != []
    ensures !C.ParseServerArguments(args).Crash?
  {
    ListWordsNeverCrash(args);
  }

  lemma NeverCrashes(args: seq<Bytes>)
    requires args != []
    ensures !C.ParseArguments(args).Crash?
  {
    SetNeverCrashes(args);
    ServerWordsNeverCrash(args);
  }

  /** The end of the log is where it ends or breaks off; any other error keeps the server from starting. */
  lemma ReplayEndings(db: Db, log: Bytes, clock: nat -> Env, i: nat)
    ensures Decode(log) == Err(UnexpectedEof) ==> Replay(SERVER, db, log, clock, i) == Restart(db, Synced)
    ensures Decode(log).Err? && Decode(log).error != UnexpectedEof ==>
      Replay(SERVER, db, log, clock, i) == Restart(db, Failed(Decode(log).error))
    ensures Decode(log).Panic? ==> Replay(SERVER, db, log, clock, i) == Restart(db, Panicked)
  {
  }
}
