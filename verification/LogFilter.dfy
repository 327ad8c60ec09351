/** What gets into the log: the requests it leaves out, and the one entry each of the others appends. */
module LogFilter {
  import opened Bytes
  import opened Decimal
  import opened Resp2
  import opened Resp2Streams
  import opened Database
  import opened Execution
  import opened Journal
  import opened Aof
  import opened Requests
  import C = Command
  import D = Deadlines
  import R = Recovery

  /** The commands that only look. */
  predicate ReadsOnly(c: C.Command) {
    c.Ping? || c.Get? || c.Exists? || c.MGet? || c.StrLen? || c.Digest? || c.Keys? || c.Select? || c.DbSize?
    || c.LLen? || c.LIndex? || c.LRange? || c.SMembers? || c.SIsMember? || c.SMIsMember? || c.SRandMember? || c.SCard?
    || c.Ttl? || c.PTtl? || c.ExpireTime? || c.PExpireTime?
  }

  /** What the server leaves in the store after a request is what its client was told of. */
  lemma ServedAnswer(db: Db, args: seq<Bytes>, env: Env)
    ensures Serve(db, Incoming(Request(args), env)).db == SERVED(db, args, env).db
    ensures Serve(db, Incoming(Request(args), env)).up <==> SERVED(db, args, env).reply != Panics
  {
  }

  /** Not in the log: what only looks, LSET, and whatever is answered with an error or 0, or brings the handler down. */
  ghost predicate LeftOut(c: C.Command, reply: Reply) {
    ReadsOnly(c) || c.LSet? || IsError(reply) || reply == Value(Integer(0)) || reply == Panics
  }

  /** The deadline the log keeps of one counted from now, in milliseconds: the product saturates, the sum wraps. */
  function KeptDeadline(now: Time, n: nat, factor: nat): nat {
    var millis := if n * factor >= 0x1_0000_0000_0000_0000 then 0xFFFF_FFFF_FFFF_FFFF else n * factor;
    (now / 1_000_000 + millis) % 0x1_0000_0000_0000_0000
  }

  /** What the log keeps of a request: the client's own, except that EXPIRE and PEXPIRE become absolute. */
  function Kept(c: C.Command, v: RespValue, now: Time): RespValue {
    match c
    case Expire(key, n) => Request(["PEXPIREAT", key, DecimalText(KeptDeadline(now, n, 1000))])
    case PExpire(key, n) => Request(["PEXPIREAT", key, DecimalText(KeptDeadline(now, n, 1))])
    case _ => v
  }

  lemma SumWraps(x: nat, y: nat, m: nat)
    requires m > 0
    ensures (x % m + y) % m == (x + y) % m
  {
    assert x == (x / m) * m + x % m;
    D.Division(x + y, m, x / m + (x % m + y) / m, (x % m + y) % m);
  }

  lemma KeptIsLogged(now: Time, n: nat, factor: nat)
    ensures KeptDeadline(now, n, factor) == R.LoggedDeadline(now, n, factor)
  {
    SumWraps(now / 1_000_000, if n * factor >= R.TWO_64 then U64_MAX else n * factor, R.TWO_64);
  }

  lemma KeptRequest(key: Key, deadline: nat)
    ensures Request(["PEXPIREAT", key, DecimalText(deadline)]) == PExpireAtEntry(key, deadline)
  {
  }

  lemma KeptIsEntry(c: C.Command, v: RespValue, now: Time)
    ensures Kept(c, v, now) == Entry(c, v, now)
  {
    if c.Expire? {
      var Expire(key, n) := c;
      KeptIsLogged(now, n, 1000);
      KeptRequest(key, KeptDeadline(now, n, 1000));
    } else if c.PExpire? {
      var PExpire(key, n) := c;
      KeptIsLogged(now, n, 1);
      KeptRequest(key, KeptDeadline(now, n, 1));
    }
  }

  lemma WritesDoNotRead(c: C.Command)
    ensures C.IsWrite(c) <==> !ReadsOnly(c) && !c.LSet?
  {
  }

  lemma LeftOutIsUnlogged(c: C.Command, reply: Reply)
    ensures R.Logged(c, reply) <==> !LeftOut(c, reply)
  {
    WritesDoNotRead(c);
  }

  lemma ParsedLogged(s: Session, v: RespValue, c: C.Command, env: Env)
    requires s.alive && C.FromResp2(v) == C.Parsed(c)
    ensures Step(SERVER, s, Incoming(v, env)).log ==
      s.log + if LeftOut(c, Exec(s.db, c, env).reply) then [] else Encode(Kept(c, v, env.now))
  {
    var r, reply := Incoming(v, env), Exec(s.db, c, env).reply;
    ServerServes(s, r);
    ServesParsed(s.db, r, c);
    LeftOutIsUnlogged(c, reply);
    KeptIsEntry(c, v, env.now);
  }

  /** What one turn appends: nothing for an eviction or a request that is not understood or left out. */
  ghost function Appended(s: Session, r: Turn): Bytes {
    if !s.alive || r.Deletion? || !C.FromResp2(r.value).Parsed? then []
    else
      var c := C.FromResp2(r.value).value;
      if LeftOut(c, Exec(s.db, c, r.env).reply) then [] else Encode(Kept(c, r.value, r.env.now))
  }

  /** One turn appends that and no more. */
  lemma TurnLogged(s: Session, r: Turn)
    ensures Step(SERVER, s, r).log == s.log + Appended(s, r)
  {
    if s.alive {
      if r.Incoming? && C.FromResp2(r.value).Parsed? {
        ParsedLogged(s, r.value, C.FromResp2(r.value).value, r.env);
      } else {
        ServerServes(s, r);
        NothingServed(s.db, r);
      }
    } else {
      assert s.log + [] == s.log;
    }
  }

  lemma NothingServed(db: Db, r: Turn)
    requires r.Deletion? || !C.FromResp2(r.value).Parsed?
    ensures Serve(db, r).entry == []
  {
    if r.Incoming? {
      ServesOther(db, r);
    }
  }

  /** A turn changes the store as its command does, and ends the session where the command panics or there is no command. */
  lemma TurnServed(s: Session, r: Turn)
    requires s.alive
    ensures var s' := Step(SERVER, s, r);
      match r
      case Deletion(keys) => s'.db == Db(s.db.data - keys, s.db.expiry - keys) && s'.alive
      case Incoming(v, env) =>
        match C.FromResp2(v)
        case Parsed(c) => s'.db == Exec(s.db, c, env).db && (s'.alive <==> Exec(s.db, c, env).reply != Panics)
        case Rejected(_) => s'.db == s.db && s'.alive
        case Crash => s'.db == s.db && !s'.alive
  {
    ServerServes(s, r);
  }

  /** What the turns of a run append, one after the other. */
  ghost function AllAppended(s: Session, rs: seq<Turn>): Bytes {
    if rs == [] then []
    else
      var n := |rs| - 1;
      AllAppended(s, rs[..n]) + Appended(Run(SERVER, s, rs[..n]), rs[n])
  }

  /** The log of a run is what its turns append, in their order, and nothing else. */
  lemma {:induction false} RunLogged(s: Session, rs: seq<Turn>)
    ensures Run(SERVER, s, rs).log == s.log + AllAppended(s, rs)
  {
    if rs == [] {
      assert s.log + [] == s.log;
    } else {
      var n := |rs| - 1;
      RunLogged(s, rs[..n]);
      LastLogged(s, rs[..n], rs[n]);
      assert rs[..n] + [rs[n]] == rs;
      Associate(s.log, AllAppended(s, rs[..n]), Appended(Run(SERVER, s, rs[..n]), rs[n]));
    }
  }

  lemma LastLogged(s: Session, rs: seq<Turn>, r: Turn)
    ensures Run(SERVER, s, rs + [r]).log == Run(SERVER, s, rs).log + Appended(Run(SERVER, s, rs), r)
  {
    assert (rs + [r])[..|rs|] == rs;
    TurnLogged(Run(SERVER, s, rs), r);
  }

  /** In particular a run of reads, refused writes and evictions leaves the log as it was. */
  lemma {:induction false} QuietRun(s: Session, rs: seq<Turn>)
    requires forall i :: 0 <= i < |rs| ==> Appended(Run(SERVER, s, rs[..i]), rs[i]) == []
    ensures Run(SERVER, s, rs).log == s.log
  {
    RunLogged(s, rs);
    NothingAppended(s, rs);
  }

  lemma {:induction false} NothingAppended(s: Session, rs: seq<Turn>)
    requires forall i :: 0 <= i < |rs| ==> Appended(Run(SERVER, s, rs[..i]), rs[i]) == []
    ensures AllAppended(s, rs) == []
  {
    if rs != [] {
      var n := |rs| - 1;
      forall i | 0 <= i < n ensures Appended(Run(SERVER, s, rs[..n][..i]), rs[..n][i]) == [] {
        assert rs[..n][..i] == rs[..i];
      }
      NothingAppended(s, rs[..n]);
    }
  }
}
