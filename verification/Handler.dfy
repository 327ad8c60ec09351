/** The connection handler, the log writer and the replay at startup, as they run. */
module Handler {
  import opened Bytes
  import opened Resp2
  import opened Resp2Reader
  import opened Execution
  import opened Journal
  import opened Aof
  import C = Command
  import E = Executor

  class AofWriter {
    /** The bytes on disk. */
    var log: Bytes

    constructor (log: Bytes)
      ensures this.log == log
    {
      this.log := log;
    }

    method Append(bytes: Bytes)
      modifies this
      ensures log == old(log) + bytes
    {
      log := log + bytes;
    }
  }

  class Handler {
    const reader: Reader
    const executor: E.Executor
    const aof: AofWriter

    constructor (reader: Reader, executor: E.Executor, aof: AofWriter)
      ensures this.reader == reader && this.executor == executor && this.aof == aof
    {
      this.reader, this.executor, this.aof := reader, executor, aof;
    }

    /** Serves requests until the stream ends, a request is malformed, or the handler goes down. */
    method RunHandler(clock: nat -> Env)
      modifies reader, executor.store, aof
      ensures
        var start := Session(old(executor.store.View()), old(aof.log), true);
        var end := Run(SERVER, start, Requests(old(reader.input), clock, 0));
        executor.store.View() == end.db && aof.log == end.log
    {
      ghost var start := Session(executor.store.View(), aof.log, true);
      ghost var end := Serving(SERVER, start, reader.input, clock, 0);
      ServingIsRun(SERVER, start, reader.input, clock, 0);
      var i := 0;
      while true
        invariant Serving(SERVER, Session(executor.store.View(), aof.log, true), reader.input, clock, i) == end
        decreases |reader.input|
      {
        var next := reader.DecodeNext();
        if !next.Value? {
          break;
        }
        var alive := Serve(next.value, clock(i));
        if !alive {
          break;
        }
        i := i + 1;
      }
    }

    /** One request: parse it, execute it, and append it to the log if it was a write that took effect. */
    method Serve(value: RespValue, env: Env) returns (alive: bool)
      modifies executor.store, aof
      ensures Session(executor.store.View(), aof.log, alive) ==
        Step(SERVER, Session(old(executor.store.View()), old(aof.log), true), Incoming(value, env))
    {
      ghost var before := Session(executor.store.View(), aof.log, true);
      ServerServes(before, Incoming(value, env));
      assert aof.log + [] == aof.log;
      var cmd := C.FromResp2(value);
      if cmd.Rejected? {
        return true;
      }
      if cmd.Crash? {
        return false;
      }
      var reply := executor.Execute(cmd.value, env);
      if reply.Panics? {
        return false;
      }
      if C.IsWrite(cmd.value) && !(reply.Value? && reply.value.SimpleError?) && reply != Number(0) {
        var bytes := EncodeValue(Entry(cmd.value, value, env.now));
        aof.Append(bytes);
      }
      alive := true;
    }
  }

  /** Applies one entry of the log. */
  method ApplyEntry(executor: E.Executor, value: RespValue, env: Env) returns (up: bool)
    modifies executor.store
    ensures Reaction(executor.store.View(), up) == SERVER.react(old(executor.store.View()), value, env)
  {
    var cmd := C.FromResp2(value);
    if cmd.Crash? {
      return false;
    }
    up := true;
    if cmd.Parsed? {
      var reply := executor.Execute(cmd.value, env);
      up := !reply.Panics?;
    }
  }

  /** Rebuilds the store from the log, entry by entry. */
  method SyncStoreWithAof(reader: Reader, executor: E.Executor, clock: nat -> Env) returns (ending: Ending)
    modifies reader, executor.store
    ensures Restart(executor.store.View(), ending) == Replay(SERVER, old(executor.store.View()), old(reader.input), clock, 0)
  {
    ghost var goal := Replay(SERVER, executor.store.View(), reader.input, clock, 0);
    var i := 0;
    while true
      invariant Replay(SERVER, executor.store.View(), reader.input, clock, i) == goal
      decreases |reader.input|
    {
      var next := reader.DecodeNext();
      if next.Failure? {
        return if next.error == UnexpectedEof then Synced else Failed(next.error);
      }
      if next.Panicked? {
        return Ending.Panicked;
      }
      var up := ApplyEntry(executor, next.value, clock(i));
      if !up {
        return Ending.Panicked;
      }
      i := i + 1;
    }
  }
}
