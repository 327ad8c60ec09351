/** What a client gets for what it asks. The modules about requests tell it in plain contents, word by word. */
module Requests {
  import opened Bytes
  import opened Resp2
  import opened Resp2Streams
  import opened Database
  import opened Execution
  import opened Words
  import C = Command

  /** What comes of a request with some arguments: the new store, and the reply. */
  type Asking = (Db, seq<Bytes>, Env) -> Outcome

  /** The server, as a client meets it. */
  ghost const SERVED: Asking := (db, args, env) => Answer(db, args, env)

  ghost function Answer(db: Db, args: seq<Bytes>, env: Env): Outcome {
    match C.FromResp2(Request(args))
    case Parsed(c) => Exec(db, c, env)
    case Rejected(_) => Outcome(db, Value(SimpleError("ERR")))
    case Crash => Outcome(db, Panics)
  }

  /** Whoever asks in the words of the protocol gets what the command does. */
  ghost predicate Obeys(ask: Asking) {
    forall db, c, env: Env :: Sayable(c) ==> ask(db, Saying(c), env) == Exec(db, c, env)
  }

  /** The server does: everything the modules about requests say is said of it. */
  lemma ServerObeys()
    ensures Obeys(SERVED)
  {
    forall db, c, env: Env | Sayable(c) ensures SERVED(db, Saying(c), env) == Exec(db, c, env) {
      Understood(c);
    }
  }

  // ----- What is there -----

  /** The first time the server's clock cannot hold, in nanoseconds. */
  const END_OF_TIME: nat := 9_223_372_036_854_775_808_000_000_000

  /** The key holds the value, and its deadline, if any, is still to come. */
  predicate Has(db: Db, key: Key, now: Time, v: StoreValue) {
    key in db.data && db.data[key] == v && (key in db.expiry ==> now < db.expiry[key])
  }

  /** The key is not stored, or its deadline has been reached. */
  predicate Lacks(db: Db, key: Key, now: Time) {
    key !in db.data || (key in db.expiry && db.expiry[key] <= now)
  }

  predicate IsError(reply: Reply) {
    reply.Value? && reply.value.SimpleError?
  }

  /** The answer is an error, and nothing has changed. */
  predicate Refused(db: Db, o: Outcome) {
    o.db == db && IsError(o.reply)
  }

  /** The same value and the same entry of the index at the key. */
  predicate SameAt(a: Db, b: Db, key: Key) {
    && (key in a.data <==> key in b.data) && (key in a.data ==> a.data[key] == b.data[key])
    && (key in a.expiry <==> key in b.expiry) && (key in a.expiry ==> a.expiry[key] == b.expiry[key])
  }
}
