/**
 * The state of the store and what each store operation does to it.
 *
 * Expiry is lazy: an expired key stays in `data` until something removes it, and an entry of `expiry`
 * may outlive its key. `Lookup` is the view most operations take; a few look at the physical maps.
 */
module Database {
  import opened Bytes

  type Key = Bytes

  /** Nanoseconds on one clock. */
  type Time = nat

  datatype StoreValue = Str(text: Bytes) | List(items: seq<Bytes>) | Set(members: set<Bytes>)

  datatype Db = Db(data: map<Key, StoreValue>, expiry: map<Key, Time>)

  const EMPTY := Db(map[], map[])

  datatype StoreError = WrongType | OutOfIndex | NoSuchKey

  datatype Result<+T> = Success(value: T) | Failure(error: StoreError)

  // ----- Views -----

  predicate Expired(db: Db, key: Key, now: Time) {
    key in db.expiry && now >= db.expiry[key]
  }

  predicate Live(db: Db, key: Key, now: Time) {
    key in db.data && !Expired(db, key, now)
  }

  function Lookup(db: Db, key: Key, now: Time): Option<StoreValue> {
    if Live(db, key, now) then Some(db.data[key]) else None
  }

  // ----- Whole keys -----

  /** Overwrites `key` and clears its deadline. */
  function Put(db: Db, key: Key, value: StoreValue): Db {
    Db(db.data[key := value], db.expiry - {key})
  }

  /** Changes the value of `key` and keeps its deadline. */
  function Update(db: Db, key: Key, value: StoreValue): Db {
    db.(data := db.data[key := value])
  }

  function Remove(db: Db, keys: set<Key>): Db {
    Db(db.data - keys, db.expiry - keys)
  }

  function SetTtl(db: Db, key: Key, deadline: Time): Db {
    if key in db.data then db.(expiry := db.expiry[key := deadline]) else db
  }

  function GetDel(db: Db, key: Key, now: Time): Db {
    if Expired(db, key, now) then db else Remove(db, {key})
  }

  function MSet(db: Db, items: seq<(Key, Bytes)>): Db {
    if items == [] then db
    else Put(MSet(db, items[..|items| - 1]), items[|items| - 1].0, Str(items[|items| - 1].1))
  }

  // ----- Lists -----

  datatype End = Front | Back

  function PushTo(items: seq<Bytes>, element: Bytes, end: End): seq<Bytes> {
    if end.Front? then [element] + items else items + [element]
  }

  function Reverse(s: seq<Bytes>): (r: seq<Bytes>)
    ensures |r| == |s|
    ensures forall i :: 0 <= i < |s| ==> r[i] == s[|s| - 1 - i]
  {
    seq(|s|, i requires 0 <= i < |s| => s[|s| - 1 - i])
  }

  function Min(a: nat, b: nat): nat {
    if a < b then a else b
  }

  /** The elements `count` pops return, in order. */
  function Popped(items: seq<Bytes>, count: nat, end: End): seq<Bytes> {
    var n := Min(count, |items|);
    if end.Front? then items[..n] else Reverse(items[|items| - n..])
  }

  /** The elements `count` pops leave. */
  function Unpopped(items: seq<Bytes>, count: nat, end: End): seq<Bytes> {
    var n := Min(count, |items|);
    if end.Front? then items[n..] else items[..|items| - n]
  }

  function Push(db: Db, key: Key, element: Bytes, create: bool, end: End, now: Time): (Db, Result<nat>) {
    match Lookup(db, key, now)
    case None => if create then (Put(db, key, List([element])), Success(1)) else (db, Success(0))
    case Some(List(items)) => (Update(db, key, List(PushTo(items, element, end))), Success(|items| + 1))
    case Some(_) => (db, Failure(WrongType))
  }

  /** An emptied list is removed, but its entry in `expiry` stays. */
  function Pop(db: Db, key: Key, count: nat, end: End, now: Time): (Db, Result<Option<seq<Bytes>>>) {
    match Lookup(db, key, now)
    case None => (db, Success(None))
    case Some(List(items)) =>
      var rest := Unpopped(items, count, end);
      var db' := if rest == [] then db.(data := db.data - {key}) else Update(db, key, List(rest));
      (db', Success(Some(Popped(items, count, end))))
    case Some(_) => (db, Failure(WrongType))
  }

  /** Resolves a negative index against the length; `None` when it falls before the first element. */
  function ResolveIndex(index: int, length: nat): Option<nat> {
    if index >= 0 then Some(index)
    else if -index > length then None
    else Some(length + index)
  }

  function LSet(db: Db, key: Key, index: int, element: Bytes, now: Time): (Db, Result<()>) {
    match Lookup(db, key, now)
    case None => (db, Failure(NoSuchKey))
    case Some(List(items)) =>
      var i := ResolveIndex(index, |items|);
      if i.None? || i.value >= |items| then (db, Failure(OutOfIndex))
      else (Update(db, key, List(items[i.value := element])), Success(()))
    case Some(_) => (db, Failure(WrongType))
  }

  function LLen(db: Db, key: Key, now: Time): Result<nat> {
    match Lookup(db, key, now)
    case None => Success(0)
    case Some(List(items)) => Success(|items|)
    case Some(_) => Failure(WrongType)
  }

  function LIndex(db: Db, key: Key, index: int, now: Time): Result<Option<Bytes>> {
    match Lookup(db, key, now)
    case None => Success(None)
    case Some(List(items)) =>
      var i := ResolveIndex(index, |items|);
      Success(if i.Some? && i.value < |items| then Some(items[i.value]) else None)
    case Some(_) => Failure(WrongType)
  }

  function Slice(items: seq<Bytes>, start: int, stop: int): seq<Bytes> {
    var n := |items|;
    if n == 0 then []
    else
      var first := if start < 0 then (if start + n < 0 then 0 else start + n) else start;
      var last := if stop < 0 then stop + n else stop;
      if first > last || first >= n then []
      else
        var last := if last < n - 1 then last else n - 1;
        items[first..last + 1]
  }

  function LRange(db: Db, key: Key, start: int, stop: int, now: Time): Result<seq<Bytes>> {
    match Lookup(db, key, now)
    case None => Success([])
    case Some(List(items)) => Success(Slice(items, start, stop))
    case Some(_) => Failure(WrongType)
  }

  // ----- Sets -----

  function ToSet(s: seq<Bytes>): set<Bytes> {
    set x | x in s
  }

  function SAdd(db: Db, key: Key, members: seq<Bytes>, now: Time): (Db, Result<nat>) {
    match Lookup(db, key, now)
    case None => (Put(db, key, Set(ToSet(members))), Success(|ToSet(members)|))
    case Some(Set(s)) => (Update(db, key, Set(s + ToSet(members))), Success(|ToSet(members) - s|))
    case Some(_) => (db, Failure(WrongType))
  }

  /** The set stays, even if it is left empty. */
  function SRem(db: Db, key: Key, members: seq<Bytes>, now: Time): (Db, Result<nat>) {
    match Lookup(db, key, now)
    case None => (db, Success(0))
    case Some(Set(s)) => (Update(db, key, Set(s - ToSet(members))), Success(|s * ToSet(members)|))
    case Some(_) => (db, Failure(WrongType))
  }

  function SMembers(db: Db, key: Key, now: Time): Result<set<Bytes>> {
    match Lookup(db, key, now)
    case None => Success({})
    case Some(Set(s)) => Success(s)
    case Some(_) => Failure(WrongType)
  }

  /** Takes `member` out of the set at `source`, which goes away when emptied. */
  function TakeMember(db: Db, source: Key, s: set<Bytes>, member: Bytes): Db {
    if s - {member} == {} then Remove(db, {source}) else Update(db, source, Set(s - {member}))
  }

  function SMove(db: Db, source: Key, destination: Key, member: Bytes, now: Time): (Db, Result<bool>) {
    match Lookup(db, source, now)
    case None => (db, Success(false))
    case Some(Set(s)) =>
      var target := Lookup(db, destination, now);
      if target.Some? && !target.value.Set? then (db, Failure(WrongType))
      else if member !in s then (db, Success(false))
      else
        var taken := TakeMember(db, source, s, member);
        var target := Lookup(taken, destination, now);
        var moved :=
          if target.Some? && target.value.Set?
          then Update(taken, destination, Set(target.value.members + {member}))
          else Put(taken, destination, Set({member}));
        (moved, Success(true))
    case Some(_) => (db, Failure(WrongType))
  }

  /** What the sampler draws from the set at `key`. */
  function Drawn(db: Db, key: Key, draw: (set<Bytes>, nat) -> set<Bytes>, amount: nat, now: Time): set<Bytes> {
    match Lookup(db, key, now)
    case Some(Set(s)) => draw(s, amount)
    case _ => {}
  }

  /** `drawn` is what the random sampler picked. */
  function SPop(db: Db, key: Key, drawn: set<Bytes>, now: Time): (Db, Result<Option<set<Bytes>>>) {
    match Lookup(db, key, now)
    case None => (db, Success(None))
    case Some(Set(s)) =>
      var db' := if s - drawn == {} then Remove(db, {key}) else Update(db, key, Set(s - drawn));
      (db', Success(Some(drawn)))
    case Some(_) => (db, Failure(WrongType))
  }

  // ----- Strings -----

  function GetString(db: Db, key: Key, now: Time): Result<Option<Bytes>> {
    match Lookup(db, key, now)
    case None => Success(None)
    case Some(Str(s)) => Success(Some(s))
    case Some(_) => Failure(WrongType)
  }

  function MGet(db: Db, keys: seq<Key>, now: Time): seq<Option<Bytes>> {
    seq(|keys|, i requires 0 <= i < |keys| =>
      var r := GetString(db, keys[i], now);
      if r.Success? then r.value else None)
  }
}
