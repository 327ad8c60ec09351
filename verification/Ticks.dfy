/** The eviction daemon over time: what its ticks may do, and how soon they have emptied the index. */
module Ticks {
  import opened Database

  /** The entries one tick looks at: 20 of the index, or all there are. */
  ghost predicate IsSample(sample: set<Key>, index: map<Key, Time>) {
    sample <= index.Keys && |sample| == if |index| < 20 then |index| else 20
  }

  /** The sampled entries whose deadline has been reached. */
  ghost function Due(sample: set<Key>, index: map<Key, Time>, now: Time): set<Key> {
    set k | k in sample && k in index && index[k] <= now
  }

  /** The entries of the index that are still to come. */
  ghost function Pending(index: map<Key, Time>, now: Time): set<Key> {
    set k | k in index && now < index[k]
  }

  /** These are the keys one tick takes: for some sample, those of its keys whose deadline has been reached. */
  ghost predicate TakenBySample(gone: set<Key>, index: map<Key, Time>, now: Time) {
    exists sample :: IsSample(sample, index) && gone == Due(sample, index, now)
  }

  /** The store after ticks that take these batches of keys. */
  function AfterTicks(db: Db, batches: seq<seq<Key>>): Db {
    if batches == [] then db
    else Remove(AfterTicks(db, batches[..|batches| - 1]), ToSet(batches[|batches| - 1]))
  }

  /** Each batch is what a tick at its time takes. */
  ghost predicate AreTicks(db: Db, batches: seq<seq<Key>>, times: seq<Time>)
    requires |batches| == |times|
  {
    batches == [] || (
      var n := |batches| - 1;
      && AreTicks(db, batches[..n], times[..n])
      && TakenBySample(ToSet(batches[n]), AfterTicks(db, batches[..n]).expiry, times[n]))
  }

  /** Every deadline in the index has been reached at that time. */
  ghost predicate AllDue(index: map<Key, Time>, now: Time) {
    forall k :: k in index ==> index[k] <= now
  }

  lemma PartsSize(whole: set<Key>, part: set<Key>)
    requires part <= whole
    ensures |whole - part| == |whole| - |part|
  {
    assert whole == part + (whole - part);
    assert |part + (whole - part)| == |part| + |whole - part|;
  }

  lemma SampleParts(sample: set<Key>, index: map<Key, Time>, now: Time)
    requires sample <= index.Keys
    ensures |Due(sample, index, now)| + |Pending(index, now)| >= |sample|
    ensures Due(sample, index, now) <= sample
  {
    var due, pending := Due(sample, index, now), Pending(index, now);
    assert sample - due <= pending;
    PartsSize(sample, due);
    PartsSize(pending, sample - due);
  }

  lemma IndexLeft(index: map<Key, Time>, gone: set<Key>)
    requires gone <= index.Keys
    ensures |index - gone| == |index| - |gone|
  {
    assert (index - gone).Keys == index.Keys - gone;
    PartsSize(index.Keys, gone);
  }

  lemma PendingStays(index: map<Key, Time>, gone: set<Key>, now: Time)
    requires gone !! Pending(index, now)
    ensures Pending(index - gone, now) == Pending(index, now)
  {
  }

  /** One tick takes 20 entries of the index, or all there are, less at most those still to come; and it takes none of these. */
  lemma TickProgress(index: map<Key, Time>, gone: set<Key>, now: Time)
    requires TakenBySample(gone, index, now)
    ensures gone <= index.Keys && |gone| >= (if |index| < 20 then |index| else 20) - |Pending(index, now)|
    ensures |index - gone| == |index| - |gone| && Pending(index - gone, now) == Pending(index, now)
  {
    var sample :| IsSample(sample, index) && gone == Due(sample, index, now);
    SampleParts(sample, index, now);
    IndexLeft(index, gone);
    PendingStays(index, gone, now);
  }

  lemma TickOfDue(index: map<Key, Time>, gone: set<Key>, now: Time)
    requires TakenBySample(gone, index, now) && Pending(index, now) == {}
    ensures |index - gone| == if |index| < 20 then 0 else |index| - 20
  {
    var sample :| IsSample(sample, index) && gone == Due(sample, index, now);
    SampleParts(sample, index, now);
    PartsSize(sample, gone);
    IndexLeft(index, gone);
  }

  lemma NothingPending(index: map<Key, Time>, t: Time, now: Time)
    requires AllDue(index, t) && t <= now
    ensures Pending(index, now) == {}
  {
  }

  lemma LastTick(index: map<Key, Time>, gone: set<Key>, now: Time, t: Time)
    requires TakenBySample(gone, index, now) && AllDue(index, t) && t <= now
    ensures |index - gone| == Left(|index|, 1) && AllDue(index - gone, t)
  {
    NothingPending(index, t, now);
    TickOfDue(index, gone, now);
  }

  /** What is left of n entries when each tick takes 20. */
  function Left(n: nat, ticks: nat): nat {
    if n < 20 * ticks then 0 else n - 20 * ticks
  }

  /** Of n entries that have all been reached, every tick takes 20: the index is empty after n / 20 ticks, rounded up. */
  lemma {:induction false} TicksProgress(db: Db, batches: seq<seq<Key>>, times: seq<Time>, t: Time)
    requires |batches| == |times| && AreTicks(db, batches, times)
    requires AllDue(db.expiry, t) && forall i :: 0 <= i < |times| ==> t <= times[i]
    ensures var after := AfterTicks(db, batches); |after.expiry| == Left(|db.expiry|, |times|) && AllDue(after.expiry, t)
  {
    if batches != [] {
      var n := |batches| - 1;
      TicksProgress(db, batches[..n], times[..n], t);
      LastTick(AfterTicks(db, batches[..n]).expiry, ToSet(batches[n]), times[n], t);
    }
  }

  /** So the index is empty after that many ticks, and not before. */
  lemma EmptyAfter(db: Db, batches: seq<seq<Key>>, times: seq<Time>, t: Time)
    requires |batches| == |times| && AreTicks(db, batches, times)
    requires AllDue(db.expiry, t) && forall i :: 0 <= i < |times| ==> t <= times[i]
    ensures AfterTicks(db, batches).expiry == map[] <==> |times| >= (|db.expiry| + 19) / 20
  {
    TicksProgress(db, batches, times, t);
  }
}
