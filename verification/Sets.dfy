/** Set commands: members are moved, never lost. */
module Sets {
  import opened Bytes
  import opened Database
  import opened Execution

  /** The members clients see at `key`. */
  function MembersAt(db: Db, key: Key, now: Time): set<Bytes> {
    match Lookup(db, key, now)
    case Some(Set(s)) => s
    case _ => {}
  }

  predicate HoldsSet(db: Db, key: Key, now: Time) {
    var v := Lookup(db, key, now);
    v.Some? && v.value.Set?
  }

  /** A move happens exactly when the member is there to move and the destination can take it; else nothing changes. */
  lemma SMoveSucceeds(db: Db, source: Key, destination: Key, member: Bytes, now: Time)
    ensures var (db', r) := SMove(db, source, destination, member, now);
      && (r == Success(true) <==>
          member in MembersAt(db, source, now) && (Live(db, destination, now) ==> HoldsSet(db, destination, now)))
      && (r != Success(true) ==> db' == db)
  {
  }

  lemma SMoveBetween(db: Db, source: Key, destination: Key, member: Bytes, now: Time)
    requires source != destination && SMove(db, source, destination, member, now).1 == Success(true)
    ensures var db' := SMove(db, source, destination, member, now).0;
      var before := MembersAt(db, source, now);
      && MembersAt(db', source, now) == before - {member}
      && (source !in db'.data <==> before == {member})
      && MembersAt(db', destination, now) == MembersAt(db, destination, now) + {member}
      && HoldsSet(db', destination, now)
  {
    var s := MembersAt(db, source, now);
    var taken := TakeMember(db, source, s, member);
    assert Lookup(taken, destination, now) == Lookup(db, destination, now);
    assert s == {member} <==> s - {member} == {};
  }

  /** Moving a member onto its own set keeps the set, though a lone member's set loses its deadline. */
  lemma SMoveOnto(db: Db, key: Key, member: Bytes, now: Time)
    requires SMove(db, key, key, member, now).1 == Success(true)
    ensures var db' := SMove(db, key, key, member, now).0;
      && MembersAt(db', key, now) == MembersAt(db, key, now)
      && PrevTtl(db', key) == if MembersAt(db, key, now) == {member} then None else PrevTtl(db, key)
  {
    var s := MembersAt(db, key, now);
    assert s - {member} + {member} == s;
    assert s == {member} <==> s - {member} == {};
  }

  /** A successful SMOVE conserves the members of the two sets and touches no other key. */
  lemma SMoveConserves(db: Db, source: Key, destination: Key, member: Bytes, now: Time)
    requires SMove(db, source, destination, member, now).1 == Success(true)
    ensures var db' := SMove(db, source, destination, member, now).0;
      && MembersAt(db', source, now) + MembersAt(db', destination, now) ==
         MembersAt(db, source, now) + MembersAt(db, destination, now)
      && member in MembersAt(db', destination, now)
      && db'.data - {source, destination} == db.data - {source, destination}
      && db'.expiry - {source, destination} == db.expiry - {source, destination}
  {
    if source == destination {
      SMoveOnto(db, source, member, now);
    } else {
      SMoveBetween(db, source, destination, member, now);
    }
    var taken := TakeMember(db, source, MembersAt(db, source, now), member);
    assert taken.data - {source, destination} == db.data - {source, destination};
    assert taken.expiry - {source, destination} == db.expiry - {source, destination};
  }

  /** SPOP splits the set into what it returns and what it leaves, and removes a set it empties. */
  lemma SPopConserves(db: Db, key: Key, amount: nat, env: Env)
    requires ValidSampler(env.draw) && HoldsSet(db, key, env.now)
    ensures var drawn := Drawn(db, key, env.draw, amount, env.now);
      var (db', r) := SPop(db, key, drawn, env.now);
      && r == Success(Some(drawn))
      && |drawn| == Min(amount, |MembersAt(db, key, env.now)|)
      && drawn !! MembersAt(db', key, env.now)
      && drawn + MembersAt(db', key, env.now) == MembersAt(db, key, env.now)
      && (key in db'.data <==> MembersAt(db', key, env.now) != {})
  {
    var s := MembersAt(db, key, env.now);
    assert env.draw(s, amount) <= s;
  }

  /** SADD counts the members it really adds, whatever is repeated. */
  lemma SAddCounts(db: Db, key: Key, members: seq<Bytes>, now: Time)
    requires Live(db, key, now) ==> HoldsSet(db, key, now)
    ensures var (db', r) := SAdd(db, key, members, now);
      && HoldsSet(db', key, now)
      && MembersAt(db', key, now) == MembersAt(db, key, now) + ToSet(members)
      && r == Success(|MembersAt(db', key, now)| - |MembersAt(db, key, now)|)
  {
    var before, ms := MembersAt(db, key, now), ToSet(members);
    assert before + ms == before + (ms - before);
    assert |before + (ms - before)| == |before| + |ms - before|;
    if !Live(db, key, now) {
      assert ms - {} == ms;
    }
  }

  /** SREM counts the members it really removes, and leaves the set in place even when it empties it. */
  lemma SRemCounts(db: Db, key: Key, members: seq<Bytes>, now: Time)
    requires HoldsSet(db, key, now)
    ensures var (db', r) := SRem(db, key, members, now);
      && HoldsSet(db', key, now)
      && MembersAt(db', key, now) == MembersAt(db, key, now) - ToSet(members)
      && r == Success(|MembersAt(db, key, now)| - |MembersAt(db', key, now)|)
  {
    var before, ms := MembersAt(db, key, now), ToSet(members);
    assert before == (before - ms) + (before * ms);
    assert |before| == |before - ms| + |before * ms|;
  }
}
