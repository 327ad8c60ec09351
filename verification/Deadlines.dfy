/** Absolute deadlines: what a Unix time becomes on the clock, and what is read back. */
module Deadlines {
  import opened Decimal
  import opened Database
  import opened Execution

  lemma Division(x: int, unit: int, q: int, r: int)
    requires unit > 0 && x == q * unit + r && 0 <= r < unit
    ensures x / unit == q && x % unit == r
  {
    var d := x / unit - q;
    assert x == (x / unit) * unit + x % unit;
    assert d * unit == r - x % unit;
    assert -unit < d * unit < unit;
    assert d > 0 ==> d * unit >= unit;
    assert d < 0 ==> d * unit <= -unit;
    assert d == 0;
  }

  /** A future Unix time keeps the clock's offset within the unit. */
  lemma InstantOf(deadline: nat, now: Time, unit: nat)
    requires unit > 0 && deadline > now / unit
    ensures UnixToInstant(deadline, now, unit) == deadline * unit + now % unit
    ensures UnixToInstant(deadline, now, unit) / unit == deadline
    ensures UnixToInstant(deadline, now, unit) % unit == now % unit
  {
    var q, r := now / unit, now % unit;
    assert now == q * unit + r;
    assert (deadline - q) * unit == deadline * unit - q * unit;
    Division(UnixToInstant(deadline, now, unit), unit, deadline, r);
  }

  /** EXPIREAT and PEXPIREAT install a deadline in the unit the client named. */
  lemma DeadlineWindow(db: Db, key: Key, now: Time, deadline: nat, unit: nat)
    requires unit > 0 && key in db.data && deadline > now / unit
    requires ExpireAtUnix(db, key, now, deadline, unit).reply != Panics
    ensures var db' := ExpireAtUnix(db, key, now, deadline, unit).db;
      && db'.data == db.data && key in db'.expiry
      && deadline * unit <= db'.expiry[key] < (deadline + 1) * unit
      && db'.expiry[key] / unit == deadline && db'.expiry[key] % unit == now % unit
  {
    InstantOf(deadline, now, unit);
  }

  /** The floors of two parts of a deadline lose at most one unit. */
  lemma SplitDeadline(d: Time, t: Time, unit: nat)
    requires unit > 0 && t <= d
    ensures t / unit + (d - t) / unit == d / unit - if t % unit > d % unit then 1 else 0
  {
    var q, r, p, s := d / unit, d % unit, t / unit, t % unit;
    assert d == q * unit + r && t == p * unit + s;
    assert (q - p) * unit == q * unit - p * unit;
    if s <= r {
      Division(d - t, unit, q - p, r - s);
    } else {
      assert (q - p - 1) * unit == (q - p) * unit - unit;
      Division(d - t, unit, q - p - 1, r - s + unit);
    }
  }

  /** EXPIRETIME reads an EXPIREAT deadline back as itself or one less, and says exactly when. */
  lemma ReadBack(db: Db, key: Key, now: Time, deadline: nat, unit: nat, later: Time)
    requires unit > 0 && key in db.data && deadline > now / unit
    requires ExpireAtUnix(db, key, now, deadline, unit).reply != Panics
    requires later <= ExpireAtUnix(db, key, now, deadline, unit).db.expiry[key]
    ensures ResolveExpiry(ExpireAtUnix(db, key, now, deadline, unit).db, key, later, later / unit, unit) ==
      Number(WrapI64(if later % unit > now % unit then deadline - 1 else deadline))
    ensures deadline <= I64_MAX ==>
      ResolveExpiry(ExpireAtUnix(db, key, now, deadline, unit).db, key, later, later / unit, unit) ==
      Number(if later % unit > now % unit then deadline - 1 else deadline)
  {
    DeadlineWindow(db, key, now, deadline, unit);
    var d := ExpireAtUnix(db, key, now, deadline, unit).db.expiry[key];
    SplitDeadline(d, later, unit);
    if deadline <= I64_MAX {
      WrapSmall(deadline);
      WrapSmall(deadline - 1);
    }
  }

  /** A deadline within `i64` is read back unchanged by the cast. */
  lemma WrapSmall(n: int)
    requires I64_MIN <= n <= I64_MAX
    ensures WrapI64(n) == n
  {
  }
}
