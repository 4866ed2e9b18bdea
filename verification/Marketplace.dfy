/** The monthly bulk revocation: its idempotency key, what a whole call leaves behind, and who can take
    or give access. */
module Marketplace {
  import opened Calendar
  import opened Domain
  import opened Tables
  import opened Runs

  // ----- The monthly key -----

  /** Decimal digits, padded with zeros to a least width. */
  function Padded(n: nat, width: nat): string
    decreases n, width
  {
    if n == 0 && width == 0 then ""
    else Padded(n / 10, if width == 0 then 0 else width - 1) + ["0123456789"[n % 10]]
  }

  function DigitValue(c: char): nat {
    if '0' <= c <= '9' then c as int - '0' as int else 0
  }

  function TextValue(s: string): nat {
    if s == "" then 0 else TextValue(s[..|s| - 1]) * 10 + DigitValue(s[|s| - 1])
  }

  lemma {:induction false} PaddedValue(n: nat, width: nat)
    ensures TextValue(Padded(n, width)) == n
    decreases n, width
  {
    if n != 0 || width != 0 {
      var init := Padded(n / 10, if width == 0 then 0 else width - 1);
      PaddedValue(n / 10, if width == 0 then 0 else width - 1);
      assert Padded(n, width)[..|init|] == init;
    }
  }

  function Pow10(width: nat): nat {
    if width == 0 then 1 else 10 * Pow10(width - 1)
  }

  lemma {:induction false} PaddedLength(n: nat, width: nat)
    requires n < Pow10(width)
    ensures |Padded(n, width)| == width
  {
    if width > 0 {
      PaddedLength(n / 10, width - 1);
    }
  }

  /** time.Time.Format("2006-01"). */
  function MonthText(t: Micros): string {
    var c := CivilDate(UtcDay(t));
    (if c.year < 0 then "-" + Padded(-c.year, 4) else Padded(c.year, 4)) + "-" + Padded(c.month, 2)
  }

  function MonthKey(user: UserId, batchAt: Micros): EventId {
    "marketplace_revoke_" + user + "_" + MonthText(batchAt)
  }

  predicate AllDigits(s: string) {
    forall i :: 0 <= i < |s| ==> '0' <= s[i] <= '9'
  }

  lemma {:induction false} PaddedDigits(n: nat, width: nat)
    ensures AllDigits(Padded(n, width))
    decreases n, width
  {
    if n != 0 || width != 0 {
      PaddedDigits(n / 10, if width == 0 then 0 else width - 1);
    }
  }

  /** The key reads marketplace_revoke_, the user, an underscore, four digits of the year, a dash and two
      digits of the month. */
  lemma MonthKeyReads(u: UserId, t: Micros) returns (year: string, month: string)
    requires FourDigitYear(t)
    ensures MonthKey(u, t) == "marketplace_revoke_" + u + "_" + year + "-" + month
    ensures |year| == 4 && AllDigits(year) && TextValue(year) == CivilDate(UtcDay(t)).year
    ensures |month| == 2 && AllDigits(month) && TextValue(month) == CivilDate(UtcDay(t)).month
  {
    var c := CivilDate(UtcDay(t));
    hide CivilDate;
    year, month := Padded(c.year, 4), Padded(c.month, 2);
    assert Pow10(4) == 10_000 && Pow10(2) == 100;
    PaddedLength(c.year, 4);
    PaddedLength(c.month, 2);
    PaddedDigits(c.year, 4);
    PaddedDigits(c.month, 2);
    PaddedValue(c.year, 4);
    PaddedValue(c.month, 2);
    assert MonthKey(u, t) == "marketplace_revoke_" + u + "_" + (year + "-" + month);
  }

  predicate FourDigitYear(t: Micros) {
    0 <= CivilDate(UtcDay(t)).year < 10_000
  }

  lemma TailsMatch(a: string, b: string, x: string, y: string)
    requires a + x == b + y && |x| == |y|
    ensures a == b && x == y
  {
    assert a == (a + x)[..|a|] && b == (b + y)[..|b|];
    assert x == (a + x)[|a|..] && y == (b + y)[|b|..];
  }

  lemma MonthTextInjective(s: Micros, t: Micros)
    requires FourDigitYear(s) && FourDigitYear(t)
    ensures |MonthText(s)| == |MonthText(t)| == 7
    ensures MonthText(s) == MonthText(t)
            <==> CivilDate(UtcDay(s)).(day := 1) == CivilDate(UtcDay(t)).(day := 1)
  {
    var c, d := CivilDate(UtcDay(s)), CivilDate(UtcDay(t));
    hide CivilDate;
    assert Pow10(4) == 10_000 && Pow10(2) == 100;
    PaddedLength(c.year, 4);
    PaddedLength(d.year, 4);
    PaddedLength(c.month, 2);
    PaddedLength(d.month, 2);
    if MonthText(s) == MonthText(t) {
      TailsMatch(Padded(c.year, 4) + "-", Padded(d.year, 4) + "-", Padded(c.month, 2), Padded(d.month, 2));
      TailsMatch(Padded(c.year, 4), Padded(d.year, 4), "-", "-");
      PaddedValue(c.year, 4);
      PaddedValue(d.year, 4);
      PaddedValue(c.month, 2);
      PaddedValue(d.month, 2);
    }
  }

  /** Two keys are equal exactly for the same user in the same month, for years of four digits,
      whatever characters the user ids contain. */
  lemma MonthKeyInjective(u: UserId, s: Micros, v: UserId, t: Micros)
    requires FourDigitYear(s) && FourDigitYear(t)
    ensures MonthKey(u, s) == MonthKey(v, t)
            <==> u == v && CivilDate(UtcDay(s)).(day := 1) == CivilDate(UtcDay(t)).(day := 1)
  {
    MonthTextInjective(s, t);
    if MonthKey(u, s) == MonthKey(v, t) {
      TailsMatch("marketplace_revoke_" + u + "_", "marketplace_revoke_" + v + "_", MonthText(s), MonthText(t));
      KeyPrefix(u, v);
    }
  }

  lemma KeyPrefix(u: UserId, v: UserId)
    requires "marketplace_revoke_" + u + "_" == "marketplace_revoke_" + v + "_"
    ensures u == v
  {
    TailsMatch("marketplace_revoke_" + u, "marketplace_revoke_" + v, "_", "_");
    assert u == ("marketplace_revoke_" + u)[19..] && v == ("marketplace_revoke_" + v)[19..];
  }

  /** Within one call, different users always have different keys. */
  lemma KeysDifferByUser(u: UserId, v: UserId, t: Micros)
    requires MonthKey(u, t) == MonthKey(v, t)
    ensures u == v
  {
    TailsMatch("marketplace_revoke_" + u + "_", "marketplace_revoke_" + v + "_", MonthText(t), MonthText(t));
    KeyPrefix(u, v);
  }

  // ----- A whole call -----

  function RevokeOne(db: Db, user: UserId, batchAt: Micros, now: Micros): Db {
    RevokeUser(db, user, MonthKey(user, batchAt), batchAt, now)
  }

  /** The users of a call in order, each in a transaction of its own. */
  function RevokeAll(db: Db, users: seq<UserId>, batchAt: Micros, now: Micros): Db
    decreases |users|
  {
    if users == [] then db
    else RevokeAll(RevokeOne(db, users[0], batchAt, now), users[1..], batchAt, now)
  }

  function CountRevoked(db: Db, users: seq<UserId>, batchAt: Micros, now: Micros): nat
    decreases |users|
  {
    if users == [] then 0
    else
      (if MonthKey(users[0], batchAt) in db.revocations then 0 else 1)
      + CountRevoked(RevokeOne(db, users[0], batchAt, now), users[1..], batchAt, now)
  }

  /** The listed users who were not revoked in that month before. */
  function NotYetRevoked(db: Db, users: seq<UserId>, batchAt: Micros): set<UserId> {
    set u | u in users && MonthKey(u, batchAt) !in db.revocations
  }

  /** The reported count is the number of distinct listed users not already revoked that month. */
  lemma {:induction false} CountIsDistinctUsers(db: Db, users: seq<UserId>, batchAt: Micros, now: Micros)
    ensures CountRevoked(db, users, batchAt, now) == |NotYetRevoked(db, users, batchAt)|
    decreases |users|
  {
    if users != [] {
      var u, next := users[0], RevokeOne(db, users[0], batchAt, now);
      CountIsDistinctUsers(next, users[1..], batchAt, now);
      var all, rest := NotYetRevoked(db, users, batchAt), NotYetRevoked(next, users[1..], batchAt);
      hide MonthText, Upsert;
      forall v
        ensures v in rest <==> v in all && v != u
      {
        if MonthKey(v, batchAt) == MonthKey(u, batchAt) {
          KeysDifferByUser(v, u, batchAt);
        }
        assert v in users <==> v == u || v in users[1..];
      }
      assert rest == all - {u};
    }
  }

  /** After a call every listed user is recorded for that month, and only MARKETPLACE rows of listed
      users differ. */
  lemma {:induction false} RevokeAllTouches(db: Db, users: seq<UserId>, batchAt: Micros, now: Micros)
    ensures var after := RevokeAll(db, users, batchAt, now);
            && (forall id :: id in after.revocations <==>
                  id in db.revocations || exists u :: u in users && id == MonthKey(u, batchAt))
            && (forall k: Key :: k.source != MARKETPLACE || k.user !in users ==>
                  Lookup(after.projection.rows, k) == Lookup(db.projection.rows, k))
            && after.events == db.events && after.notifications == db.notifications
    decreases |users|
  {
    if users != [] {
      hide MonthKey;
      RevokeAllTouches(RevokeOne(db, users[0], batchAt, now), users[1..], batchAt, now);
      assert forall u :: u in users <==> u == users[0] || u in users[1..];
    }
  }

  lemma {:induction false} RevokeAllConcat(db: Db, a: seq<UserId>, b: seq<UserId>, batchAt: Micros, now: Micros)
    ensures RevokeAll(db, a + b, batchAt, now) == RevokeAll(RevokeAll(db, a, batchAt, now), b, batchAt, now)
    decreases |a|
  {
    if a == [] {
      assert a + b == b;
    } else {
      assert (a + b)[1..] == a[1..] + b;
      RevokeAllConcat(RevokeOne(db, a[0], batchAt, now), a[1..], b, batchAt, now);
    }
  }

  lemma RevokeAllSingle(db: Db, u: UserId, batchAt: Micros, now: Micros)
    ensures RevokeAll(db, [u], batchAt, now) == RevokeOne(db, u, batchAt, now)
  {
    assert [u][1..] == [];
  }

  /** The next user of a call. */
  lemma RevokeNext(db: Db, users: seq<UserId>, i: nat, batchAt: Micros, now: Micros)
    requires i < |users|
    ensures var before := RevokeAll(db, users[..i], batchAt, now);
            var after := RevokeUser(before, users[i], MonthKey(users[i], batchAt), batchAt, now);
            && RevokeAll(db, users[..i + 1], batchAt, now) == after
            && CountRevoked(before, users[i..], batchAt, now) ==
               (if MonthKey(users[i], batchAt) in before.revocations then 0 else 1)
               + CountRevoked(after, users[i + 1..], batchAt, now)
  {
    hide MonthKey, RevokeUser;
    var before := RevokeAll(db, users[..i], batchAt, now);
    assert users[..i + 1] == users[..i] + [users[i]];
    RevokeAllConcat(db, users[..i], [users[i]], batchAt, now);
    RevokeAllSingle(before, users[i], batchAt, now);
    assert users[i..][0] == users[i] && users[i..][1..] == users[i + 1..];
  }

  /** Where a call starts and ends. */
  lemma NobodyAndEverybody(db: Db, users: seq<UserId>, batchAt: Micros, now: Micros)
    ensures RevokeAll(db, users[..0], batchAt, now) == db
    ensures CountRevoked(db, users[|users|..], batchAt, now) == 0
    ensures users[0..] == users[..|users|] == users
    ensures CountRevoked(db, users, batchAt, now) == |NotYetRevoked(db, users, batchAt)|
  {
    CountIsDistinctUsers(db, users, batchAt, now);
  }

  /** Users already recorded for the month of a call are passed over by it. */
  lemma {:induction false} RecordedUsersAreSkipped(db: Db, users: seq<UserId>, batchAt: Micros, now: Micros)
    requires forall u :: u in users ==> MonthKey(u, batchAt) in db.revocations
    ensures RevokeAll(db, users, batchAt, now) == db
    decreases |users|
  {
    if users != [] {
      hide MonthKey;
      RecordedUsersAreSkipped(db, users[1..], batchAt, now);
    }
  }

  /** A call that stopped after its first users, repeated later in the same month, does exactly the
      rest: the users already done are not touched again. */
  lemma RetryDoesTheRest(db: Db, done: seq<UserId>, rest: seq<UserId>, first: Micros, t1: Micros,
                         again: Micros, t2: Micros)
    requires MonthText(first) == MonthText(again)
    ensures var stopped := RevokeAll(db, done, first, t1);
            RevokeAll(stopped, done + rest, again, t2) == RevokeAll(stopped, rest, again, t2)
  {
    var stopped := RevokeAll(db, done, first, t1);
    RevokeAllTouches(db, done, first, t1);
    RevokeAllConcat(stopped, done, rest, again, t2);
    RecordedUsersAreSkipped(stopped, done, again, t2);
  }

  /** At the same clock, stopping and repeating is the same as one clean call. */
  lemma RetryAtSameClockIsOneCall(db: Db, done: seq<UserId>, rest: seq<UserId>, batchAt: Micros, now: Micros)
    ensures RevokeAll(RevokeAll(db, done, batchAt, now), done + rest, batchAt, now)
            == RevokeAll(db, done + rest, batchAt, now)
  {
    RetryDoesTheRest(db, done, rest, batchAt, now, batchAt, now);
    RevokeAllConcat(db, done, rest, batchAt, now);
  }

  // ----- What revocation does to access -----

  predicate Flagged(rows: map<Key, Row>, k: Key) {
    k in rows && rows[k].active
  }

  /** Revoking a user who was not yet revoked that month leaves the row active exactly when it was
      active and its last event is at or after the time of the call. */
  lemma RevocationTakesAccess(db: Db, u: UserId, batchAt: Micros, now: Micros)
    requires MonthKey(u, batchAt) !in db.revocations
    ensures Flagged(RevokeOne(db, u, batchAt, now).projection.rows, Key(u, MARKETPLACE)) <==>
            && Flagged(db.projection.rows, Key(u, MARKETPLACE))
            && UnixMilli(batchAt) <= db.projection.rows[Key(u, MARKETPLACE)].lastEventTime
  {
  }

  /** It happens: from some seeded row, revoking any user at any time is recorded and marked processed, and
      the access stays. */
  lemma RevocationCanLeaveAccess(u: UserId, batchAt: Micros) returns (w: World, steps: seq<Step>)
    ensures Initial(w) && ValidRun(w, steps) && steps == [Revoke(u, MonthKey(u, batchAt), batchAt)]
    ensures var db := Run(w, steps).db;
            && MonthKey(u, batchAt) in db.revocations && Marker(MonthKey(u, batchAt), MARKETPLACE) in db.processed
            && Flagged(db.projection.rows, Key(u, MARKETPLACE))
  {
    hide MonthKey, UnixMilli;
    var row := Row(true, None, None, batchAt, UnixMilli(batchAt), None);
    w := World(Db(Projection(map[Key(u, MARKETPLACE) := row], []), [], map[], {}, []), batchAt);
    steps := [Revoke(u, MonthKey(u, batchAt), batchAt)];
    assert Earlier(steps) == [];
  }

  /** A poll changes nothing but the user's carrier row, and only when the plan is reported inactive;
      then the row stays active exactly when its last event is at or after the reply. */
  lemma PollTakesAccess(p: Projection, u: UserId, status: CarrierStatus, readAt: Micros, now: Micros)
    ensures var q := CarrierReply(p, u, true, status, readAt, now);
            && (!status.PlanInactive? ==> q == p)
            && (status.PlanInactive? ==>
                  (Flagged(q.rows, Key(u, CARRIER)) <==>
                     && Flagged(p.rows, Key(u, CARRIER))
                     && UnixMilli(readAt) <= p.rows[Key(u, CARRIER)].lastEventTime))
            && forall k :: k != Key(u, CARRIER) ==> Lookup(q.rows, k) == Lookup(p.rows, k)
  {
  }

  lemma {:induction false} SweepGrantsNothing(p: Projection, keys: seq<Key>, now: Micros, k: Key)
    requires !Flagged(p.rows, k)
    ensures !Flagged(SweepBatch(p, keys, now).rows, k)
    decreases |keys|
  {
    if keys != [] {
      SweepGrantsNothing(ExpireOne(p, keys[0], now), keys[1..], now, k);
    }
  }

  lemma StepGrantsNothing(w: World, s: Step, k: Key)
    requires k.source != STORE && !Flagged(w.db.projection.rows, k)
    ensures !Flagged(Apply(w, s).db.projection.rows, k)
  {
    hide GrantExpiry, UnixMilli;
    if s.Sweep? {
      SweepGrantsNothing(w.db.projection, s.keys, w.now, k);
    }
  }

  /** Marketplace and carrier access, once gone, never comes back in any run from any state: only store
      events grant. */
  lemma {:induction false} RevokedStaysRevoked(w: World, steps: seq<Step>, k: Key)
    requires k.source != STORE && !Flagged(w.db.projection.rows, k) && ValidRun(w, steps)
    ensures !Flagged(Run(w, steps).db.projection.rows, k)
  {
    if steps != [] {
      RevokedStaysRevoked(w, Earlier(steps), k);
      StepGrantsNothing(Run(w, Earlier(steps)), Last(steps), k);
    }
  }

  /** After a call, every listed user whose row was older than the call and who was not yet revoked that
      month has no marketplace access. */
  lemma {:induction false} BulkCallRevokes(db: Db, users: seq<UserId>, batchAt: Micros, now: Micros, u: UserId)
    requires u in users && MonthKey(u, batchAt) !in db.revocations
    requires Key(u, MARKETPLACE) in db.projection.rows
             ==> db.projection.rows[Key(u, MARKETPLACE)].lastEventTime < UnixMilli(batchAt)
    ensures !Flagged(RevokeAll(db, users, batchAt, now).projection.rows, Key(u, MARKETPLACE))
    decreases |users|
  {
    var next := RevokeOne(db, users[0], batchAt, now);
    if users[0] == u {
      RevocationTakesAccess(db, u, batchAt, now);
      BulkCallGrantsNothing(next, users[1..], batchAt, now, u);
    } else {
      if MonthKey(u, batchAt) == MonthKey(users[0], batchAt) {
        KeysDifferByUser(u, users[0], batchAt);
      }
      BulkCallRevokes(next, users[1..], batchAt, now, u);
    }
  }

  /** The row a call leaves: revoked as of the call for a listed user who was not yet revoked that month and
      whose row was older, or missing; else as before. */
  function RowAfterCall(db: Db, users: seq<UserId>, batchAt: Micros, now: Micros, k: Key): Option<Row> {
    var rows := db.projection.rows;
    if k.source == MARKETPLACE && k.user in users && MonthKey(k.user, batchAt) !in db.revocations
       && (k in rows ==> rows[k].lastEventTime < UnixMilli(batchAt))
    then Some(Row(false, None, Some(MarketplaceRevoke), now, UnixMilli(batchAt),
                  if k in rows then rows[k].carrierPolledAt else None))
    else Lookup(rows, k)
  }

  ghost predicate Revokes(db: Db, after: Db, users: seq<UserId>, batchAt: Micros, now: Micros) {
    forall k: Key :: Lookup(after.projection.rows, k) == RowAfterCall(db, users, batchAt, now, k)
  }

  lemma OneCallRow(db: Db, u: UserId, batchAt: Micros, now: Micros, k: Key)
    ensures var next := RevokeOne(db, u, batchAt, now);
            && Lookup(next.projection.rows, k) == RowAfterCall(db, [u], batchAt, now, k)
            && (MonthKey(k.user, batchAt) in next.revocations
                <==> k.user == u || MonthKey(k.user, batchAt) in db.revocations)
  {
    hide UnixMilli;
    if MonthKey(k.user, batchAt) == MonthKey(u, batchAt) {
      KeysDifferByUser(k.user, u, batchAt);
    }
    hide MonthKey;
  }

  lemma {:induction false} BulkCallRow(db: Db, users: seq<UserId>, batchAt: Micros, now: Micros, k: Key)
    ensures Lookup(RevokeAll(db, users, batchAt, now).projection.rows, k) == RowAfterCall(db, users, batchAt, now, k)
    decreases |users|
  {
    if users != [] {
      var u, next := users[0], RevokeOne(db, users[0], batchAt, now);
      BulkCallRow(next, users[1..], batchAt, now, k);
      OneCallRow(db, u, batchAt, now, k);
      hide MonthKey, UnixMilli, RevokeOne;
      assert k.user in users <==> k.user == u || k.user in users[1..];
      assert k in next.projection.rows <==> Lookup(next.projection.rows, k).Some?;
      assert k in db.projection.rows <==> Lookup(db.projection.rows, k).Some?;
    }
  }

  /** Each MARKETPLACE row a call should touch reads as revoked, and no other row differs. */
  lemma BulkCallRows(db: Db, users: seq<UserId>, batchAt: Micros, now: Micros)
    ensures Revokes(db, RevokeAll(db, users, batchAt, now), users, batchAt, now)
  {
    hide RowAfterCall, RevokeAll;
    forall k: Key {
      BulkCallRow(db, users, batchAt, now, k);
    }
  }

  lemma EveryPrefixRevokes(db: Db, users: seq<UserId>, batchAt: Micros, now: Micros)
    ensures forall n: nat :: n <= |users| ==>
              Revokes(db, RevokeAll(db, users[..n], batchAt, now), users[..n], batchAt, now)
  {
    hide Revokes, RevokeAll;
    forall n: nat | n <= |users| {
      BulkCallRows(db, users[..n], batchAt, now);
    }
  }

  lemma {:induction false} BulkCallGrantsNothing(db: Db, users: seq<UserId>, batchAt: Micros, now: Micros, u: UserId)
    requires !Flagged(db.projection.rows, Key(u, MARKETPLACE))
    ensures !Flagged(RevokeAll(db, users, batchAt, now).projection.rows, Key(u, MARKETPLACE))
    decreases |users|
  {
    if users != [] {
      hide MonthKey;
      BulkCallGrantsNothing(RevokeOne(db, users[0], batchAt, now), users[1..], batchAt, now, u);
    }
  }
}
