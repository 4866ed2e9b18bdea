/** The audit log as a chain: it replays to the rows, and its times strictly increase. */
module AuditChain {
  import opened Calendar
  import opened Domain
  import opened Tables
  import opened Runs
  import StoreLog

  /** What the audit log tracks of a row. */
  datatype Shown = Absent | Shows(active: bool, expiresAt: Option<Micros>)

  function ShownBy(row: Option<Row>): Shown {
    match row
    case None => Absent
    case Some(r) => Shows(r.active, r.expiresAt)
  }

  function ShownIn(rows: map<Key, Row>, k: Key): Shown {
    ShownBy(Lookup(rows, k))
  }

  function Before(a: AuditRow): Shown {
    if a.previousActive.None? then Absent else Shows(a.previousActive.value, a.previousExpiresAt)
  }

  function Behind(a: AuditRow): Shown {
    Shows(a.nextActive, a.nextExpiresAt)
  }

  /** Replays the audit rows of one key: each must start where the last one ended and change something.
      None once a row does not link. */
  function Replay(start: Shown, audit: seq<AuditRow>, k: Key): Option<Shown> {
    if audit == [] then Some(start)
    else
      var at, a := Replay(start, Earlier(audit), k), Last(audit);
      if a.key != k then at
      else if at == Some(Before(a)) && Before(a) != Behind(a) then Some(Behind(a))
      else None
  }

  lemma ReplayAppend(start: Shown, audit: seq<AuditRow>, a: AuditRow, k: Key)
    ensures Replay(start, audit + [a], k) ==
            var at := Replay(start, audit, k);
            if a.key != k then at
            else if at == Some(Before(a)) && Before(a) != Behind(a) then Some(Behind(a))
            else None
  {
    assert Earlier(audit + [a]) == audit;
  }

  /** From the seeded rows, the chain of a key ends at the row as it stands. */
  ghost predicate Chained(seed: map<Key, Row>, p: Projection, k: Key) {
    Replay(ShownIn(seed, k), p.audit, k) == Some(ShownIn(p.rows, k))
  }

  lemma UpsertChains(seed: map<Key, Row>, p: Projection, w: Write, now: Micros, k: Key)
    requires Chained(seed, p, k)
    ensures Chained(seed, Upsert(p, w, now), k)
  {
    ReplayAppend(ShownIn(seed, k), p.audit, UpsertAudit(w, Lookup(p.rows, w.key)), k);
  }

  lemma ExpireChains(seed: map<Key, Row>, p: Projection, e: Key, now: Micros, k: Key)
    requires Chained(seed, p, k)
    ensures Chained(seed, ExpireOne(p, e, now), k)
  {
    if e in p.rows {
      ReplayAppend(ShownIn(seed, k), p.audit, ExpiryAudit(e, p.rows[e]), k);
    }
  }

  lemma {:induction false} SweepChains(seed: map<Key, Row>, p: Projection, keys: seq<Key>, now: Micros, k: Key)
    requires Chained(seed, p, k)
    ensures Chained(seed, SweepBatch(p, keys, now), k)
    decreases |keys|
  {
    if keys != [] {
      ExpireChains(seed, p, keys[0], now, k);
      SweepChains(seed, ExpireOne(p, keys[0], now), keys[1..], now, k);
    }
  }

  lemma StepChains(seed: map<Key, Row>, w: World, s: Step, k: Key)
    requires Chained(seed, w.db.projection, k)
    ensures Chained(seed, Apply(w, s).db.projection, k)
  {
    hide GrantExpiry, UnixMilli;
    var p := w.db.projection;
    match s {
      case Deliver(e, readAt) => UpsertChains(seed, p, StoreWrite(e, readAt), w.now, k);
      case Revoke(user, id, batchAt) => UpsertChains(seed, p, RevokeWrite(user, id, batchAt), w.now, k);
      case Poll(user, status, readAt) =>
        UpsertChains(seed, p, CarrierWrite(user, status.PlanActive?, readAt), w.now, k);
      case Sweep(keys) => SweepChains(seed, p, keys, w.now, k);
      case _ =>
    }
  }

  /** In every run, the audit rows of every (user, source) link up from the seeded row, none records a
      change that changes nothing, and the last one ends at the current active flag and expiry. */
  lemma {:induction false} AuditReplaysToRows(w: World, steps: seq<Step>, k: Key)
    requires Initial(w) && ValidRun(w, steps)
    ensures Chained(w.db.projection.rows, Run(w, steps).db.projection, k)
  {
    if steps != [] {
      AuditReplaysToRows(w, Earlier(steps), k);
      StepChains(w.db.projection.rows, Run(w, Earlier(steps)), Last(steps), k);
    }
  }

  // ----- Times behind STORE audit rows -----

  /** The event time of the recorded event that caused an audit row, or the expiry that was swept. */
  ghost predicate Dated(events: seq<StoreEvent>, a: AuditRow, t: Millis) {
    match a.trigger
    case Some(id) => exists i :: 0 <= i < |events| && events[i].eventId == id && events[i].timeMs == t
    case None => a.previousExpiresAt.Some? && UnixMilli(a.previousExpiresAt.value) == t
  }

  /** Every STORE audit row of the user has a time, no later than the row's last_event_time, and later
      audit rows have strictly later times. */
  ghost predicate Ordered(p: Projection, events: seq<StoreEvent>, u: UserId) {
    var k := Key(u, STORE);
    && UniqueIds(events)
    && (forall i :: 0 <= i < |p.audit| && p.audit[i].key == k ==>
          k in p.rows && exists t :: Dated(events, p.audit[i], t) && t <= p.rows[k].lastEventTime)
    && (forall i, j, s, t | 0 <= i < j < |p.audit| && p.audit[i].key == k && p.audit[j].key == k
          && Dated(events, p.audit[i], s) && Dated(events, p.audit[j], t) :: s < t)
  }

  lemma DatedOnce(events: seq<StoreEvent>, a: AuditRow, s: Millis, t: Millis)
    requires UniqueIds(events) && Dated(events, a, s) && Dated(events, a, t)
    ensures s == t
  {
  }

  lemma DatedAfterAppend(events: seq<StoreEvent>, e: StoreEvent, a: AuditRow, t: Millis)
    requires UniqueIds(events) && !Recorded(events, e.eventId)
    requires exists s :: Dated(events, a, s)
    ensures UniqueIds(events + [e])
    ensures Dated(events + [e], a, t) <==> Dated(events, a, t)
  {
    var s :| Dated(events, a, s);
    if a.trigger.Some? {
      var i :| 0 <= i < |events| && events[i].eventId == a.trigger.value && events[i].timeMs == s;
      assert (events + [e])[i] == events[i];
      if Dated(events, a, t) {
        var j :| 0 <= j < |events| && events[j].eventId == a.trigger.value && events[j].timeMs == t;
        assert (events + [e])[j] == events[j];
      }
    }
  }

  /** A new event keeps the order as long as it adds no audit row. */
  lemma RecordingKeepsOrder(p: Projection, events: seq<StoreEvent>, e: StoreEvent, u: UserId)
    requires Ordered(p, events, u) && !Recorded(events, e.eventId)
    ensures Ordered(p, events + [e], u)
  {
    var k := Key(u, STORE);
    forall i, t | 0 <= i < |p.audit| && p.audit[i].key == k
      ensures Dated(events + [e], p.audit[i], t) <==> Dated(events, p.audit[i], t)
    {
      DatedAfterAppend(events, e, p.audit[i], t);
    }
  }

  /** So does one that adds an audit row dated after the row's last_event_time and moves that there. */
  lemma AppendKeepsOrder(p: Projection, events: seq<StoreEvent>, q: Projection, a: AuditRow, u: UserId, t: Millis)
    requires Ordered(p, events, u)
    requires q.audit == p.audit + [a] && a.key == Key(u, STORE) && Dated(events, a, t)
    requires a.key in p.rows ==> p.rows[a.key].lastEventTime < t
    requires a.key in q.rows && q.rows[a.key].lastEventTime == t
    ensures Ordered(q, events, u)
  {
    var k := Key(u, STORE);
    forall i | 0 <= i < |q.audit| && q.audit[i].key == k
      ensures exists s :: Dated(events, q.audit[i], s) && s <= q.rows[k].lastEventTime
    {
      if i == |p.audit| {
        assert Dated(events, q.audit[i], t);
      } else {
        assert q.audit[i] == p.audit[i];
      }
    }
    forall i, j, x, y | 0 <= i < j < |q.audit| && q.audit[i].key == k && q.audit[j].key == k
      && Dated(events, q.audit[i], x) && Dated(events, q.audit[j], y)
      ensures x < y
    {
      assert q.audit[i] == p.audit[i];
      if j == |p.audit| {
        DatedOnce(events, a, y, t);
        var s :| Dated(events, p.audit[i], s) && s <= p.rows[k].lastEventTime;
        DatedOnce(events, p.audit[i], x, s);
      } else {
        assert q.audit[j] == p.audit[j];
      }
    }
  }

  /** And so does anything done to other keys, or that only moves the row's last_event_time forward. */
  lemma ElsewhereKeepsOrder(p: Projection, events: seq<StoreEvent>, q: Projection, u: UserId)
    requires Ordered(p, events, u)
    requires q.audit == p.audit ||
             (|q.audit| == |p.audit| + 1 && q.audit[..|p.audit|] == p.audit && Last(q.audit).key != Key(u, STORE))
    requires var k := Key(u, STORE);
             k in p.rows ==> k in q.rows && p.rows[k].lastEventTime <= q.rows[k].lastEventTime
    ensures Ordered(q, events, u)
  {
    var k := Key(u, STORE);
    forall i | 0 <= i < |q.audit| && q.audit[i].key == k
      ensures i < |p.audit| && q.audit[i] == p.audit[i]
    {
      assert i < |p.audit| ==> q.audit[i] == q.audit[..|p.audit|][i];
    }
    forall i | 0 <= i < |q.audit| && q.audit[i].key == k
      ensures exists t :: Dated(events, q.audit[i], t) && t <= q.rows[k].lastEventTime
    {
      var t :| Dated(events, p.audit[i], t) && t <= p.rows[k].lastEventTime;
      assert Dated(events, q.audit[i], t);
    }
  }

  /** The log, the row and the audit times of a user. */
  ghost predicate InOrder(p: Projection, events: seq<StoreEvent>, u: UserId, now: Micros) {
    Ordered(p, events, u) && StoreLog.RowMatchesLog(p, events, u, now)
  }

  lemma DeliverKeepsOrder(p: Projection, events: seq<StoreEvent>, e: StoreEvent, readAt: Micros, now: Micros, u: UserId)
    requires Ordered(p, events, u) && !Recorded(events, e.eventId)
    ensures Ordered(Upsert(p, StoreWrite(e, readAt), now), events + [e], u)
  {
    hide GrantExpiry;
    var w := StoreWrite(e, readAt);
    var q, longer := Upsert(p, w, now), events + [e];
    RecordingKeepsOrder(p, events, e, u);
    if e.user == u && UpsertChanges(p, w) {
      assert longer[|events|] == e;
      AppendKeepsOrder(p, longer, q, UpsertAudit(w, Lookup(p.rows, w.key)), u, e.timeMs);
    } else {
      ElsewhereKeepsOrder(p, longer, q, u);
    }
  }

  lemma ExpireKeepsOrder(p: Projection, events: seq<StoreEvent>, k: Key, now: Micros, u: UserId)
    requires InOrder(p, events, u, now)
    ensures InOrder(ExpireOne(p, k, now), events, u, now)
  {
    var q := ExpireOne(p, k, now);
    StoreLog.ExpireKeepsUser(p, events, k, u, now, now);
    if k in p.rows && Due(p.rows[k], now) {
      if k == Key(u, STORE) {
        AppendKeepsOrder(p, events, q, ExpiryAudit(k, p.rows[k]), u, UnixMilli(p.rows[k].expiresAt.value));
      } else {
        ElsewhereKeepsOrder(p, events, q, u);
      }
    }
  }

  lemma {:induction false} SweepKeepsOrder(p: Projection, events: seq<StoreEvent>, keys: seq<Key>, now: Micros,
                                           u: UserId)
    requires InOrder(p, events, u, now)
    ensures InOrder(SweepBatch(p, keys, now), events, u, now)
    decreases |keys|
  {
    if keys != [] {
      ExpireKeepsOrder(p, events, keys[0], now, u);
      SweepKeepsOrder(ExpireOne(p, keys[0], now), events, keys[1..], now, u);
    }
  }

  lemma StepKeepsOrder(w: World, s: Step, u: UserId)
    requires Enabled(w, s) && InOrder(w.db.projection, w.db.events, u, w.now)
    ensures Ordered(Apply(w, s).db.projection, Apply(w, s).db.events, u)
  {
    hide GrantExpiry;
    var p, events, q := w.db.projection, w.db.events, Apply(w, s).db.projection;
    match s {
      case Deliver(e, readAt) =>
        if !Recorded(events, e.eventId) {
          DeliverKeepsOrder(p, events, e, readAt, w.now, u);
        }
      case Sweep(keys) => SweepKeepsOrder(p, events, keys, w.now, u);
      case _ => ElsewhereKeepsOrder(p, events, q, u);
    }
  }

  /** In every run, the times behind a user's STORE audit rows strictly increase. */
  lemma {:induction false} AuditTimesIncrease(w: World, steps: seq<Step>, u: UserId)
    requires Initial(w) && ValidRun(w, steps)
    ensures Ordered(Run(w, steps).db.projection, Run(w, steps).db.events, u)
  {
    if steps != [] {
      var v := Run(w, Earlier(steps));
      AuditTimesIncrease(w, Earlier(steps), u);
      StoreLog.ReachableIsCached(w, Earlier(steps));
      assert StoreLog.RowMatchesLog(v.db.projection, v.db.events, u, v.now);
      StepKeepsOrder(v, Last(steps), u);
    }
  }
}
