/** What a webhook leaves behind, told field by field from the payload and the clock. */
module Deliveries {
  import opened Calendar
  import opened Domain
  import opened Tables
  import opened Runs

  /** Why a payload is refused: the first of the five checks that fails. */
  predicate RefusedFor(e: StoreEvent, why: InvalidPayload) {
    match why
    case MissingEventId => e.eventId == ""
    case MissingUserId => e.eventId != "" && e.user == ""
    case InvalidEventType => e.eventId != "" && e.user != "" && e.kind.Other?
    case InvalidEventTime => e.eventId != "" && e.user != "" && !e.kind.Other? && e.timeMs <= 0
    case MissingProductId => e.eventId != "" && e.user != "" && !e.kind.Other? && e.timeMs > 0 && e.productId == ""
  }

  lemma FirstFailedCheck(e: StoreEvent, why: InvalidPayload)
    ensures Validate(e) == Some(why) <==> RefusedFor(e, why)
  {
  }

  /** The row says what the event says. A purchase, renewal or un-cancellation gives access until its
      expiry, if that was still to come when it was read; the other types take access away. */
  predicate Tells(r: Row, e: StoreEvent, readAt: Micros) {
    match e.kind
    case InitialPurchase | Renewal | UnCancellation =>
      && r.expiresAt == Some(GrantExpiry(e.timeMs))
      && (r.active <==> readAt < GrantExpiry(e.timeMs))
      && r.reason == Some(if readAt < GrantExpiry(e.timeMs) then ByEvent(e.kind) else ByEvent(Expiration))
    case _ =>
      !r.active && r.expiresAt.None? && r.reason == Some(ByEvent(e.kind))
  }

  /** What is added to the audit log when the STORE row of a user turns from `was` into `r`. */
  function Told(e: StoreEvent, was: Option<Row>, r: Row): seq<AuditRow> {
    if was.Some? && was.value.active == r.active && was.value.expiresAt == r.expiresAt then []
    else
      [AuditRow(Key(e.user, STORE),
                if was.Some? then Some(was.value.active) else None, r.active,
                if was.Some? then was.value.expiresAt else None, r.expiresAt,
                Some(e.eventId), r.reason)]
  }

  /** `after` has one more notification, a day before the expiry, unless the user has one on that day. */
  ghost predicate Announces(ns: seq<Notification>, after: seq<Notification>, u: UserId, expiry: Micros) {
    var at := expiry - 24 * 3_600_000_000;
    if exists i :: 0 <= i < |ns| && ns[i].user == u && UtcDay(ns[i].scheduledFor) == UtcDay(at)
    then after == ns
    else after == ns + [Notification(u, at, None)]
  }

  /** A new event is recorded and marked; it takes effect only if it is newer than the row. */
  ghost predicate Lands(db: Db, after: Db, e: StoreEvent, readAt: Micros, now: Micros) {
    var k, rows := Key(e.user, STORE), db.projection.rows;
    if exists i :: 0 <= i < |db.events| && db.events[i].eventId == e.eventId then after == db
    else
      && after.events == db.events + [e]
      && after.processed == db.processed + {Marker(e.eventId, STORE)}
      && after.revocations == db.revocations
      && if k in rows && e.timeMs <= rows[k].lastEventTime then
           after.projection == db.projection && after.notifications == db.notifications
         else
           && k in after.projection.rows
           && var was, r := Lookup(rows, k), after.projection.rows[k];
              && after.projection.rows == rows[k := r]
              && Tells(r, e, readAt) && r.lastEventTime == e.timeMs && r.updatedAt == now
              && r.carrierPolledAt == (if was.Some? then was.value.carrierPolledAt else None)
              && after.projection.audit == db.projection.audit + Told(e, was, r)
              && if r.active && Told(e, was, r) != [] then
                   r.expiresAt.Some? && Announces(db.notifications, after.notifications, e.user, r.expiresAt.value)
                 else after.notifications == db.notifications
  }

  /** Every delivery lands that way, whatever the tables hold. */
  lemma WebhookLands(db: Db, e: StoreEvent, readAt: Micros, now: Micros)
    ensures Lands(db, StoreWebhook(db, e, readAt, now), e, readAt, now)
  {
    hide GrantExpiry;
    var w, was := StoreWrite(e, readAt), Lookup(db.projection.rows, Key(e.user, STORE));
    var after := StoreWebhook(db, e, readAt, now);
    if !Recorded(db.events, e.eventId) && Newer(w, was) {
      var r := UpsertedRow(w, was, now);
      assert after.projection.rows[Key(e.user, STORE)] == r;
      if !ChangesState(w, was) {
        assert db.projection.audit + [] == db.projection.audit;
      }
    }
  }

  /** A new grant that had run out when it was read gives no access: the row keeps its expiry, inactive
      and as expired; nobody is notified and no audit row shows access. */
  lemma LateGrantGivesNothing(db: Db, e: StoreEvent, readAt: Micros, now: Micros)
    requires e.kind.InitialPurchase? || e.kind.Renewal? || e.kind.UnCancellation?
    requires forall i :: 0 <= i < |db.events| ==> db.events[i].eventId != e.eventId
    requires Key(e.user, STORE) in db.projection.rows
             ==> db.projection.rows[Key(e.user, STORE)].lastEventTime < e.timeMs
    requires GrantExpiry(e.timeMs) <= readAt
    ensures var after := StoreWebhook(db, e, readAt, now);
            && after.notifications == db.notifications
            && Key(e.user, STORE) in after.projection.rows
            && var r := after.projection.rows[Key(e.user, STORE)];
               && !r.active && r.reason == Some(ByEvent(Expiration)) && r.expiresAt == Some(GrantExpiry(e.timeMs))
               && |after.projection.audit| >= |db.projection.audit|
               && (forall i :: |db.projection.audit| <= i < |after.projection.audit|
                     ==> !after.projection.audit[i].nextActive)
  {
    hide GrantExpiry, StoreWebhook;
    WebhookLands(db, e, readAt, now);
  }

  // ----- In every run -----

  /** The delivery behind an audit row: it showed access exactly for a grant read before its expiry. */
  predicate ShownBy(s: Step, a: AuditRow) {
    && s.Deliver? && a.trigger == Some(s.event.eventId) && a.key.user == s.event.user
    && (a.nextActive <==>
          && (s.event.kind.InitialPurchase? || s.event.kind.Renewal? || s.event.kind.UnCancellation?)
          && s.readAt < GrantExpiry(s.event.timeMs))
    && (a.nextActive ==> a.nextExpiresAt == Some(GrantExpiry(s.event.timeMs)))
  }

  ghost predicate Shown(steps: seq<Step>, a: AuditRow) {
    exists j :: 0 <= j < |steps| && ShownBy(steps[j], a)
  }

  ghost predicate AllShown(steps: seq<Step>, audit: seq<AuditRow>) {
    forall i :: 0 <= i < |audit| && audit[i].key.source == STORE && audit[i].trigger.Some? ==> Shown(steps, audit[i])
  }

  lemma ShownStays(steps: seq<Step>, a: AuditRow)
    requires steps != [] && Shown(Earlier(steps), a)
    ensures Shown(steps, a)
  {
    hide GrantExpiry;
    var j :| 0 <= j < |Earlier(steps)| && ShownBy(Earlier(steps)[j], a);
    assert steps[j] == Earlier(steps)[j];
  }

  lemma ShownAppend(steps: seq<Step>, audit: seq<AuditRow>, more: seq<AuditRow>)
    requires steps != [] && AllShown(Earlier(steps), audit)
    requires forall i :: 0 <= i < |more| && more[i].key.source == STORE && more[i].trigger.Some?
               ==> ShownBy(Last(steps), more[i])
    ensures AllShown(steps, audit + more)
  {
    hide ShownBy;
    var both := audit + more;
    forall i | 0 <= i < |both| && both[i].key.source == STORE && both[i].trigger.Some?
      ensures Shown(steps, both[i])
    {
      if i < |audit| {
        ShownStays(steps, audit[i]);
      } else {
        assert ShownBy(steps[|steps| - 1], more[i - |audit|]);
      }
    }
  }

  /** A sweep only adds audit rows without a trigger. */
  lemma {:induction false} SweepHasNoTrigger(p: Projection, keys: seq<Key>, now: Micros) returns (more: seq<AuditRow>)
    ensures SweepBatch(p, keys, now).audit == p.audit + more
    ensures forall i :: 0 <= i < |more| ==> more[i].trigger.None?
    decreases |keys|
  {
    if keys == [] {
      more := [];
    } else {
      more := SweepHasNoTrigger(ExpireOne(p, keys[0], now), keys[1..], now);
      if keys[0] in p.rows && Due(p.rows[keys[0]], now) {
        more := [ExpiryAudit(keys[0], p.rows[keys[0]])] + more;
      }
    }
  }

  /** An upsert adds at most its own audit row. */
  lemma UpsertAddsOwn(p: Projection, w: Write, now: Micros) returns (more: seq<AuditRow>)
    ensures Upsert(p, w, now).audit == p.audit + more
    ensures more == [] || more == [UpsertAudit(w, Lookup(p.rows, w.key))]
  {
    more := if UpsertChanges(p, w) then [UpsertAudit(w, Lookup(p.rows, w.key))] else [];
  }

  lemma StepKeepsShown(w: World, steps: seq<Step>)
    requires steps != [] && AllShown(Earlier(steps), w.db.projection.audit)
    ensures AllShown(steps, Apply(w, Last(steps)).db.projection.audit)
  {
    hide GrantExpiry, UnixMilli, AllShown;
    var p, s, more := w.db.projection, Last(steps), [];
    match s {
      case Deliver(e, readAt) =>
        if !Recorded(w.db.events, e.eventId) {
          more := UpsertAddsOwn(p, StoreWrite(e, readAt), w.now);
        }
      case Revoke(user, id, batchAt) =>
        if id !in w.db.revocations {
          more := UpsertAddsOwn(p, RevokeWrite(user, id, batchAt), w.now);
        }
      case Poll(user, status, readAt) =>
        if status.PlanInactive? {
          more := UpsertAddsOwn(p, CarrierWrite(user, false, readAt), w.now);
        }
      case Sweep(keys) => more := SweepHasNoTrigger(p, keys, w.now);
      case _ =>
    }
    assert Apply(w, s).db.projection.audit == p.audit + more;
    ShownAppend(steps, p.audit, more);
  }

  /** In every run, each STORE audit row that is not a sweep's comes from a delivery of its event, and
      shows access if and only if that was a grant whose expiry was still to come when it was read. */
  lemma {:induction false} AccessIsGrantedInTime(w: World, steps: seq<Step>)
    requires Initial(w) && ValidRun(w, steps)
    ensures AllShown(steps, Run(w, steps).db.projection.audit)
  {
    hide GrantExpiry;
    if steps != [] {
      AccessIsGrantedInTime(w, Earlier(steps));
      StepKeepsShown(Run(w, Earlier(steps)), steps);
    }
  }

  // ----- Notifications -----

  /** A change to an active STORE grant that the notification announces, 24 hours before its expiry. */
  predicate Warrants(a: AuditRow, n: Notification) {
    && a.key == Key(n.user, STORE) && a.nextActive
    && a.nextExpiresAt == Some(n.scheduledFor + 24 * 3_600_000_000)
  }

  ghost predicate Warranted(audit: seq<AuditRow>, n: Notification) {
    exists i :: 0 <= i < |audit| && Warrants(audit[i], n)
  }

  ghost predicate AllWarranted(ns: seq<Notification>, audit: seq<AuditRow>) {
    forall i :: 0 <= i < |ns| ==> Warranted(audit, ns[i])
  }

  lemma AuditGrows(ns: seq<Notification>, audit: seq<AuditRow>, more: seq<AuditRow>)
    requires AllWarranted(ns, audit)
    ensures AllWarranted(ns, audit + more)
  {
    forall n | n in ns
      ensures Warranted(audit + more, n)
    {
      var i :| 0 <= i < |audit| && Warrants(audit[i], n);
      assert (audit + more)[i] == audit[i];
    }
  }

  lemma ScheduleIsWarranted(ns: seq<Notification>, audit: seq<AuditRow>, a: AuditRow, expiry: Micros)
    requires AllWarranted(ns, audit)
    requires a.key.source == STORE && a.nextActive && a.nextExpiresAt == Some(expiry)
    ensures AllWarranted(Schedule(ns, a.key.user, expiry - MICROS_PER_DAY), audit + [a])
  {
    AuditGrows(ns, audit, [a]);
    assert Warrants((audit + [a])[|audit|], Notification(a.key.user, expiry - MICROS_PER_DAY, None));
  }

  lemma ClaimKeepsWarranted(ns: seq<Notification>, audit: seq<AuditRow>, ids: set<nat>, now: Micros)
    requires AllWarranted(ns, audit)
    ensures AllWarranted(ClaimNotifications(ns, ids, now), audit)
  {
    var after := ClaimNotifications(ns, ids, now);
    forall i | 0 <= i < |ns|
      ensures Warranted(audit, after[i])
    {
      var j :| 0 <= j < |audit| && Warrants(audit[j], ns[i]);
      assert Warrants(audit[j], after[i]);
    }
  }

  lemma WebhookKeepsWarranted(db: Db, e: StoreEvent, readAt: Micros, now: Micros)
    requires AllWarranted(db.notifications, db.projection.audit)
    ensures var after := StoreWebhook(db, e, readAt, now); AllWarranted(after.notifications, after.projection.audit)
  {
    hide GrantExpiry, AllWarranted;
    var w, was := StoreWrite(e, readAt), Lookup(db.projection.rows, Key(e.user, STORE));
    if !Recorded(db.events, e.eventId) && UpsertChanges(db.projection, w) {
      if w.active {
        ScheduleIsWarranted(db.notifications, db.projection.audit, UpsertAudit(w, was), w.expiresAt.value);
      } else {
        AuditGrows(db.notifications, db.projection.audit, [UpsertAudit(w, was)]);
      }
    }
  }

  lemma StepKeepsWarranted(w: World, s: Step)
    requires AllWarranted(w.db.notifications, w.db.projection.audit)
    ensures var db := Apply(w, s).db; AllWarranted(db.notifications, db.projection.audit)
  {
    hide GrantExpiry, UnixMilli, AllWarranted;
    var p, ns, more := w.db.projection, w.db.notifications, [];
    match s {
      case Deliver(e, readAt) => WebhookKeepsWarranted(w.db, e, readAt, w.now);
      case Revoke(user, id, batchAt) =>
        more := UpsertAddsOwn(p, RevokeWrite(user, id, batchAt), w.now);
        AuditGrows(ns, p.audit, more);
      case Poll(user, status, readAt) =>
        more := UpsertAddsOwn(p, CarrierWrite(user, false, readAt), w.now);
        AuditGrows(ns, p.audit, more);
      case Sweep(keys) =>
        more := SweepHasNoTrigger(p, keys, w.now);
        AuditGrows(ns, p.audit, more);
      case ClaimDue(ids) => ClaimKeepsWarranted(ns, p.audit, ids, w.now);
      case _ =>
    }
  }

  /** In every run, each notification announces an audited change to an active STORE grant of its user, 24
      hours before that grant's expiry. */
  lemma {:induction false} EveryNotificationIsWarranted(w: World, steps: seq<Step>)
    requires Initial(w) && ValidRun(w, steps)
    ensures var db := Run(w, steps).db; AllWarranted(db.notifications, db.projection.audit)
  {
    if steps != [] {
      EveryNotificationIsWarranted(w, Earlier(steps));
      StepKeepsWarranted(Run(w, Earlier(steps)), Last(steps));
    }
  }
}
