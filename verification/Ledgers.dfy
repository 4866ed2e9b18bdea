/** The tables that only grow: processed markers, notifications, and who claimed what. */
module Ledgers {
  import opened Calendar
  import opened Domain
  import opened Tables
  import opened Runs

  // ----- Each event takes effect once -----

  /** Whether an event id of a source has gone through. */
  predicate Through(db: Db, id: EventId, source: Source) {
    match source
    case STORE => Recorded(db.events, id)
    case MARKETPLACE => id in db.revocations
    case CARRIER => false
  }

  /** Markers stand exactly for the recorded events, which have unique ids; and an audit row that names
      an event names one that went through, and no other audit row of that source names it. */
  ghost predicate OncePerEvent(db: Db) {
    var audit := db.projection.audit;
    && (forall id, source :: Marker(id, source) in db.processed <==> Through(db, id, source))
    && UniqueIds(db.events)
    && (forall i :: 0 <= i < |audit| && audit[i].trigger.Some? ==>
          Through(db, audit[i].trigger.value, audit[i].key.source))
    && (forall i, j :: 0 <= i < j < |audit| && audit[i].key.source == audit[j].key.source && audit[i].trigger.Some?
          ==> audit[i].trigger != audit[j].trigger)
  }

  lemma DeliverOnce(db: Db, e: StoreEvent, readAt: Micros, now: Micros)
    requires OncePerEvent(db)
    ensures OncePerEvent(StoreWebhook(db, e, readAt, now))
  {
    hide GrantExpiry;
    if !Recorded(db.events, e.eventId) {
      var after := StoreWebhook(db, e, readAt, now);
      forall id, source
        ensures Through(after, id, source) <==> Through(db, id, source) || (id == e.eventId && source == STORE)
      {
        RecordedAppend(db.events, e, id);
      }
      UpsertNames(db.projection, StoreWrite(e, readAt), now);
    }
  }

  lemma RecordedAppend(events: seq<StoreEvent>, e: StoreEvent, id: EventId)
    ensures Recorded(events + [e], id) <==> Recorded(events, id) || id == e.eventId
  {
    assert (events + [e])[|events|] == e;
    if Recorded(events, id) {
      var i :| 0 <= i < |events| && events[i].eventId == id;
      assert (events + [e])[i] == events[i];
    }
  }

  /** An upsert adds at most one audit row, which names its own trigger and key. */
  lemma UpsertNames(p: Projection, w: Write, now: Micros)
    ensures var after := Upsert(p, w, now).audit;
            after == p.audit ||
            (|after| == |p.audit| + 1 && after[..|p.audit|] == p.audit
             && Last(after).trigger == w.trigger && Last(after).key == w.key
             && Last(after).nextActive == w.active && Last(after).nextExpiresAt == w.expiresAt
             && UpsertChanges(p, w))
  {
  }

  lemma RevokeOnce(db: Db, user: UserId, id: EventId, batchAt: Micros, now: Micros)
    requires OncePerEvent(db)
    ensures OncePerEvent(RevokeUser(db, user, id, batchAt, now))
  {
  }

  lemma {:induction false} SweepOnce(db: Db, keys: seq<Key>, now: Micros)
    requires OncePerEvent(db)
    ensures OncePerEvent(db.(projection := SweepBatch(db.projection, keys, now)))
    decreases |keys|
  {
    if keys != [] {
      SweepOnce(db.(projection := ExpireOne(db.projection, keys[0], now)), keys[1..], now);
    } else {
      assert db.(projection := SweepBatch(db.projection, keys, now)) == db;
    }
  }

  lemma StepOnce(w: World, s: Step)
    requires OncePerEvent(w.db)
    ensures OncePerEvent(Apply(w, s).db)
  {
    hide GrantExpiry, UnixMilli;
    match s {
      case Deliver(e, readAt) => DeliverOnce(w.db, e, readAt, w.now);
      case Revoke(user, id, batchAt) => RevokeOnce(w.db, user, id, batchAt, w.now);
      case Sweep(keys) => SweepOnce(w.db, keys, w.now);
      case _ =>
    }
  }

  /** In every run, failed attempts included, each event takes effect at most once and is marked exactly
      when it did. */
  lemma {:induction false} EventsTakeEffectOnce(w: World, steps: seq<Step>)
    requires Initial(w) && ValidRun(w, steps)
    ensures OncePerEvent(Run(w, steps).db)
  {
    if steps != [] {
      EventsTakeEffectOnce(w, Earlier(steps));
      StepOnce(Run(w, Earlier(steps)), Last(steps));
    }
  }

  /** An audit row names its cause: a recorded event of the same user, which is a grant with the stated
      expiry if the row became active; the user's revocation; a carrier poll; or the sweep. */
  ghost predicate Explained(events: seq<StoreEvent>, revocations: map<EventId, UserId>, a: AuditRow) {
    if a.trigger.None? then
      !a.nextActive && a.nextExpiresAt.None?
      && (a.reason == Some(EXPIRED) || (a.reason == Some(CarrierPoll) && a.key.source == CARRIER))
    else
      match a.key.source
      case STORE => exists i :: 0 <= i < |events| && Explains(events[i], a)
      case MARKETPLACE =>
        && !a.nextActive && a.nextExpiresAt.None? && a.reason == Some(MarketplaceRevoke)
        && a.trigger.value in revocations && revocations[a.trigger.value] == a.key.user
      case CARRIER => false
  }

  predicate Explains(e: StoreEvent, a: AuditRow) {
    && a.trigger == Some(e.eventId) && a.key.user == e.user
    && a.nextExpiresAt == (if Grants(e.kind) then Some(GrantExpiry(e.timeMs)) else None)
    && (a.nextActive ==> Grants(e.kind))
    && a.reason == Some(if Grants(e.kind) && !a.nextActive then EXPIRED else ByEvent(e.kind))
  }

  ghost predicate AllExplained(db: Db) {
    && (forall i :: 0 <= i < |db.projection.audit| ==> Explained(db.events, db.revocations, db.projection.audit[i]))
    && (forall i :: 0 <= i < |db.events| ==> Validate(db.events[i]).None?)
  }

  lemma ExplainedStays(events: seq<StoreEvent>, revocations: map<EventId, UserId>, e: StoreEvent, a: AuditRow)
    requires Explained(events, revocations, a)
    ensures Explained(events + [e], revocations, a)
  {
    if a.trigger.Some? && a.key.source == STORE {
      var i :| 0 <= i < |events| && Explains(events[i], a);
      assert (events + [e])[i] == events[i];
    }
  }

  lemma DeliverExplains(db: Db, e: StoreEvent, readAt: Micros, now: Micros)
    requires AllExplained(db) && Validate(e).None?
    ensures AllExplained(StoreWebhook(db, e, readAt, now))
  {
    hide GrantExpiry;
    if !Recorded(db.events, e.eventId) {
      var w := StoreWrite(e, readAt);
      var events, audit := db.events + [e], Upsert(db.projection, w, now).audit;
      forall i | 0 <= i < |audit|
        ensures Explained(events, db.revocations, audit[i])
      {
        if i < |db.projection.audit| {
          ExplainedStays(db.events, db.revocations, e, db.projection.audit[i]);
        } else {
          assert events[|db.events|] == e && Explains(e, audit[i]);
        }
      }
    }
  }

  lemma {:induction false} SweepExplains(db: Db, keys: seq<Key>, now: Micros)
    requires AllExplained(db)
    ensures AllExplained(db.(projection := SweepBatch(db.projection, keys, now)))
    decreases |keys|
  {
    if keys != [] {
      SweepExplains(db.(projection := ExpireOne(db.projection, keys[0], now)), keys[1..], now);
    } else {
      assert db.(projection := SweepBatch(db.projection, keys, now)) == db;
    }
  }

  lemma StepExplains(w: World, s: Step)
    requires Enabled(w, s) && AllExplained(w.db)
    ensures AllExplained(Apply(w, s).db)
  {
    hide GrantExpiry, UnixMilli;
    match s {
      case Deliver(e, readAt) => DeliverExplains(w.db, e, readAt, w.now);
      case Sweep(keys) => SweepExplains(w.db, keys, w.now);
      case _ =>
    }
  }

  /** In every run, every audit row names its cause, and every recorded event is a valid one. */
  lemma {:induction false} EveryChangeIsExplained(w: World, steps: seq<Step>)
    requires Initial(w) && ValidRun(w, steps)
    ensures AllExplained(Run(w, steps).db)
  {
    if steps != [] {
      EveryChangeIsExplained(w, Earlier(steps));
      StepExplains(Run(w, Earlier(steps)), Last(steps));
    }
  }

  // ----- Notifications -----

  /** The user has a notification on the UTC day before the expiry's day. */
  predicate Announced(ns: seq<Notification>, user: UserId, expiry: Micros) {
    exists i :: 0 <= i < |ns| && ns[i].user == user && UtcDay(ns[i].scheduledFor) == UtcDay(expiry) - 1
  }

  /** At most one notification per user and UTC day, none sent early, and one for every audited change
      to an active STORE grant. */
  ghost predicate NotificationsInOrder(ns: seq<Notification>, audit: seq<AuditRow>) {
    && (forall i, j :: 0 <= i < j < |ns| && ns[i].user == ns[j].user
          ==> UtcDay(ns[i].scheduledFor) != UtcDay(ns[j].scheduledFor))
    && (forall i :: 0 <= i < |ns| && ns[i].sentAt.Some? ==> ns[i].scheduledFor <= ns[i].sentAt.value)
    && (forall i :: 0 <= i < |audit| && audit[i].key.source == STORE && audit[i].nextActive ==>
          audit[i].nextExpiresAt.Some? && Announced(ns, audit[i].key.user, audit[i].nextExpiresAt.value))
  }

  lemma DayBefore(t: Micros)
    ensures UtcDay(t - MICROS_PER_DAY) == UtcDay(t) - 1
  {
  }

  lemma ScheduleKeeps(ns: seq<Notification>, user: UserId, expiry: Micros, other: UserId, t: Micros)
    ensures var after := Schedule(ns, user, expiry - MICROS_PER_DAY);
            && Announced(after, user, expiry)
            && (Announced(ns, other, t) ==> Announced(after, other, t))
  {
    var after := Schedule(ns, user, expiry - MICROS_PER_DAY);
    DayBefore(expiry);
    if |after| > |ns| {
      assert after[|ns|].user == user;
    }
    if Announced(ns, other, t) {
      var i :| 0 <= i < |ns| && ns[i].user == other && UtcDay(ns[i].scheduledFor) == UtcDay(t) - 1;
      assert after[i] == ns[i];
    }
  }

  lemma GrantAnnounced(ns: seq<Notification>, audit: seq<AuditRow>, a: AuditRow, expiry: Micros)
    requires NotificationsInOrder(ns, audit) && a.nextExpiresAt == Some(expiry)
    ensures NotificationsInOrder(Schedule(ns, a.key.user, expiry - MICROS_PER_DAY), audit + [a])
  {
    var after := Schedule(ns, a.key.user, expiry - MICROS_PER_DAY);
    forall i | 0 <= i < |audit + [a]| && (audit + [a])[i].key.source == STORE && (audit + [a])[i].nextActive
      ensures var b := (audit + [a])[i];
              b.nextExpiresAt.Some? && Announced(after, b.key.user, b.nextExpiresAt.value)
    {
      var b := (audit + [a])[i];
      ScheduleKeeps(ns, a.key.user, expiry, b.key.user, if b.nextExpiresAt.Some? then b.nextExpiresAt.value else 0);
    }
  }

  /** An upsert by itself, unless it changes a STORE row to an active grant. */
  lemma UpsertKeepsNotifications(ns: seq<Notification>, p: Projection, w: Write, now: Micros)
    requires NotificationsInOrder(ns, p.audit)
    requires w.key.source == STORE ==> !w.active || !UpsertChanges(p, w)
    ensures NotificationsInOrder(ns, Upsert(p, w, now).audit)
  {
  }

  /** A store write together with the notification it schedules. */
  lemma StoreWriteAnnounces(ns: seq<Notification>, p: Projection, w: Write, now: Micros)
    requires NotificationsInOrder(ns, p.audit) && (w.active ==> w.expiresAt.Some?)
    ensures NotificationsInOrder(if UpsertChanges(p, w) && w.active
                                 then Schedule(ns, w.key.user, w.expiresAt.value - MICROS_PER_DAY) else ns,
                                 Upsert(p, w, now).audit)
  {
    if UpsertChanges(p, w) && w.active {
      GrantAnnounced(ns, p.audit, UpsertAudit(w, Lookup(p.rows, w.key)), w.expiresAt.value);
    } else {
      UpsertKeepsNotifications(ns, p, w, now);
    }
  }

  lemma {:induction false} SweepKeepsNotifications(ns: seq<Notification>, p: Projection, keys: seq<Key>, now: Micros)
    requires NotificationsInOrder(ns, p.audit)
    ensures NotificationsInOrder(ns, SweepBatch(p, keys, now).audit)
    decreases |keys|
  {
    if keys != [] {
      SweepKeepsNotifications(ns, ExpireOne(p, keys[0], now), keys[1..], now);
    }
  }

  lemma ClaimKeepsAnnounced(ns: seq<Notification>, ids: set<nat>, now: Micros, user: UserId, t: Micros)
    ensures Announced(ClaimNotifications(ns, ids, now), user, t) <==> Announced(ns, user, t)
  {
    var after := ClaimNotifications(ns, ids, now);
    assert forall i :: 0 <= i < |ns| ==> after[i].user == ns[i].user && after[i].scheduledFor == ns[i].scheduledFor;
  }

  lemma ClaimKeepsNotifications(ns: seq<Notification>, audit: seq<AuditRow>, ids: set<nat>, now: Micros)
    requires NotificationsInOrder(ns, audit)
    requires forall id: nat :: id in ids ==> id < |ns| && NotificationDue(ns[id], now)
    ensures NotificationsInOrder(ClaimNotifications(ns, ids, now), audit)
  {
    forall user, t {
      ClaimKeepsAnnounced(ns, ids, now, user, t);
    }
  }

  lemma StepKeepsNotifications(w: World, s: Step)
    requires Enabled(w, s) && NotificationsInOrder(w.db.notifications, w.db.projection.audit)
    ensures var db := Apply(w, s).db; NotificationsInOrder(db.notifications, db.projection.audit)
  {
    hide GrantExpiry, UnixMilli;
    var ns, p := w.db.notifications, w.db.projection;
    match s {
      case Deliver(e, readAt) => StoreWriteAnnounces(ns, p, StoreWrite(e, readAt), w.now);
      case Revoke(user, id, batchAt) => UpsertKeepsNotifications(ns, p, RevokeWrite(user, id, batchAt), w.now);
      case Poll(user, status, readAt) =>
        UpsertKeepsNotifications(ns, p, CarrierWrite(user, status.PlanActive?, readAt), w.now);
      case Sweep(keys) => SweepKeepsNotifications(ns, p, keys, w.now);
      case ClaimDue(ids) => ClaimKeepsNotifications(ns, p.audit, ids, w.now);
      case _ =>
    }
  }

  /** In every run, users get at most one notification a day, and every change to an active STORE grant
      has one on the day before the grant's last day. */
  lemma {:induction false} EveryGrantIsAnnouncedOnce(w: World, steps: seq<Step>)
    requires Initial(w) && ValidRun(w, steps)
    ensures var db := Run(w, steps).db; NotificationsInOrder(db.notifications, db.projection.audit)
  {
    if steps != [] {
      EveryGrantIsAnnouncedOnce(w, Earlier(steps));
      StepKeepsNotifications(Run(w, Earlier(steps)), Last(steps));
    }
  }

  // ----- Claims -----

  /** The notification claims of a run, whichever workers made them. */
  function Claims(steps: seq<Step>): seq<set<nat>> {
    if steps == [] then []
    else Claims(Earlier(steps)) + if Last(steps).ClaimDue? then [Last(steps).ids] else []
  }

  ghost predicate ClaimedSomewhere(claims: seq<set<nat>>, id: nat) {
    exists j :: 0 <= j < |claims| && id in claims[j]
  }

  lemma ClaimedAppend(claims: seq<set<nat>>, ids: set<nat>, id: nat)
    ensures ClaimedSomewhere(claims + [ids], id) <==> ClaimedSomewhere(claims, id) || id in ids
  {
    if ClaimedSomewhere(claims, id) {
      var j :| 0 <= j < |claims| && id in claims[j];
      assert (claims + [ids])[j] == claims[j];
    }
    assert (claims + [ids])[|claims|] == ids;
  }

  /** The claims share no notification, and the claimed ones are exactly those marked sent. */
  ghost predicate ClaimsMatch(claims: seq<set<nat>>, ns: seq<Notification>) {
    && (forall i, j :: 0 <= i < j < |claims| ==> claims[i] !! claims[j])
    && (forall id: nat :: ClaimedSomewhere(claims, id) <==> id < |ns| && ns[id].sentAt.Some?)
  }

  lemma OneMoreClaim(claims: seq<set<nat>>, ns: seq<Notification>, ids: set<nat>, now: Micros)
    requires ClaimsMatch(claims, ns)
    requires forall id: nat :: id in ids ==> id < |ns| && NotificationDue(ns[id], now)
    ensures ClaimsMatch(claims + [ids], ClaimNotifications(ns, ids, now))
  {
    forall id: nat
      ensures ClaimedSomewhere(claims + [ids], id) <==> ClaimedSomewhere(claims, id) || id in ids
    {
      ClaimedAppend(claims, ids, id);
    }
    forall j | 0 <= j < |claims|
      ensures claims[j] !! ids
    {
      assert forall id: nat :: id in claims[j] ==> ClaimedSomewhere(claims, id);
    }
  }

  /** No notification is ever claimed twice, by whichever workers, and the claimed ones are exactly
      those marked sent. */
  lemma {:induction false} ClaimsAreDisjoint(w: World, steps: seq<Step>)
    requires Initial(w) && ValidRun(w, steps)
    ensures ClaimsMatch(Claims(steps), Run(w, steps).db.notifications)
  {
    hide GrantExpiry, UnixMilli;
    if steps != [] {
      var v, s := Run(w, Earlier(steps)), Last(steps);
      ClaimsAreDisjoint(w, Earlier(steps));
      if s.ClaimDue? {
        assert Enabled(v, s);
        OneMoreClaim(Claims(Earlier(steps)), v.db.notifications, s.ids, v.now);
      } else {
        StepKeepsSent(v, s);
        SameSentSameMatch(Claims(Earlier(steps)), v.db.notifications, Apply(v, s).db.notifications);
        assert Claims(steps) == Claims(Earlier(steps));
      }
    }
  }

  lemma SameSentSameMatch(claims: seq<set<nat>>, ns: seq<Notification>, after: seq<Notification>)
    requires ClaimsMatch(claims, ns) && |ns| <= |after|
    requires forall i :: 0 <= i < |ns| ==> after[i] == ns[i]
    requires forall i :: |ns| <= i < |after| ==> after[i].sentAt.None?
    ensures ClaimsMatch(claims, after)
  {
  }

  lemma StepKeepsSent(w: World, s: Step)
    requires !s.ClaimDue?
    ensures var ns, after := w.db.notifications, Apply(w, s).db.notifications;
            && |ns| <= |after|
            && (forall i :: 0 <= i < |ns| ==> after[i] == ns[i])
            && (forall i :: |ns| <= i < |after| ==> after[i].sentAt.None?)
  {
  }

  /** When a carrier row was claimed, oldest first. */
  function ClaimTimes(w: World, steps: seq<Step>, u: UserId): seq<Micros> {
    if steps == [] then []
    else
      var before, s := Earlier(steps), Last(steps);
      ClaimTimes(w, before, u) +
      if s.ClaimCarrierRows? && u in s.users then [Run(w, before).now] else []
  }

  lemma {:induction false} SweepKeepsPolledAt(p: Projection, keys: seq<Key>, now: Micros, k: Key)
    requires k in p.rows
    ensures k in SweepBatch(p, keys, now).rows
    ensures SweepBatch(p, keys, now).rows[k].carrierPolledAt == p.rows[k].carrierPolledAt
    decreases |keys|
  {
    if keys != [] {
      SweepKeepsPolledAt(ExpireOne(p, keys[0], now), keys[1..], now, k);
    }
  }

  lemma OnlyClaimsSetPolledAt(w: World, s: Step, u: UserId)
    requires Enabled(w, s) && Key(u, CARRIER) in w.db.projection.rows
    ensures var v := Apply(w, s);
            && Key(u, CARRIER) in v.db.projection.rows
            && v.db.projection.rows[Key(u, CARRIER)].carrierPolledAt ==
               if s.ClaimCarrierRows? && u in s.users then Some(w.now)
               else w.db.projection.rows[Key(u, CARRIER)].carrierPolledAt
  {
    hide GrantExpiry, UnixMilli;
    if s.Sweep? {
      SweepKeepsPolledAt(w.db.projection, s.keys, w.now, Key(u, CARRIER));
    }
  }

  /** The times are at least five minutes apart, and the last one is stamped on the row. */
  ghost predicate Spaced(times: seq<Micros>, row: Option<Row>) {
    && (forall i, j :: 0 <= i < j < |times| ==> times[i] + STALENESS <= times[j])
    && (times != [] ==> row.Some? && row.value.carrierPolledAt == Some(Last(times)))
  }

  lemma NextClaimIsSpaced(times: seq<Micros>, r: Row, readAt: Micros, now: Micros)
    requires Spaced(times, Some(r)) && CarrierDue(r, readAt - STALENESS) && readAt <= now
    ensures Spaced(times + [now], Some(r.(carrierPolledAt := Some(now))))
  {
    forall i | 0 <= i < |times|
      ensures times[i] <= Last(times)
    {
    }
  }

  lemma StepKeepsSpaced(w: World, s: Step, u: UserId, times: seq<Micros>)
    requires Enabled(w, s) && Spaced(times, Lookup(w.db.projection.rows, Key(u, CARRIER)))
    ensures Spaced(times + (if s.ClaimCarrierRows? && u in s.users then [w.now] else []),
                   Lookup(Apply(w, s).db.projection.rows, Key(u, CARRIER)))
  {
    hide GrantExpiry, UnixMilli;
    var k := Key(u, CARRIER);
    if k in w.db.projection.rows {
      OnlyClaimsSetPolledAt(w, s, u);
    }
    if s.ClaimCarrierRows? && u in s.users {
      NextClaimIsSpaced(times, w.db.projection.rows[k], s.readAt, w.now);
    } else {
      assert times + [] == times;
    }
  }

  /** Any two claims of a user's carrier row, by any workers, are at least five minutes apart. */
  lemma {:induction false} CarrierClaimsAreApart(w: World, steps: seq<Step>, u: UserId)
    requires Initial(w) && ValidRun(w, steps)
    ensures Spaced(ClaimTimes(w, steps, u), Lookup(Run(w, steps).db.projection.rows, Key(u, CARRIER)))
  {
    if steps != [] {
      CarrierClaimsAreApart(w, Earlier(steps), u);
      StepKeepsSpaced(Run(w, Earlier(steps)), Last(steps), u, ClaimTimes(w, Earlier(steps), u));
    }
  }
}
