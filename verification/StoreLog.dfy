/** The STORE row as a cache of the event log: what it agrees with, and exactly when it does not. */
module StoreLog {
  import opened Calendar
  import opened Domain
  import opened Tables
  import opened Runs
  import Sweeps

  // ----- Replaying the log -----

  /** The event that replaying a log leaves in charge of a user: the latest, and among events with the
      same time the one recorded first. */
  function Newest(events: seq<StoreEvent>, u: UserId): Option<StoreEvent> {
    if events == [] then None
    else
      var before, e := Newest(events[..|events| - 1], u), events[|events| - 1];
      if e.user == u && (before.None? || before.value.timeMs < e.timeMs) then Some(e) else before
  }

  ghost predicate IsFirstLatest(events: seq<StoreEvent>, u: UserId, i: nat) {
    && i < |events|
    && events[i].user == u
    && (forall j :: 0 <= j < |events| && events[j].user == u ==> events[j].timeMs <= events[i].timeMs)
    && (forall j :: 0 <= j < i && events[j].user == u ==> events[j].timeMs < events[i].timeMs)
  }

  lemma {:induction false} NewestIsFirstLatest(events: seq<StoreEvent>, u: UserId)
    ensures match Newest(events, u)
            case None => forall i :: 0 <= i < |events| ==> events[i].user != u
            case Some(e) => exists i: nat :: IsFirstLatest(events, u, i) && events[i] == e
  {
    if events != [] {
      var before, e := events[..|events| - 1], events[|events| - 1];
      NewestIsFirstLatest(before, u);
      assert events == before + [e];
      if Newest(events, u) == Newest(before, u) {
        if Newest(before, u).Some? {
          var i: nat :| IsFirstLatest(before, u, i) && before[i] == Newest(before, u).value;
          FirstLatestStays(before, e, u, i);
        }
      } else {
        assert IsFirstLatest(events, u, |before|);
      }
    }
  }

  lemma FirstLatestStays(events: seq<StoreEvent>, e: StoreEvent, u: UserId, i: nat)
    requires IsFirstLatest(events, u, i) && (e.user == u ==> e.timeMs <= events[i].timeMs)
    ensures IsFirstLatest(events + [e], u, i)
  {
  }

  lemma NewestAppend(events: seq<StoreEvent>, e: StoreEvent, u: UserId)
    ensures Newest(events + [e], u) ==
            var before := Newest(events, u);
            if e.user == u && (before.None? || before.value.timeMs < e.timeMs) then Some(e) else before
  {
    assert (events + [e])[..|events|] == events;
  }

  /** Whether one event alone grants access at an instant. */
  predicate GrantsAt(e: StoreEvent, t: Micros) {
    Grants(e.kind) && t < GrantExpiry(e.timeMs)
  }

  /** Access according to the log. */
  predicate LogActive(events: seq<StoreEvent>, u: UserId, t: Micros) {
    var e := Newest(events, u);
    e.Some? && GrantsAt(e.value, t)
  }

  /** Access according to the STORE row. */
  predicate StoreActive(rows: map<Key, Row>, u: UserId, t: Micros) {
    var k := Key(u, STORE);
    k in rows && IsActive(rows[k], t)
  }

  // ----- What ties the row to the log -----

  predicate IsSweepOf(a: AuditRow, u: UserId, t: Millis) {
    a.key == Key(u, STORE) && a.trigger.None? && a.previousExpiresAt.Some?
    && UnixMilli(a.previousExpiresAt.value) == t
  }

  /** A sweep has expired the user's STORE row at this expiry; the audit log shows it. */
  ghost predicate Swept(audit: seq<AuditRow>, u: UserId, t: Millis) {
    exists i :: 0 <= i < |audit| && IsSweepOf(audit[i], u, t)
  }

  lemma SweptAppend(audit: seq<AuditRow>, a: AuditRow, u: UserId, t: Millis)
    ensures Swept(audit + [a], u, t) <==> Swept(audit, u, t) || IsSweepOf(a, u, t)
  {
    if Swept(audit, u, t) {
      var i :| 0 <= i < |audit| && IsSweepOf(audit[i], u, t);
      assert (audit + [a])[i] == audit[i];
    }
    if IsSweepOf(a, u, t) {
      assert (audit + [a])[|audit|] == a;
    }
  }

  /** The row is the one this event wrote: a grant that had run out on arrival is kept as expired. */
  predicate Follows(r: Row, e: StoreEvent, now: Micros) {
    && r.lastEventTime == e.timeMs
    && r.expiresAt == (if Grants(e.kind) then Some(GrantExpiry(e.timeMs)) else None)
    && (r.active ==> Grants(e.kind))
    && (Grants(e.kind) && !r.active ==> GrantExpiry(e.timeMs) <= now)
    && r.reason == Some(if Grants(e.kind) && !r.active then EXPIRED else ByEvent(e.kind))
  }

  ghost predicate RowMatchesLog(p: Projection, events: seq<StoreEvent>, u: UserId, now: Micros) {
    match Newest(events, u)
    case None => Key(u, STORE) !in p.rows && forall t :: !Swept(p.audit, u, t)
    case Some(e) =>
      && Key(u, STORE) in p.rows
      && var r := p.rows[Key(u, STORE)];
         && e.timeMs <= r.lastEventTime
         && (forall t :: Swept(p.audit, u, t) ==> t <= r.lastEventTime)
         && (if Swept(p.audit, u, r.lastEventTime)
             then !r.active && r.expiresAt.None? && r.reason == Some(EXPIRED)
             else Follows(r, e, now))
  }

  ghost predicate Cached(w: World) {
    forall u :: RowMatchesLog(w.db.projection, w.db.events, u, w.now)
  }

  // ----- Every step keeps it -----

  /** Nothing about the user's STORE row or its sweeps differs. */
  ghost predicate SameStoreView(p: Projection, q: Projection, u: UserId) {
    && Lookup(p.rows, Key(u, STORE)) == Lookup(q.rows, Key(u, STORE))
    && forall t :: Swept(p.audit, u, t) <==> Swept(q.audit, u, t)
  }

  lemma SameViewMatches(p: Projection, events: seq<StoreEvent>, q: Projection, more: seq<StoreEvent>,
                        u: UserId, now: Micros)
    requires RowMatchesLog(p, events, u, now) && SameStoreView(p, q, u)
    requires Newest(events, u) == Newest(more, u)
    ensures RowMatchesLog(q, more, u, now)
  {
    hide GrantExpiry, UnixMilli, Newest, Swept;
    assert Key(u, STORE) in p.rows <==> Lookup(p.rows, Key(u, STORE)).Some?;
    assert Key(u, STORE) in q.rows <==> Lookup(q.rows, Key(u, STORE)).Some?;
  }

  lemma UpsertElsewhere(p: Projection, w: Write, now: Micros, u: UserId)
    requires w.key != Key(u, STORE)
    ensures SameStoreView(p, Upsert(p, w, now), u)
  {
    forall t {
      SweptAppend(p.audit, UpsertAudit(w, Lookup(p.rows, w.key)), u, t);
    }
  }

  lemma DeliverKeepsUser(p: Projection, events: seq<StoreEvent>, e: StoreEvent, readAt: Micros, at: Micros, now: Micros)
    requires RowMatchesLog(p, events, e.user, now) && readAt <= now
    ensures RowMatchesLog(Upsert(p, StoreWrite(e, readAt), at), events + [e], e.user, now)
  {
    hide GrantExpiry, UnixMilli, Newest, Swept;
    var w := StoreWrite(e, readAt);
    NewestAppend(events, e, e.user);
    TriggeredSweepsNothing(p, w, at, e.user);
  }

  lemma TriggeredSweepsNothing(p: Projection, w: Write, now: Micros, u: UserId)
    requires w.trigger.Some?
    ensures forall t :: Swept(Upsert(p, w, now).audit, u, t) <==> Swept(p.audit, u, t)
  {
    hide UnixMilli;
    forall t {
      SweptAppend(p.audit, UpsertAudit(w, Lookup(p.rows, w.key)), u, t);
    }
  }

  lemma ExpireKeepsUser(p: Projection, events: seq<StoreEvent>, k: Key, u: UserId, at: Micros, now: Micros)
    requires RowMatchesLog(p, events, u, now)
    ensures RowMatchesLog(ExpireOne(p, k, at), events, u, now)
  {
    if k in p.rows && Due(p.rows[k], at) {
      forall t {
        SweptAppend(p.audit, ExpiryAudit(k, p.rows[k]), u, t);
      }
    }
  }

  lemma {:induction false} SweepKeepsUser(p: Projection, events: seq<StoreEvent>, keys: seq<Key>, u: UserId,
                                          at: Micros, now: Micros)
    requires RowMatchesLog(p, events, u, now)
    ensures RowMatchesLog(SweepBatch(p, keys, at), events, u, now)
    decreases |keys|
  {
    if keys != [] {
      ExpireKeepsUser(p, events, keys[0], u, at, now);
      SweepKeepsUser(ExpireOne(p, keys[0], at), events, keys[1..], u, at, now);
    }
  }

  lemma LaterMatches(p: Projection, events: seq<StoreEvent>, u: UserId, now: Micros, later: Micros)
    requires RowMatchesLog(p, events, u, now) && now <= later
    ensures RowMatchesLog(p, events, u, later)
  {
    hide GrantExpiry, UnixMilli, Newest, Swept;
  }

  lemma StepKeepsUser(w: World, s: Step, u: UserId)
    requires Enabled(w, s) && RowMatchesLog(w.db.projection, w.db.events, u, w.now)
    ensures var v := Apply(w, s); RowMatchesLog(v.db.projection, v.db.events, u, v.now)
  {
    hide GrantExpiry, UnixMilli, RowMatchesLog, Swept, Newest;
    var p, events, v := w.db.projection, w.db.events, Apply(w, s);
    match s {
      case Deliver(e, readAt) =>
        if !Recorded(events, e.eventId) {
          if e.user == u {
            DeliverKeepsUser(p, events, e, readAt, w.now, w.now);
          } else {
            UpsertElsewhere(p, StoreWrite(e, readAt), w.now, u);
            NewestAppend(events, e, u);
            SameViewMatches(p, events, v.db.projection, v.db.events, u, w.now);
          }
        }
      case Revoke(user, id, batchAt) =>
        UpsertElsewhere(p, RevokeWrite(user, id, batchAt), w.now, u);
        SameViewMatches(p, events, v.db.projection, events, u, w.now);
      case Poll(user, status, readAt) =>
        UpsertElsewhere(p, CarrierWrite(user, status.PlanActive?, readAt), w.now, u);
        SameViewMatches(p, events, v.db.projection, events, u, w.now);
      case Sweep(keys) =>
        SweepKeepsUser(p, events, keys, u, w.now, w.now);
      case ClaimCarrierRows(users, readAt) =>
        SameViewMatches(p, events, v.db.projection, events, u, w.now);
      case Advance(_) =>
        LaterMatches(p, events, u, w.now, v.now);
      case _ =>
    }
  }

  lemma StepKeepsCached(w: World, s: Step)
    requires Enabled(w, s) && Cached(w)
    ensures Cached(Apply(w, s))
  {
    var v := Apply(w, s);
    forall u
      ensures RowMatchesLog(v.db.projection, v.db.events, u, v.now)
    {
      StepKeepsUser(w, s, u);
    }
  }

  lemma InitialCached(w: World)
    requires Initial(w)
    ensures Cached(w)
  {
  }

  lemma {:induction false} ReachableIsCached(w: World, steps: seq<Step>)
    requires Initial(w) && ValidRun(w, steps)
    ensures Cached(Run(w, steps))
  {
    if steps == [] {
      InitialCached(w);
    } else {
      ReachableIsCached(w, Earlier(steps));
      StepKeepsCached(Run(w, Earlier(steps)), Last(steps));
    }
  }

  // ----- When row and log agree -----

  /** From now on, the row and the log give the same answer for the user. */
  ghost predicate Agree(w: World, u: UserId) {
    forall t :: w.now <= t ==> (StoreActive(w.db.projection.rows, u, t) <==> LogActive(w.db.events, u, t))
  }

  /** The row was last written by a sweep, and the latest recorded event still grants access. */
  ghost predicate Overtaken(w: World, u: UserId) {
    && Key(u, STORE) in w.db.projection.rows
    && Swept(w.db.projection.audit, u, w.db.projection.rows[Key(u, STORE)].lastEventTime)
    && LogActive(w.db.events, u, w.now)
  }

  lemma AgreeUnlessOvertaken(w: World, u: UserId)
    requires Cached(w)
    ensures Agree(w, u) <==> !Overtaken(w, u)
  {
    hide GrantExpiry;
    assert RowMatchesLog(w.db.projection, w.db.events, u, w.now);
    if Overtaken(w, u) {
      assert !StoreActive(w.db.projection.rows, u, w.now);
    }
  }

  /** In every reachable state the STORE row and the event log agree about a user, now and later,
      if and only if no sweep has overtaken an event that still grants access. */
  lemma CacheAgreesWithLog(w: World, steps: seq<Step>, u: UserId)
    requires Initial(w) && ValidRun(w, steps)
    ensures Agree(Run(w, steps), u) <==> !Overtaken(Run(w, steps), u)
  {
    ReachableIsCached(w, steps);
    AgreeUnlessOvertaken(Run(w, steps), u);
  }

  /** A delivery that will be recorded and then ignored although it should grant access: its event is
      newer than every recorded event of the user, but not newer than the row. */
  predicate Missed(w: World, e: StoreEvent) {
    var k, newest := Key(e.user, STORE), Newest(w.db.events, e.user);
    && !Recorded(w.db.events, e.eventId)
    && k in w.db.projection.rows
    && e.timeMs <= w.db.projection.rows[k].lastEventTime
    && (newest.None? || newest.value.timeMs < e.timeMs)
    && GrantsAt(e, w.now)
  }

  /** A delivery leaves row and log in agreement exactly when it is not missed. */
  lemma DeliveryKeepsAgreement(w: World, e: StoreEvent, readAt: Micros)
    requires Cached(w) && Enabled(w, Deliver(e, readAt)) && Agree(w, e.user)
    ensures Agree(Apply(w, Deliver(e, readAt)), e.user) <==> !Missed(w, e)
  {
    hide GrantExpiry;
    var v, u := Apply(w, Deliver(e, readAt)), e.user;
    assert RowMatchesLog(w.db.projection, w.db.events, u, w.now);
    StepKeepsUser(w, Deliver(e, readAt), u);
    NewestAppend(w.db.events, e, u);
    if Missed(w, e) {
      assert LogActive(v.db.events, u, v.now) && !StoreActive(v.db.projection.rows, u, v.now);
    }
  }

  lemma SameViewSameAnswers(w: World, v: World, u: UserId)
    requires Lookup(w.db.projection.rows, Key(u, STORE)) == Lookup(v.db.projection.rows, Key(u, STORE))
    requires Newest(w.db.events, u) == Newest(v.db.events, u) && w.now <= v.now && Agree(w, u)
    ensures Agree(v, u)
  {
    forall t | v.now <= t
      ensures StoreActive(v.db.projection.rows, u, t) <==> LogActive(v.db.events, u, t)
    {
      assert StoreActive(w.db.projection.rows, u, t) <==> LogActive(w.db.events, u, t);
    }
  }

  /** No step but a delivery or a sweep touches a user's STORE row or log, and those only their own. */
  lemma OtherStepsSameView(w: World, s: Step, u: UserId)
    requires Enabled(w, s) && !s.Sweep? && (s.Deliver? ==> s.event.user != u)
    ensures var v := Apply(w, s);
            && Lookup(w.db.projection.rows, Key(u, STORE)) == Lookup(v.db.projection.rows, Key(u, STORE))
            && Newest(w.db.events, u) == Newest(v.db.events, u)
            && w.now <= v.now
  {
    hide GrantExpiry, UnixMilli;
    if s.Deliver? {
      NewestAppend(w.db.events, s.event, u);
    }
  }

  lemma StepKeepsAgreement(w: World, s: Step, u: UserId)
    requires Cached(w) && Enabled(w, s) && Agree(w, u)
    requires s.Deliver? ==> !Missed(w, s.event)
    ensures Agree(Apply(w, s), u)
  {
    hide GrantExpiry;
    if s.Sweep? {
      SweepKeepsAnswers(w.db.projection, s.keys, w.now, u);
    } else if s.Deliver? && s.event.user == u {
      DeliveryKeepsAgreement(w, s.event, s.readAt);
    } else {
      OtherStepsSameView(w, s, u);
      SameViewSameAnswers(w, Apply(w, s), u);
    }
  }

  lemma {:induction false} SweepKeepsAnswers(p: Projection, keys: seq<Key>, now: Micros, u: UserId)
    ensures forall t :: now <= t ==> (StoreActive(p.rows, u, t) <==> StoreActive(SweepBatch(p, keys, now).rows, u, t))
    decreases |keys|
  {
    if keys != [] {
      SweepKeepsAnswers(ExpireOne(p, keys[0], now), keys[1..], now, u);
    }
  }

  ghost predicate NoDeliveryMissed(w: World, steps: seq<Step>) {
    steps != [] ==>
      && NoDeliveryMissed(w, Earlier(steps))
      && (Last(steps).Deliver? ==> !Missed(Run(w, Earlier(steps)), Last(steps).event))
  }

  /** In every run that misses no delivery, row and log agree about everyone (all along, since every
      prefix of such a run is one). */
  lemma {:induction false} AgreementThroughout(w: World, steps: seq<Step>, u: UserId)
    requires Initial(w) && ValidRun(w, steps) && NoDeliveryMissed(w, steps)
    ensures Agree(Run(w, steps), u)
  {
    hide GrantExpiry;
    if steps == [] {
      InitialCached(w);
      AgreeUnlessOvertaken(w, u);
    } else {
      AgreementThroughout(w, Earlier(steps), u);
      ReachableIsCached(w, Earlier(steps));
      StepKeepsAgreement(Run(w, Earlier(steps)), Last(steps), u);
    }
  }

  /** After every prefix of a run, row and log agree about everyone. */
  ghost predicate AgreeAllAlong(w: World, steps: seq<Step>) {
    && AllAgree(Run(w, steps))
    && (steps != [] ==> AgreeAllAlong(w, Earlier(steps)))
  }

  ghost predicate AllAgree(w: World) {
    forall u :: Agree(w, u)
  }

  lemma MissedDisagrees(w: World, s: Step)
    requires Cached(w) && Enabled(w, s) && AllAgree(w) && s.Deliver? && Missed(w, s.event)
    ensures !AllAgree(Apply(w, s))
  {
    hide Agree;
    DeliveryKeepsAgreement(w, s.event, s.readAt);
  }

  /** Row and log agree about everyone all along a run if and only if it misses no delivery. */
  lemma {:induction false} AgreeExactlyUnlessMissed(w: World, steps: seq<Step>)
    requires Initial(w) && ValidRun(w, steps)
    ensures AgreeAllAlong(w, steps) <==> NoDeliveryMissed(w, steps)
  {
    forall u | NoDeliveryMissed(w, steps)
      ensures Agree(Run(w, steps), u)
    {
      AgreementThroughout(w, steps, u);
    }
    assert NoDeliveryMissed(w, steps) ==> AllAgree(Run(w, steps));
    hide AllAgree, Missed, Apply, GrantExpiry;
    if steps != [] {
      var v, s := Run(w, Earlier(steps)), Last(steps);
      AgreeExactlyUnlessMissed(w, Earlier(steps));
      ReachableIsCached(w, Earlier(steps));
      if AgreeAllAlong(w, Earlier(steps)) && s.Deliver? && Missed(v, s.event) {
        MissedDisagrees(v, s);
      }
    }
  }

  // ----- Consequences for every reachable state -----

  ghost predicate RecordedAt(events: seq<StoreEvent>, u: UserId, t: Millis) {
    exists i :: 0 <= i < |events| && events[i].user == u && events[i].timeMs == t
  }

  /** A STORE row exists exactly for the users with recorded events; its last_event_time is the latest
      of the user's recorded event times and swept expiries; a stored expiry is later still. */
  lemma TimestampAccounting(w: World, steps: seq<Step>, u: UserId)
    requires Initial(w) && ValidRun(w, steps)
    ensures var db, k := Run(w, steps).db, Key(u, STORE);
            && (k in db.projection.rows <==> exists t :: RecordedAt(db.events, u, t))
            && (k in db.projection.rows ==>
                  var r := db.projection.rows[k];
                  && (RecordedAt(db.events, u, r.lastEventTime) || Swept(db.projection.audit, u, r.lastEventTime))
                  && (forall t :: RecordedAt(db.events, u, t) || Swept(db.projection.audit, u, t)
                        ==> t <= r.lastEventTime)
                  && (r.expiresAt.Some? ==> r.lastEventTime < UnixMilli(r.expiresAt.value)))
  {
    hide GrantExpiry;
    var v := Run(w, steps);
    ReachableIsCached(w, steps);
    assert RowMatchesLog(v.db.projection, v.db.events, u, v.now);
    NewestIsFirstLatest(v.db.events, u);
    if Newest(v.db.events, u).Some? {
      assert RecordedAt(v.db.events, u, Newest(v.db.events, u).value.timeMs);
    }
  }

  /** The grant behind a premium answer: the latest recorded event, whose month is still running and
      whose expiry and type the row carries. */
  ghost predicate GrantBehind(db: Db, u: UserId, i: nat, t: Micros) {
    && IsFirstLatest(db.events, u, i)
    && GrantsAt(db.events[i], t)
    && var r := Lookup(db.projection.rows, Key(u, STORE));
       r.Some? && r.value.expiresAt == Some(GrantExpiry(db.events[i].timeMs))
       && r.value.reason == Some(ByEvent(db.events[i].kind))
  }

  lemma ActiveRowHasGrant(w: World, u: UserId, t: Micros)
    requires Cached(w) && StoreActive(w.db.projection.rows, u, t)
    ensures exists i: nat :: GrantBehind(w.db, u, i, t)
  {
    hide GrantExpiry;
    assert RowMatchesLog(w.db.projection, w.db.events, u, w.now);
    NewestIsFirstLatest(w.db.events, u);
    var e := Newest(w.db.events, u).value;
    var i: nat :| IsFirstLatest(w.db.events, u, i) && w.db.events[i] == e;
    assert GrantBehind(w.db, u, i, t);
  }

  /** Whenever the STORE row says a user is premium, a recorded grant says so too, and no recorded
      event of the user is later. */
  lemma PremiumAnswersAreSound(w: World, steps: seq<Step>, u: UserId, t: Micros)
    requires Initial(w) && ValidRun(w, steps)
    requires StoreActive(Run(w, steps).db.projection.rows, u, t)
    ensures exists i: nat :: GrantBehind(Run(w, steps).db, u, i, t)
  {
    ReachableIsCached(w, steps);
    ActiveRowHasGrant(Run(w, steps), u, t);
  }

  // ----- Delivery order -----

  function Delivered(steps: seq<Step>): set<StoreEvent> {
    if steps == [] then {}
    else Delivered(Earlier(steps)) + if Last(steps).Deliver? then {Last(steps).event} else {}
  }

  /** An event id stands for one event. */
  ghost predicate ConsistentIds(events: set<StoreEvent>) {
    forall e, f :: e in events && f in events && e.eventId == f.eventId ==> e == f
  }

  ghost predicate DistinctTimes(events: set<StoreEvent>) {
    forall e, f :: e in events && f in events && e.user == f.user && e.timeMs == f.timeMs ==> e == f
  }

  lemma {:induction false} RecordedIsDelivered(w: World, steps: seq<Step>)
    requires Initial(w) && ValidRun(w, steps) && ConsistentIds(Delivered(steps))
    ensures forall e :: e in Run(w, steps).db.events <==> e in Delivered(steps)
  {
    hide GrantExpiry;
    if steps != [] {
      RecordedIsDelivered(w, Earlier(steps));
    }
  }

  lemma NewestIsLatest(events: seq<StoreEvent>, u: UserId)
    ensures match Newest(events, u)
            case None => forall f :: f in events ==> f.user != u
            case Some(e) =>
              e in events && e.user == u && forall f :: f in events && f.user == u ==> f.timeMs <= e.timeMs
  {
    NewestIsFirstLatest(events, u);
  }

  lemma SameEventsSameNewest(a: seq<StoreEvent>, b: seq<StoreEvent>, u: UserId)
    requires forall e :: e in a <==> e in b
    requires forall e, f :: e in a && f in a && e.user == f.user && e.timeMs == f.timeMs ==> e == f
    ensures Newest(a, u) == Newest(b, u)
  {
    NewestIsLatest(a, u);
    NewestIsLatest(b, u);
    if Newest(a, u).Some? && Newest(b, u).Some? {
      var e, f := Newest(a, u).value, Newest(b, u).value;
      assert e in b && f in a && e.timeMs == f.timeMs;
    }
  }

  /** Two runs that deliver the same events, in any order, with duplicates, failed attempts and any
      other steps in between, and that miss no delivery, give the same answer from then on. */
  lemma DeliveryOrderDoesNotMatter(w: World, steps: seq<Step>, v: World, others: seq<Step>, u: UserId, t: Micros)
    requires Initial(w) && ValidRun(w, steps) && NoDeliveryMissed(w, steps)
    requires Initial(v) && ValidRun(v, others) && NoDeliveryMissed(v, others)
    requires Delivered(steps) == Delivered(others)
    requires ConsistentIds(Delivered(steps)) && DistinctTimes(Delivered(steps))
    requires Run(w, steps).now <= t && Run(v, others).now <= t
    ensures StoreActive(Run(w, steps).db.projection.rows, u, t)
            <==> StoreActive(Run(v, others).db.projection.rows, u, t)
  {
    RecordedIsDelivered(w, steps);
    RecordedIsDelivered(v, others);
    SameEventsSameNewest(Run(w, steps).db.events, Run(v, others).db.events, u);
    AgreementThroughout(w, steps, u);
    AgreementThroughout(v, others, u);
  }

  ghost predicate WithoutSweeps(steps: seq<Step>) {
    forall s :: s in steps ==> !s.Sweep?
  }

  lemma {:induction false} NothingSweptWithoutSweeps(w: World, steps: seq<Step>)
    requires Initial(w) && ValidRun(w, steps) && WithoutSweeps(steps)
    ensures forall u, t :: !Swept(Run(w, steps).db.projection.audit, u, t)
  {
    if steps != [] {
      NothingSweptWithoutSweeps(w, Earlier(steps));
      forall u, t
        ensures !Swept(Run(w, steps).db.projection.audit, u, t)
      {
        StepSweepsNothing(Run(w, Earlier(steps)), Last(steps), u, t);
      }
    }
  }

  lemma StepSweepsNothing(w: World, s: Step, u: UserId, t: Millis)
    requires !s.Sweep? && !Swept(w.db.projection.audit, u, t)
    ensures !Swept(Apply(w, s).db.projection.audit, u, t)
  {
    hide GrantExpiry, UnixMilli;
    var p, q := w.db.projection, Apply(w, s).db.projection;
    if |q.audit| > |p.audit| {
      SweptAppend(p.audit, Last(q.audit), u, t);
    }
  }

  /** A run without sweeps misses no delivery, so without sweeps the order never matters. */
  lemma {:induction false} NothingMissedWithoutSweeps(w: World, steps: seq<Step>)
    requires Initial(w) && ValidRun(w, steps) && WithoutSweeps(steps)
    ensures NoDeliveryMissed(w, steps)
  {
    hide GrantExpiry;
    if steps != [] {
      var before := Earlier(steps);
      NothingMissedWithoutSweeps(w, before);
      if Last(steps).Deliver? {
        var v, u := Run(w, before), Last(steps).event.user;
        NothingSweptWithoutSweeps(w, before);
        ReachableIsCached(w, before);
        assert RowMatchesLog(v.db.projection, v.db.events, u, v.now);
      }
    }
  }

  /** The rows themselves may differ: a grant that arrives after its month is stored inactive, one that
      arrives in time active, and both answer alike from then on. */
  lemma ArrivalShowsInRow(w: World, e: StoreEvent, late: Micros)
    requires Initial(w) && Grants(e.kind) && w.now < GrantExpiry(e.timeMs) <= late
    ensures var early, after := StoreWebhook(w.db, e, w.now, w.now), StoreWebhook(w.db, e, late, late);
            && Key(e.user, STORE) in early.projection.rows && early.projection.rows[Key(e.user, STORE)].active
            && Key(e.user, STORE) in after.projection.rows && !after.projection.rows[Key(e.user, STORE)].active
            && forall t :: late <= t ==>
                 (StoreActive(early.projection.rows, e.user, t) <==> StoreActive(after.projection.rows, e.user, t))
  {
    hide GrantExpiry;
    var early, after := StoreWebhook(w.db, e, w.now, w.now), StoreWebhook(w.db, e, late, late);
  }

  // ----- The condition is needed -----

  /** Deliver a purchase, wait, sweep, and deliver a renewal stamped before the purchase's expiry: the
      renewal is recorded and ignored, and the row denies the access that the log grants. */
  lemma RenewalAfterSweepIsLost(w: World, purchase: StoreEvent, renewal: StoreEvent, elapsed: nat)
    returns (steps: seq<Step>, v: World)
    requires Initial(w) && Validate(purchase).None? && Validate(renewal).None?
    requires purchase.user == renewal.user && purchase.eventId != renewal.eventId
    requires Grants(purchase.kind) && Grants(renewal.kind)
    requires purchase.timeMs < renewal.timeMs <= UnixMilli(GrantExpiry(purchase.timeMs))
    requires w.now < GrantExpiry(purchase.timeMs) <= w.now + elapsed < GrantExpiry(renewal.timeMs)
    ensures Reaches(w, steps, v) && |steps| == 4
    ensures renewal in v.db.events
    ensures LogActive(v.db.events, renewal.user, v.now)
    ensures !StoreActive(v.db.projection.rows, renewal.user, v.now)
  {
    hide GrantExpiry;
    steps := [Deliver(purchase, w.now), Advance(elapsed)];
    v := PurchaseRunsOut(w, purchase, elapsed);
    steps, v := RenewalComesLate(w, steps, v, purchase, renewal);
  }

  ghost predicate Reaches(w: World, steps: seq<Step>, v: World) {
    ValidRun(w, steps) && Run(w, steps) == v
  }

  lemma TwoMoreSteps(w: World, steps: seq<Step>, v: World, a: Step, b: Step)
    requires Reaches(w, steps, v) && Enabled(v, a) && Enabled(Apply(v, a), b)
    ensures Reaches(w, steps + [a, b], Apply(Apply(v, a), b))
  {
    assert Earlier(steps + [a, b]) == steps + [a];
    assert Earlier(steps + [a]) == steps;
  }

  lemma PurchaseRunsOut(w: World, e: StoreEvent, elapsed: nat) returns (v: World)
    requires Initial(w) && Validate(e).None? && Grants(e.kind)
    requires w.now < GrantExpiry(e.timeMs) <= w.now + elapsed
    ensures Reaches(w, [Deliver(e, w.now), Advance(elapsed)], v)
    ensures v.db.events == [e] && v.now == w.now + elapsed
    ensures var r := Lookup(v.db.projection.rows, Key(e.user, STORE));
            r.Some? && r.value.active && r.value.expiresAt == Some(GrantExpiry(e.timeMs))
  {
    hide GrantExpiry;
    PurchaseGrants(w, e);
    v := Apply(Apply(w, Deliver(e, w.now)), Advance(elapsed));
    TwoMoreSteps(w, [], w, Deliver(e, w.now), Advance(elapsed));
    assert [] + [Deliver(e, w.now), Advance(elapsed)] == [Deliver(e, w.now), Advance(elapsed)];
  }

  lemma RenewalComesLate(from: World, steps: seq<Step>, w: World, purchase: StoreEvent, renewal: StoreEvent)
    returns (longer: seq<Step>, v: World)
    requires Reaches(from, steps, w)
    requires Validate(renewal).None? && purchase.user == renewal.user && purchase.eventId != renewal.eventId
    requires purchase.timeMs < renewal.timeMs <= UnixMilli(GrantExpiry(purchase.timeMs))
    requires w.db.events == [purchase] && GrantExpiry(purchase.timeMs) <= w.now && GrantsAt(renewal, w.now)
    requires var r := Lookup(w.db.projection.rows, Key(purchase.user, STORE));
             r.Some? && r.value.active && r.value.expiresAt == Some(GrantExpiry(purchase.timeMs))
    ensures longer == steps + [Sweep([Key(purchase.user, STORE)]), Deliver(renewal, w.now)]
    ensures Reaches(from, longer, v)
    ensures renewal in v.db.events
    ensures LogActive(v.db.events, renewal.user, v.now)
    ensures !StoreActive(v.db.projection.rows, renewal.user, v.now)
  {
    hide GrantExpiry;
    var c, d := Sweep([Key(purchase.user, STORE)]), Deliver(renewal, w.now);
    PurchaseExpires(w, purchase);
    RenewalIgnored(Apply(w, c), purchase, renewal);
    v := Apply(Apply(w, c), d);
    longer := steps + [c, d];
    TwoMoreSteps(from, steps, w, c, d);
  }

  lemma PurchaseExpires(w: World, e: StoreEvent)
    requires var r := Lookup(w.db.projection.rows, Key(e.user, STORE));
             r.Some? && r.value.active && r.value.expiresAt == Some(GrantExpiry(e.timeMs))
    requires GrantExpiry(e.timeMs) <= w.now
    ensures Enabled(w, Sweep([Key(e.user, STORE)]))
    ensures var v := Apply(w, Sweep([Key(e.user, STORE)]));
            && v.db.events == w.db.events && v.now == w.now
            && var r := Lookup(v.db.projection.rows, Key(e.user, STORE));
               r.Some? && !r.value.active && r.value.lastEventTime == UnixMilli(GrantExpiry(e.timeMs))
  {
    hide GrantExpiry;
    Sweeps.SweepOfOne(w.db.projection, Key(e.user, STORE), w.now);
  }

  lemma PurchaseGrants(w: World, e: StoreEvent)
    requires Initial(w) && Grants(e.kind) && w.now < GrantExpiry(e.timeMs)
    ensures var db := StoreWebhook(w.db, e, w.now, w.now);
            && db.events == [e]
            && var r := Lookup(db.projection.rows, Key(e.user, STORE));
               r.Some? && r.value.active && r.value.expiresAt == Some(GrantExpiry(e.timeMs))
  {
    hide GrantExpiry;
  }

  lemma RenewalIgnored(w: World, purchase: StoreEvent, renewal: StoreEvent)
    requires w.db.events == [purchase] && purchase.eventId != renewal.eventId && purchase.user == renewal.user
    requires purchase.timeMs < renewal.timeMs && GrantsAt(renewal, w.now)
    requires var r := Lookup(w.db.projection.rows, Key(renewal.user, STORE));
             r.Some? && !r.value.active && renewal.timeMs <= r.value.lastEventTime
    ensures var db := StoreWebhook(w.db, renewal, w.now, w.now);
            && renewal in db.events
            && LogActive(db.events, renewal.user, w.now)
            && !StoreActive(db.projection.rows, renewal.user, w.now)
  {
    hide GrantExpiry;
    var db := StoreWebhook(w.db, renewal, w.now, w.now);
    assert db.events == [purchase] + [renewal];
    assert db.events[1] == renewal;
    NewestIsLatest(db.events, renewal.user);
  }
}
