/** The database client: the tables it changes statement by statement, and its transactions.

    Any statement may fail. `patience` is how many more statements go through before one does, so a
    failure at every point of a transaction is some value of it. */
module Postgres {
  import opened Calendar
  import opened Domain
  import opened Tables
  import opened Selections
  import Deliveries
  import Sweeps
  import Marketplace

  datatype Failure = StatementFailed | Rejected(why: InvalidPayload) | EmptyUserIdList | TooManyUserIds

  datatype WebhookResponse = WebhookResponse(eventId: EventId, user: UserId, isDuplicate: bool)

  // ----- What the writes mean for the rows -----

  /** A guarded write: not newer than the row, nothing; else the row says what the write says, and the audit
      log shows the change, if the active flag or the expiry is another. */
  predicate Guarded(p: Projection, q: Projection, w: Write, now: Micros, changed: bool) {
    if w.key in p.rows && w.time <= p.rows[w.key].lastEventTime then q == p && !changed
    else
      && q.rows == p.rows[w.key := Row(w.active, w.expiresAt, Some(w.reason), now, w.time,
                                       if w.key in p.rows then p.rows[w.key].carrierPolledAt else None)]
      && changed == (w.key !in p.rows || p.rows[w.key].active != w.active || p.rows[w.key].expiresAt != w.expiresAt)
      && q.audit == p.audit + if !changed then [] else
           [AuditRow(w.key,
                     if w.key in p.rows then Some(p.rows[w.key].active) else None, w.active,
                     if w.key in p.rows then p.rows[w.key].expiresAt else None, w.expiresAt,
                     w.trigger, Some(w.reason))]
  }

  lemma UpsertIsGuarded(p: Projection, w: Write, now: Micros)
    ensures Guarded(p, Upsert(p, w, now), w, now, UpsertChanges(p, w))
  {
    assert p.audit + [] == p.audit;
  }

  /** The listed rows are expired, each stamped with its own expiry and audited once, in order. */
  predicate Expires(p: Projection, q: Projection, keys: seq<Key>, now: Micros) {
    && (forall k :: k in keys ==> k in p.rows && p.rows[k].expiresAt.Some?)
    && q.rows == (map k | k in p.rows :: if k in keys then
                    Row(false, None, Some(ByEvent(Expiration)), now, UnixMilli(p.rows[k].expiresAt.value),
                        p.rows[k].carrierPolledAt)
                  else p.rows[k])
    && |q.audit| == |p.audit| + |keys| && q.audit[..|p.audit|] == p.audit
    && (forall i :: 0 <= i < |keys| ==>
          q.audit[|p.audit| + i]
          == AuditRow(keys[i], Some(true), false, p.rows[keys[i]].expiresAt, None, None, Some(ByEvent(Expiration))))
  }

  lemma SweepExpires(p: Projection, keys: seq<Key>, now: Micros)
    requires Distinct(keys) && AllDue(p.rows, keys, now)
    ensures Expires(p, SweepBatch(p, keys, now), keys, now)
  {
    hide UnixMilli;
    var q := SweepBatch(p, keys, now);
    forall k
      ensures Lookup(q.rows, k) == if k in keys then Some(ExpiredRow(p.rows[k], now)) else Lookup(p.rows, k)
    {
      Sweeps.SweepRows(p, keys, now, k);
    }
    forall k
      ensures k in q.rows <==> k in p.rows
      ensures k in q.rows ==> q.rows[k] == if k in keys then ExpiredRow(p.rows[k], now) else p.rows[k]
    {
      assert Lookup(q.rows, k).Some? <==> k in q.rows;
    }
    Sweeps.SweepAudits(p, keys, now);
  }

  /** The carrier rows of the listed users are stamped as polled, and nothing else about any row differs. */
  ghost predicate Stamped(rows: map<Key, Row>, after: map<Key, Row>, users: seq<UserId>, now: Micros) {
    && after.Keys == rows.Keys
    && forall k :: k in rows ==>
         after[k] == if k.source == CARRIER && k.user in users then rows[k].(carrierPolledAt := Some(now)) else rows[k]
  }

  lemma ClaimStamps(p: Projection, after: map<Key, Row>, users: seq<UserId>, now: Micros)
    requires Stamped(p.rows, after, users, now)
    ensures ClaimCarriers(p, Elements(users), now) == p.(rows := after)
  {
    assert ClaimCarriers(p, Elements(users), now).rows == after;
  }

  /** The listed notifications are marked sent, and nothing else about any differs. */
  predicate Marked(ns: seq<Notification>, after: seq<Notification>, ids: seq<nat>, now: Micros) {
    && |after| == |ns|
    && forall i :: 0 <= i < |ns| ==>
         after[i] == Notification(ns[i].user, ns[i].scheduledFor, if i in ids then Some(now) else ns[i].sentAt)
  }

  class Client {
    var rows: map<Key, Row>
    var audit: seq<AuditRow>
    var events: seq<StoreEvent>
    var revocations: map<EventId, UserId>
    var processed: set<Marker>
    var notifications: seq<Notification>
    var patience: nat

    function View(): Db
      reads this
    {
      Db(Projection(rows, audit), events, revocations, processed, notifications)
    }

    constructor (db: Db, patience: nat)
      ensures View() == db && this.patience == patience
    {
      rows, audit := db.projection.rows, db.projection.audit;
      events, revocations, processed, notifications := db.events, db.revocations, db.processed, db.notifications;
      this.patience := patience;
    }

    /** One more statement is sent; it fails when patience has run out. */
    method Attempt() returns (ok: bool)
      modifies this`patience
      ensures ok <==> old(patience) > 0
      ensures patience == if old(patience) > 0 then old(patience) - 1 else 0
    {
      ok := patience > 0;
      if ok {
        patience := patience - 1;
      }
    }

    method Rollback(saved: Db)
      modifies this
      ensures View() == saved && patience == old(patience)
    {
      rows, audit := saved.projection.rows, saved.projection.audit;
      events, revocations, processed := saved.events, saved.revocations, saved.processed;
      notifications := saved.notifications;
    }

    // ----- Statements -----

    /** INSERT ... ON CONFLICT (user_id, source) DO UPDATE ... WHERE last_event_time < EXCLUDED's. */
    method UpsertRow(w: Write, now: Micros) returns (affected: nat)
      modifies this`rows
      ensures affected == if Newer(w, Lookup(old(rows), w.key)) then 1 else 0
      ensures rows == if affected == 1 then old(rows)[w.key := UpsertedRow(w, Lookup(old(rows), w.key), now)]
                      else old(rows)
    {
      if w.key in rows {
        if rows[w.key].lastEventTime < w.time {
          rows := rows[w.key := Row(w.active, w.expiresAt, Some(w.reason), now, w.time, rows[w.key].carrierPolledAt)];
          return 1;
        }
        return 0;
      }
      rows := rows[w.key := Row(w.active, w.expiresAt, Some(w.reason), now, w.time, None)];
      return 1;
    }

    /** UPDATE ... WHERE active AND expires_at <= NOW(); sets last_event_time to the value given. */
    method ExpireRow(k: Key, lastEventTime: Millis, now: Micros) returns (affected: nat)
      modifies this`rows
      ensures affected == if k in old(rows) && Due(old(rows)[k], now) then 1 else 0
      ensures rows == if affected == 1
                      then old(rows)[k := old(rows)[k].(active := false, expiresAt := None, reason := Some(EXPIRED),
                                                         updatedAt := now, lastEventTime := lastEventTime)]
                      else old(rows)
    {
      if k in rows && rows[k].active && rows[k].expiresAt.Some? && rows[k].expiresAt.value <= now {
        rows := rows[k := Row(false, None, Some(EXPIRED), now, lastEventTime, rows[k].carrierPolledAt)];
        return 1;
      }
      return 0;
    }

    // ----- upsertEntitlement -----

    /** The guarded write inside an open transaction: lock, read, compare, upsert, audit. */
    method UpsertInTransaction(w: Write, now: Micros) returns (r: Result<bool, Failure>)
      modifies this
      ensures r.Ok? ==>
        && r.value == UpsertChanges(old(View()).projection, w)
        && View() == old(View()).(projection := Upsert(old(View()).projection, w, now))
      ensures old(patience) >= 4 ==> r.Ok? && patience >= old(patience) - 4
      ensures r.Err? ==> r.error == StatementFailed && patience == 0
    {
      var ok := Attempt();              // advisory lock
      if !ok { return Err(StatementFailed); }
      ok := Attempt();                  // read
      if !ok { return Err(StatementFailed); }
      var existing := Lookup(rows, w.key);
      if existing.Some? && w.time <= existing.value.lastEventTime {
        return Ok(false);
      }
      ok := Attempt();                  // upsert
      if !ok { return Err(StatementFailed); }
      var affected := UpsertRow(w, now);
      if affected == 0 {
        return Ok(false);
      }
      var stateChanged := existing.None? || existing.value.active != w.active
                          || !SameExpiration(existing.value.expiresAt, w.expiresAt);
      if !stateChanged {
        return Ok(false);
      }
      ok := Attempt();                  // audit
      if !ok { return Err(StatementFailed); }
      audit := audit + [UpsertAudit(w, existing)];
      return Ok(true);
    }

    /** The same in a transaction of its own. */
    method UpsertEntitlement(w: Write, now: Micros) returns (r: Result<bool, Failure>)
      modifies this
      ensures r.Ok? ==>
        && r.value == UpsertChanges(old(View()).projection, w)
        && View() == old(View()).(projection := Upsert(old(View()).projection, w, now))
      ensures r.Ok? ==> Guarded(old(View()).projection, View().projection, w, now, r.value)
      ensures r.Err? ==> View() == old(View()) && patience == 0
      ensures old(patience) >= 5 ==> r.Ok? && patience >= old(patience) - 5
    {
      var saved := View();
      UpsertIsGuarded(saved.projection, w, now);
      r := UpsertInTransaction(w, now);
      if r.Ok? {
        var ok := Attempt();            // commit
        if !ok {
          r := Err(StatementFailed);
        }
      }
      if r.Err? {
        Rollback(saved);
      }
    }

    // ----- Store webhook -----

    method InsertStoreEvent(e: StoreEvent) returns (r: Result<bool, Failure>)
      modifies this`events, this`patience
      ensures r.Err? ==> r.error == StatementFailed
      ensures old(patience) > 0 <==> r.Ok?
      ensures r.Ok? ==> r.value == !Recorded(old(events), e.eventId)
      ensures patience == if r.Ok? then old(patience) - 1 else 0
      ensures events == if r.Ok? && r.value then old(events) + [e] else old(events)
    {
      var ok := Attempt();
      if !ok { return Err(StatementFailed); }
      if Recorded(events, e.eventId) {
        return Ok(false);
      }
      events := events + [e];
      return Ok(true);
    }

    method ScheduleNotification(user: UserId, at: Micros) returns (ok: bool)
      modifies this`notifications, this`patience
      ensures ok <==> old(patience) > 0
      ensures patience == if ok then old(patience) - 1 else 0
      ensures notifications == if ok then Schedule(old(notifications), user, at) else old(notifications)
    {
      ok := Attempt();
      if ok {
        for i := 0 to |notifications|
          invariant forall j :: 0 <= j < i ==> !SameSlot(notifications[j], user, at)
        {
          if SameSlot(notifications[i], user, at) {
            return;
          }
        }
        notifications := notifications + [Notification(user, at, None)];
      }
    }

    method MarkEventProcessed(id: EventId, source: Source) returns (ok: bool)
      modifies this`processed, this`patience
      ensures ok <==> old(patience) > 0
      ensures patience == if ok then old(patience) - 1 else 0
      ensures processed == if ok then old(processed) + {Marker(id, source)} else old(processed)
    {
      ok := Attempt();
      if ok {
        processed := processed + {Marker(id, source)};
      }
    }

    /** The writes of one webhook, in order, inside an open transaction. */
    method StoreWebhookWrites(e: StoreEvent, t: Transition, now: Micros) returns (r: Result<bool, Failure>)
      modifies this
      ensures r.Ok? ==> r.value == !Recorded(old(events), e.eventId)
      ensures forall readAt :: r.Ok? && t == ComputeStateTransition(e.kind, e.timeMs, readAt)
                ==> View() == StoreWebhook(old(View()), e, readAt, now)
      ensures old(patience) >= 7 ==> r.Ok? && patience >= old(patience) - 7
      ensures r.Err? ==> r.error == StatementFailed && patience == 0
    {
      hide GrantExpiry;
      var inserted := InsertStoreEvent(e);
      if inserted.Err? || !inserted.value {
        return inserted;
      }
      var w := Write(Key(e.user, STORE), t.active, t.expiresAt, t.reason, e.timeMs, Some(e.eventId));
      r := UpsertInTransaction(w, now);
      if r.Err? {
        return;
      }
      if r.value && t.active && t.expiresAt.Some? {
        var scheduled := ScheduleNotification(e.user, t.expiresAt.value - MICROS_PER_DAY);
        if !scheduled { return Err(StatementFailed); }
      }
      var marked := MarkEventProcessed(e.eventId, STORE);
      if !marked { return Err(StatementFailed); }
      return Ok(true);
    }

    /** A webhook either takes its whole effect or none: an invalid payload and a failure at any statement
        or at the commit leave every table as it was, so a retry at the same clock equals one clean
        attempt. */
    method ProcessStoreWebhook(e: StoreEvent, readAt: Micros, now: Micros) returns (r: Result<WebhookResponse, Failure>)
      modifies this
      ensures forall why :: r == Err(Rejected(why)) <==> Deliveries.RefusedFor(e, why)
      ensures r.Ok? ==> View() == StoreWebhook(old(View()), e, readAt, now)
      ensures r.Ok? ==> Deliveries.Lands(old(View()), View(), e, readAt, now)
      ensures r.Ok? ==> r.value == WebhookResponse(e.eventId, e.user, Recorded(old(events), e.eventId))
      ensures r.Err? ==> View() == old(View())
      ensures Validate(e).None? && r.Err? ==> r.error == StatementFailed && patience == 0
      ensures Validate(e).None? && old(patience) >= 8 ==> r.Ok?
    {
      hide Deliveries.Lands;
      Deliveries.WebhookLands(View(), e, readAt, now);
      forall why {
        Deliveries.FirstFailedCheck(e, why);
      }
      var problem := Validate(e);
      if problem.Some? {
        return Err(Rejected(problem.value));
      }
      var t := ComputeStateTransition(e.kind, e.timeMs, readAt);
      var saved := View();
      var inserted := StoreWebhookWrites(e, t, now);
      if inserted.Ok? {
        var ok := Attempt();            // commit
        if ok {
          return Ok(WebhookResponse(e.eventId, e.user, !inserted.value));
        }
      }
      Rollback(saved);
      return Err(StatementFailed);
    }

    // ----- Marketplace revocation -----

    method RevocationWrites(user: UserId, id: EventId, batchAt: Micros, now: Micros) returns (r: Result<bool, Failure>)
      modifies this
      ensures r.Ok? ==> r.value == (id !in old(revocations))
      ensures r.Ok? ==> View() == RevokeUser(old(View()), user, id, batchAt, now)
      ensures old(patience) >= 6 ==> r.Ok? && patience >= old(patience) - 6
      ensures r.Err? ==> r.error == StatementFailed && patience == 0
    {
      var ok := Attempt();              // unique insert
      if !ok { return Err(StatementFailed); }
      if id in revocations {
        return Ok(false);
      }
      revocations := revocations[id := user];
      r := UpsertInTransaction(RevokeWrite(user, id, batchAt), now);
      if r.Err? {
        return;
      }
      var marked := MarkEventProcessed(id, MARKETPLACE);
      if !marked { return Err(StatementFailed); }
      return Ok(true);
    }

    method RevokeInTransaction(user: UserId, id: EventId, batchAt: Micros, now: Micros)
      returns (r: Result<bool, Failure>)
      modifies this
      ensures r.Ok? ==> r.value == (id !in old(revocations))
      ensures r.Ok? ==> View() == RevokeUser(old(View()), user, id, batchAt, now)
      ensures r.Err? ==> View() == old(View()) && r.error == StatementFailed && patience == 0
      ensures old(patience) >= 7 ==> r.Ok? && patience >= old(patience) - 7
    {
      var saved := View();
      r := RevocationWrites(user, id, batchAt, now);
      if r.Ok? {
        var ok := Attempt();            // commit
        if !ok {
          r := Err(StatementFailed);
        }
      }
      if r.Err? {
        Rollback(saved);
      }
    }

    /** One transaction per user. A failure leaves exactly the users before it committed; a full run
        reports how many listed users were not yet revoked that month. */
    method RevokeMarketplaceAccess(users: seq<UserId>, batchAt: Micros, now: Micros)
      returns (r: Result<nat, Failure>, ghost done: nat)
      modifies this
      ensures done <= |users|
      ensures View() == Marketplace.RevokeAll(old(View()), users[..done], batchAt, now)
      ensures r.Ok? ==> done == |users| && 0 < |users| <= 10_000
                        && r.value == |Marketplace.NotYetRevoked(old(View()), users, batchAt)|
      ensures Marketplace.Revokes(old(View()), View(), users[..done], batchAt, now)
      ensures |users| == 0 ==> r == Err(EmptyUserIdList)
      ensures |users| > 10_000 ==> r == Err(TooManyUserIds)
      ensures 0 < |users| <= 10_000 && r.Err? ==> r.error == StatementFailed && done < |users| && patience == 0
      ensures 0 < |users| <= 10_000 && old(patience) >= 7 * |users| ==> r.Ok?
    {
      done := 0;
      ghost var start := View();
      Marketplace.EveryPrefixRevokes(start, users, batchAt, now);
      hide Marketplace.Revokes;
      if |users| == 0 {
        return Err(EmptyUserIdList), 0;
      }
      if |users| > 10_000 {
        return Err(TooManyUserIds), 0;
      }
      hide Marketplace.MonthKey, Marketplace.RevokeAll, Marketplace.CountRevoked, Marketplace.NotYetRevoked, RevokeUser;
      var count: nat := 0;
      Marketplace.NobodyAndEverybody(start, users, batchAt, now);
      for i := 0 to |users|
        invariant done == i && patience >= old(patience) - 7 * i
        invariant View() == Marketplace.RevokeAll(start, users[..i], batchAt, now)
        invariant count + Marketplace.CountRevoked(View(), users[i..], batchAt, now)
                  == Marketplace.CountRevoked(start, users, batchAt, now)
      {
        var inserted := RevokeInTransaction(users[i], Marketplace.MonthKey(users[i], batchAt), batchAt, now);
        if inserted.Err? {
          return Err(inserted.error), i;
        }
        if inserted.value {
          count := count + 1;
        }
        done := i + 1;
        Marketplace.RevokeNext(start, users, i, batchAt, now);
      }
      Marketplace.NobodyAndEverybody(View(), users, batchAt, now);
      return Ok(count), |users|;
    }

    // ----- Expiration -----

    /** The writes for one selected row. */
    method ExpireSelected(k: Key, selected: Row, now: Micros) returns (r: Result<bool, Failure>)
      requires k in rows && rows[k] == selected && Due(selected, now)
      modifies this
      ensures r.Ok? ==> r.value && View() == old(View()).(projection := ExpireOne(old(View()).projection, k, now))
      ensures r.Err? ==> patience == 0
      ensures r.Ok? <==> old(patience) >= 2
      ensures r.Ok? ==> patience == old(patience) - 2
    {
      if selected.expiresAt.None? {
        return Ok(false);
      }
      var ok := Attempt();              // expire
      if !ok { return Err(StatementFailed); }
      var affected := ExpireRow(k, UnixMilli(selected.expiresAt.value), now);
      if affected == 0 {
        return Ok(false);
      }
      ok := Attempt();                  // audit
      if !ok { return Err(StatementFailed); }
      audit := audit + [AuditRow(k, Some(true), false, selected.expiresAt, None, None, Some(EXPIRED))];
      return Ok(true);
    }

    /** The list the fallback works through, read without locks. */
    method GetExpiredEntitlementsForReconciliation(limit: nat, now: Micros) returns (r: Result<seq<Key>, Failure>)
      modifies this`patience
      ensures r.Ok? <==> old(patience) > 0
      ensures patience == if r.Ok? then old(patience) - 1 else 0
      ensures r.Ok? ==>
        && FirstInOrder(DueKeys(rows, now), ExpiryRank(rows), limit, r.value)
        && LongestExpired(rows, now, limit, r.value)
        && Distinct(r.value) && AllDue(rows, r.value, now) && |r.value| == Least(limit, |DueKeys(rows, now)|)
    {
      var ok := Attempt();
      if !ok { return Err(StatementFailed); }
      var keys := SelectInOrder(DueKeys(rows, now), ExpiryRank(rows), limit);
      SelectedAreDue(rows, keys, now);
      SelectedExpired(rows, now, limit, keys);
      return Ok(keys);
    }

    /** The transactional sweep: one batch of the longest-expired due rows, all or nothing. */
    method ReconcileExpiredEntitlements(limit: int, now: Micros) returns (r: Result<nat, Failure>, ghost keys: seq<Key>)
      modifies this
      ensures r.Ok? ==>
        && FirstInOrder(DueKeys(old(rows), now), ExpiryRank(old(rows)), if limit <= 0 then 0 else limit, keys)
        && r.value == |keys|
        && View() == old(View()).(projection := SweepBatch(old(View()).projection, keys, now))
      ensures r.Ok? ==>
        && LongestExpired(old(rows), now, if limit <= 0 then 0 else limit, keys)
        && Expires(old(View()).projection, View().projection, keys, now)
      ensures r.Err? ==> View() == old(View()) && r.error == StatementFailed && patience == 0
      ensures r.Ok? <==> limit <= 0 || old(patience) >= 2 * Least(limit, |DueKeys(old(rows), now)|) + 2
      ensures r.Ok? && limit > 0 ==> patience == old(patience) - 2 * r.value - 2
    {
      keys := [];
      if limit <= 0 {
        SelectedExpired(rows, now, 0, []);
        SweepExpires(View().projection, [], now);
        return Ok(0), [];
      }
      var saved := View();
      var ok := Attempt();              // select ... for update skip locked
      if !ok { return Err(StatementFailed), []; }
      var snapshot := rows;
      var selected := SelectInOrder(DueKeys(snapshot, now), ExpiryRank(snapshot), limit);
      keys := selected;
      var reconciled: nat := 0;
      SelectedAreDue(snapshot, selected, now);
      SelectedExpired(snapshot, now, limit, selected);
      SweepExpires(saved.projection, selected, now);
      assert selected[0..] == selected && |selected| == Least(limit, |DueKeys(snapshot, now)|);
      hide FirstInOrder, LongestExpired, Expires, DueKeys, UnixMilli, ExpireOne;
      for i := 0 to |selected|
        invariant reconciled == i && saved.projection.rows == snapshot
        invariant Distinct(selected[i..]) && AllDue(rows, selected[i..], now)
        invariant forall k :: k in selected[i..] ==> k in snapshot && rows[k] == snapshot[k]
        invariant View() == saved.(projection := View().projection)
        invariant SweepBatch(View().projection, selected[i..], now) == SweepBatch(saved.projection, selected, now)
        invariant patience == old(patience) - 1 - 2 * i
      {
        ghost var rest := selected[i..];
        assert rest[0] == selected[i] && rest[1..] == selected[i + 1..];
        Sweeps.NextOfBatch(View().projection, rest, now);
        var expired := ExpireSelected(selected[i], snapshot[selected[i]], now);
        if expired.Err? {
          Rollback(saved);
          return Err(StatementFailed), selected;
        }
        if expired.value {
          reconciled := reconciled + 1;
        }
      }
      ok := Attempt();                  // commit
      if !ok {
        Rollback(saved);
        return Err(StatementFailed), selected;
      }
      return Ok(reconciled), selected;
    }

    // ----- Carrier claims -----

    /** One statement: selects the due carrier rows polled longest ago and stamps them. */
    method ClaimDueCarrierEntitlements(limit: nat, dueBefore: Micros, now: Micros)
      returns (r: Result<seq<UserId>, Failure>)
      modifies this
      ensures r.Ok? ==>
        && FirstInOrder(DueUsers(old(rows), dueBefore), PollRank(old(rows)), limit, r.value)
        && View() == old(View()).(projection := ClaimCarriers(old(View()).projection, Elements(r.value), now))
      ensures r.Ok? ==>
        && LongestUnpolled(old(rows), dueBefore, limit, r.value)
        && Stamped(old(rows), rows, r.value, now)
      ensures r.Err? ==> View() == old(View()) && r.error == StatementFailed && patience == 0
      ensures r.Ok? <==> old(patience) >= 2
      ensures r.Ok? ==> patience == old(patience) - 2
    {
      var saved := View();
      var ok := Attempt();
      if !ok { return Err(StatementFailed); }
      var users := SelectInOrder(DueUsers(rows, dueBefore), PollRank(rows), limit);
      SelectedUnpolled(rows, dueBefore, limit, users);
      hide LongestUnpolled, FirstInOrder, DueUsers, PollRank;
      rows := map k | k in rows ::
        if k.source == CARRIER && k.user in users then rows[k].(carrierPolledAt := Some(now)) else rows[k];
      ClaimStamps(saved.projection, rows, users, now);
      hide Stamped, ClaimCarriers;
      ok := Attempt();                  // commit
      if !ok {
        Rollback(saved);
        return Err(StatementFailed);
      }
      return Ok(users);
    }

    // ----- Notification claims -----

    /** One statement: marks the earliest due notifications sent and returns them. */
    method ClaimDueNotifications(limit: int, now: Micros) returns (r: Result<seq<nat>, Failure>)
      modifies this
      ensures r.Ok? ==>
        && FirstInOrder(DueIds(old(notifications), now), ScheduleRank(old(notifications)),
                        if limit <= 0 then 0 else limit, r.value)
        && View() == old(View()).(notifications := ClaimNotifications(old(notifications), Elements(r.value), now))
      ensures r.Ok? ==>
        && EarliestUnsent(old(notifications), now, if limit <= 0 then 0 else limit, r.value)
        && Marked(old(notifications), notifications, r.value, now)
      ensures r.Err? ==> View() == old(View()) && r.error == StatementFailed && patience == 0
      ensures r.Ok? <==> limit <= 0 || old(patience) >= 2
      ensures r.Ok? ==> patience == if limit <= 0 then old(patience) else old(patience) - 2
    {
      if limit <= 0 {
        assert ClaimNotifications(notifications, {}, now) == notifications;
        return Ok([]);
      }
      var saved := View();
      var ok := Attempt();
      if !ok { return Err(StatementFailed); }
      var ids := SelectInOrder(DueIds(notifications, now), ScheduleRank(notifications), limit);
      SelectedUnsent(notifications, now, limit, ids);
      hide EarliestUnsent, FirstInOrder;
      var before := notifications;
      notifications := seq(|before|, i requires 0 <= i < |before| =>
        if i in ids then before[i].(sentAt := Some(now)) else before[i]);
      assert notifications == ClaimNotifications(before, Elements(ids), now);
      ok := Attempt();                  // commit
      if !ok {
        Rollback(saved);
        return Err(StatementFailed);
      }
      return Ok(ids);
    }
  }
}
