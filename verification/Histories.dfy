/** The guarantees about the store log, notifications and claims, in every interleaving of statements.

    Transactions may overlap in any way and their clocks may be in any order; `now` is any time that is
    not before a clock that was read. */
module Histories {
  import opened Calendar
  import opened Domain
  import opened Tables
  import opened Runs
  import opened Protocol
  import Deliveries
  import Ledgers
  import StoreLog

  /** Nothing in flight, no history, no STORE rows; carrier and marketplace rows may exist. */
  ghost predicate Unused(s: State) {
    && Quiet(s) && s.projection.audit == [] && s.notifications == []
    && forall k :: k in s.projection.rows ==> k.source != STORE
  }

  ghost predicate StartedBy(s: State, now: Micros) {
    forall t :: t in s.txs ==> s.txs[t].startedAt <= now
  }

  ghost predicate BegunBy(moves: seq<Move>, now: Micros) {
    forall m :: m in moves && m.Begin? ==> m.tx.startedAt <= now
  }

  lemma {:induction false} AllStartedBy(s: State, moves: seq<Move>, now: Micros)
    requires Quiet(s) && BegunBy(moves, now)
    ensures StartedBy(Execute(s, moves), now)
  {
    if moves != [] {
      AllStartedBy(s, Earlier(moves), now);
    }
  }

  // ----- The event log -----

  function EventsOf(op: Op): seq<StoreEvent> {
    if op.Upserts? && op.cause.Webhook? then [op.cause.event] else []
  }

  /** store_events: the events of the committed webhooks. */
  function EventLog(done: seq<Op>): seq<StoreEvent> {
    if done == [] then [] else EventLog(Earlier(done)) + EventsOf(Last(done))
  }

  lemma EventLogAppend(done: seq<Op>, op: Op)
    ensures EventLog(done + [op]) == EventLog(done) + EventsOf(op)
  {
    assert Earlier(done + [op]) == done;
  }

  /** It has the ids that are recorded for the store, each once. */
  ghost predicate LogIsRecorded(s: State) {
    IdsRecorded(EventLog(s.done), s.recorded)
  }

  ghost predicate IdsRecorded(events: seq<StoreEvent>, recorded: set<Marker>) {
    UniqueIds(events) && forall id :: Recorded(events, id) <==> Marker(id, STORE) in recorded
  }

  lemma OneMoreId(events: seq<StoreEvent>, recorded: set<Marker>, e: StoreEvent)
    requires IdsRecorded(events, recorded) && Marker(e.eventId, STORE) !in recorded
    ensures IdsRecorded(events + [e], recorded + {Marker(e.eventId, STORE)})
  {
    assert !Recorded(events, e.eventId);
    forall id {
      Ledgers.RecordedAppend(events, e, id);
    }
  }

  lemma OtherMarker(events: seq<StoreEvent>, recorded: set<Marker>, m: Marker)
    requires IdsRecorded(events, recorded) && m.source != STORE
    ensures IdsRecorded(events, recorded + {m})
  {
    hide Recorded, UniqueIds;
  }

  lemma CommitsAreNew(s: State, t: TxId)
    requires Sound(s) && CanMove(s, Commit(t)) && s.txs[t].Writer?
    ensures !Duplicate(s, s.txs[t].cause)
  {
    assert InStep(s, s.txs[t]);
  }

  lemma CommitKeepsRecorded(s: State, t: TxId)
    requires Sound(s) && CanMove(s, Commit(t)) && LogIsRecorded(s)
    ensures LogIsRecorded(Do(s, Commit(t)))
  {
    hide Effect, Notices, IdsRecorded, Sound, EventLog;
    var tx, events := s.txs[t], EventLog(s.done);
    EventLogAppend(s.done, OpOf(tx));
    hide CanMove;
    if tx.Writer? {
      CommitsAreNew(s, t);
      match tx.cause {
        case Webhook(e, _) => OneMoreId(events, s.recorded, e);
        case Revocation(_, id, _) =>
          OtherMarker(events, s.recorded, Marker(id, MARKETPLACE));
          assert events + [] == events;
        case Reply(_, _, _) => assert events + [] == events;
      }
    } else {
      assert events + [] == events;
    }
  }

  lemma {:induction false} LogIsRecordedThroughout(s: State, moves: seq<Move>)
    requires Quiet(s) && Possible(s, moves)
    ensures LogIsRecorded(Execute(s, moves))
  {
    hide LogIsRecorded;
    if moves != [] {
      LogIsRecordedThroughout(s, Earlier(moves));
      SoundThroughout(s, Earlier(moves));
      MoveKeepsRecorded(Execute(s, Earlier(moves)), Last(moves));
    } else {
      NothingIsRecorded(s);
    }
  }

  lemma MoveKeepsRecorded(s: State, m: Move)
    requires Sound(s) && CanMove(s, m) && LogIsRecorded(s)
    ensures LogIsRecorded(Do(s, m))
  {
    if m.Commit? {
      CommitKeepsRecorded(s, m.t);
    }
  }

  lemma NothingIsRecorded(s: State)
    requires Quiet(s)
    ensures LogIsRecorded(s)
  {
  }

  /** The committed tables, seen at `now`. */
  function Committed(s: State, now: Micros): World {
    World(Db(s.projection, EventLog(s.done), map[], s.recorded, s.notifications), now)
  }

  /** A writer's audit row is never taken for a sweep of the user's STORE row, whatever row it read. */
  lemma WriterSweepsNothing(p: Projection, tx: Tx, u: UserId)
    requires tx.Writer? && (tx.write.trigger.Some? || tx.write.key != Key(u, STORE))
    ensures forall t :: StoreLog.Swept(Effect(p, tx).audit, u, t) <==> StoreLog.Swept(p.audit, u, t)
  {
    hide UnixMilli;
    forall t | tx.phase.Written? {
      StoreLog.SweptAppend(p.audit, UpsertAudit(tx.write, tx.phase.previous), u, t);
    }
  }

  lemma WriterKeepsUser(s: State, t: TxId, u: UserId, now: Micros)
    requires Sound(s) && CanMove(s, Commit(t)) && s.txs[t].Writer? && StartedBy(s, now)
    requires StoreLog.RowMatchesLog(s.projection, EventLog(s.done), u, now)
    ensures StoreLog.RowMatchesLog(Effect(s.projection, s.txs[t]), EventLog(s.done) + EventsOf(OpOf(s.txs[t])), u, now)
  {
    hide GrantExpiry, UnixMilli, StoreLog.RowMatchesLog, StoreLog.Swept, StoreLog.Newest;
    var tx, p, events := s.txs[t], s.projection, EventLog(s.done);
    var q, cause, w := Effect(p, tx), tx.cause, tx.write;
    assert InStep(s, tx);
    EffectIsAlone(s, t);
    WriterSweepsNothing(p, tx, u);
    if cause.Webhook? && cause.event.user == u {
      StoreLog.DeliverKeepsUser(p, events, cause.event, cause.readAt, tx.startedAt, now);
      StoreLog.TriggeredSweepsNothing(p, w, tx.startedAt, u);
      StoreLog.SameViewMatches(Upsert(p, w, tx.startedAt), events + [cause.event], q, events + [cause.event], u, now);
    } else {
      if cause.Webhook? {
        StoreLog.NewestAppend(events, cause.event, u);
      } else {
        assert events + [] == events;
      }
      StoreLog.SameViewMatches(p, events, q, events + EventsOf(OpOf(tx)), u, now);
    }
  }

  lemma PickerKeepsUser(s: State, t: TxId, u: UserId, now: Micros)
    requires Sound(s) && CanMove(s, Commit(t)) && s.txs[t].Picker?
    requires StoreLog.RowMatchesLog(s.projection, EventLog(s.done), u, now)
    ensures StoreLog.RowMatchesLog(Effect(s.projection, s.txs[t]), EventLog(s.done), u, now)
  {
    hide GrantExpiry, UnixMilli, StoreLog.RowMatchesLog;
    var tx, p, events := s.txs[t], s.projection, EventLog(s.done);
    EffectIsAlone(s, t);
    if tx.task.Sweeping? {
      StoreLog.SweepKeepsUser(p, events, tx.picked, u, tx.startedAt, now);
    } else {
      StoreLog.SameViewMatches(p, events, Effect(p, tx), events, u, now);
    }
  }

  lemma CommitKeepsCached(s: State, t: TxId, now: Micros)
    requires Sound(s) && CanMove(s, Commit(t)) && StartedBy(s, now) && StoreLog.Cached(Committed(s, now))
    ensures StoreLog.Cached(Committed(Do(s, Commit(t)), now))
  {
    hide StoreLog.RowMatchesLog, GrantExpiry, UnixMilli, WriteOf, Proper, Effect, Notices;
    var tx, after := s.txs[t], Do(s, Commit(t));
    EventLogAppend(s.done, OpOf(tx));
    forall u
      ensures StoreLog.RowMatchesLog(after.projection, EventLog(after.done), u, now)
    {
      assert StoreLog.RowMatchesLog(s.projection, EventLog(s.done), u, now);
      match tx {
        case Writer(_, _, _, _) => WriterKeepsUser(s, t, u, now);
        case Picker(_, _, _, _) =>
          PickerKeepsUser(s, t, u, now);
          assert EventLog(s.done) + [] == EventLog(s.done);
        case Sender(_, _) =>
          EffectIsAlone(s, t);
          assert EventLog(s.done) + [] == EventLog(s.done);
      }
    }
  }

  lemma {:induction false} ExecutedIsCached(s: State, moves: seq<Move>, now: Micros)
    requires Unused(s) && Possible(s, moves) && BegunBy(moves, now)
    ensures StoreLog.Cached(Committed(Execute(s, moves), now))
  {
    hide StoreLog.RowMatchesLog;
    if moves != [] {
      var v, m := Execute(s, Earlier(moves)), Last(moves);
      ExecutedIsCached(s, Earlier(moves), now);
      SoundThroughout(s, Earlier(moves));
      AllStartedBy(s, Earlier(moves), now);
      if m.Commit? {
        CommitKeepsCached(v, m.t, now);
      } else {
        assert Do(v, m).projection == v.projection && Do(v, m).done == v.done;
      }
    } else {
      NothingIsCached(s, now);
    }
  }

  lemma NothingIsCached(s: State, now: Micros)
    requires Unused(s)
    ensures StoreLog.Cached(Committed(s, now))
  {
  }

  /** In every interleaving, the committed STORE row and the committed events agree about a user, now and
      later, if and only if no sweep has overtaken an event that still grants access. */
  lemma CacheAgreesInEveryInterleaving(s: State, moves: seq<Move>, u: UserId, now: Micros)
    requires Unused(s) && Possible(s, moves) && BegunBy(moves, now)
    ensures var w := Committed(Execute(s, moves), now);
            StoreLog.Agree(w, u) <==> !StoreLog.Overtaken(w, u)
  {
    ExecutedIsCached(s, moves, now);
    StoreLog.AgreeUnlessOvertaken(Committed(Execute(s, moves), now), u);
  }

  /** In every interleaving, a committed STORE row that grants at some time is backed by a committed grant
      that is the user's latest event and runs past that time. */
  lemma PremiumIsSoundInEveryInterleaving(s: State, moves: seq<Move>, u: UserId, now: Micros, t: Micros)
    requires Unused(s) && Possible(s, moves) && BegunBy(moves, now)
    requires StoreLog.StoreActive(Execute(s, moves).projection.rows, u, t)
    ensures exists i: nat :: StoreLog.GrantBehind(Committed(Execute(s, moves), now).db, u, i, t)
  {
    ExecutedIsCached(s, moves, now);
    StoreLog.ActiveRowHasGrant(Committed(Execute(s, moves), now), u, t);
  }

  // ----- Notifications -----

  lemma OtherChangeAudited(ns: seq<Notification>, audit: seq<AuditRow>, a: AuditRow)
    requires Ledgers.NotificationsInOrder(ns, audit) && !(a.key.source == STORE && a.nextActive)
    ensures Ledgers.NotificationsInOrder(ns, audit + [a])
  {
  }

  lemma CommitAnnounces(s: State, t: TxId)
    requires Sound(s) && CanMove(s, Commit(t))
    requires Ledgers.NotificationsInOrder(s.notifications, s.projection.audit)
    ensures var v := Do(s, Commit(t)); Ledgers.NotificationsInOrder(v.notifications, v.projection.audit)
  {
    hide GrantExpiry, UnixMilli, Ledgers.NotificationsInOrder;
    var tx, ns, p := s.txs[t], s.notifications, s.projection;
    assert InStep(s, tx);
    match tx {
      case Writer(_, w, _, phase) =>
        if phase.Written? && Newer(w, phase.before) && ChangesState(w, phase.previous) {
          if w.key.source == STORE && w.active {
            Ledgers.GrantAnnounced(ns, p.audit, UpsertAudit(w, phase.previous), w.expiresAt.value);
          } else {
            OtherChangeAudited(ns, p.audit, UpsertAudit(w, phase.previous));
          }
        }
      case Picker(task, at, keys, _) =>
        EffectIsAlone(s, t);
        Ledgers.SweepKeepsNotifications(ns, p, keys, at);
      case Sender(at, ids) =>
        Ledgers.ClaimKeepsNotifications(ns, p.audit, ids, at);
    }
  }

  /** In every interleaving, stale audit rows included, users get at most one notification a UTC day, none
      is marked sent early, and every audited change to an active STORE grant has one. */
  lemma {:induction false} GrantsAreAnnouncedInEveryInterleaving(s: State, moves: seq<Move>)
    requires Unused(s) && Possible(s, moves)
    ensures var v := Execute(s, moves); Ledgers.NotificationsInOrder(v.notifications, v.projection.audit)
  {
    if moves != [] {
      GrantsAreAnnouncedInEveryInterleaving(s, Earlier(moves));
      SoundThroughout(s, Earlier(moves));
      if Last(moves).Commit? {
        CommitAnnounces(Execute(s, Earlier(moves)), Last(moves).t);
      }
    }
  }

  lemma CommitKeepsWarranted(s: State, t: TxId)
    requires Sound(s) && CanMove(s, Commit(t)) && Deliveries.AllWarranted(s.notifications, s.projection.audit)
    ensures var v := Do(s, Commit(t)); Deliveries.AllWarranted(v.notifications, v.projection.audit)
  {
    hide GrantExpiry, UnixMilli, Deliveries.AllWarranted;
    var tx, ns, p := s.txs[t], s.notifications, s.projection;
    assert InStep(s, tx);
    match tx {
      case Writer(_, w, _, phase) =>
        if phase.Written? && Newer(w, phase.before) && ChangesState(w, phase.previous) {
          var a := UpsertAudit(w, phase.previous);
          if tx.cause.Webhook? && w.active {
            Deliveries.ScheduleIsWarranted(ns, p.audit, a, w.expiresAt.value);
          } else {
            Deliveries.AuditGrows(ns, p.audit, [a]);
          }
        }
      case Picker(task, at, keys, _) =>
        EffectIsAlone(s, t);
        var more := Deliveries.SweepHasNoTrigger(p, keys, at);
        Deliveries.AuditGrows(ns, p.audit, more);
      case Sender(at, ids) =>
        Deliveries.ClaimKeepsWarranted(ns, p.audit, ids, at);
    }
  }

  /** And in every interleaving each notification announces an audited change to an active STORE grant. */
  lemma {:induction false} NoticesAreWarrantedInEveryInterleaving(s: State, moves: seq<Move>)
    requires Unused(s) && Possible(s, moves)
    ensures var v := Execute(s, moves); Deliveries.AllWarranted(v.notifications, v.projection.audit)
  {
    if moves != [] {
      NoticesAreWarrantedInEveryInterleaving(s, Earlier(moves));
      SoundThroughout(s, Earlier(moves));
      if Last(moves).Commit? {
        CommitKeepsWarranted(Execute(s, Earlier(moves)), Last(moves).t);
      }
    }
  }

  // ----- Claims -----

  /** The notification claims that committed, whichever workers made them. */
  function SendsOf(done: seq<Op>): seq<set<nat>> {
    if done == [] then []
    else SendsOf(Earlier(done)) + if Last(done).Sends? then [Last(done).ids] else []
  }

  lemma CommitKeepsSends(s: State, t: TxId)
    requires Sound(s) && CanMove(s, Commit(t)) && Ledgers.ClaimsMatch(SendsOf(s.done), s.notifications)
    ensures Ledgers.ClaimsMatch(SendsOf(Do(s, Commit(t)).done), Do(s, Commit(t)).notifications)
  {
    hide Ledgers.ClaimsMatch, GrantExpiry, UnixMilli, WriteOf, Proper, Effect;
    var tx, ns, after := s.txs[t], s.notifications, Do(s, Commit(t));
    assert InStep(s, tx);
    assert Earlier(after.done) == s.done;
    if tx.Sender? {
      Ledgers.OneMoreClaim(SendsOf(s.done), ns, tx.ids, tx.startedAt);
    } else {
      assert SendsOf(after.done) == SendsOf(s.done);
      Ledgers.SameSentSameMatch(SendsOf(s.done), ns, after.notifications);
    }
  }

  /** However the claims of any number of workers overlap, no notification is in two committed claims, and
      the claimed ones are exactly those marked sent. */
  lemma {:induction false} SendsAreDisjointInEveryInterleaving(s: State, moves: seq<Move>)
    requires Unused(s) && Possible(s, moves)
    ensures var v := Execute(s, moves); Ledgers.ClaimsMatch(SendsOf(v.done), v.notifications)
  {
    if moves != [] {
      SendsAreDisjointInEveryInterleaving(s, Earlier(moves));
      SoundThroughout(s, Earlier(moves));
      if Last(moves).Commit? {
        CommitKeepsSends(Execute(s, Earlier(moves)), Last(moves).t);
      }
    }
  }

  /** The times stamped by the committed claims of a user's carrier row, in commit order. */
  function ClaimTimes(done: seq<Op>, u: UserId): seq<Micros> {
    if done == [] then []
    else
      ClaimTimes(Earlier(done), u) +
      if Last(done).Claims? && u in Last(done).users then [Last(done).at] else []
  }

  lemma CommitKeepsSpaced(s: State, t: TxId, u: UserId)
    requires Sound(s) && CanMove(s, Commit(t))
    requires Ledgers.Spaced(ClaimTimes(s.done, u), Lookup(s.projection.rows, Key(u, CARRIER)))
    ensures var v := Do(s, Commit(t));
            Ledgers.Spaced(ClaimTimes(v.done, u), Lookup(v.projection.rows, Key(u, CARRIER)))
  {
    hide GrantExpiry, UnixMilli, WriteOf, Proper, Notices, Effect;
    var tx, p, k, after := s.txs[t], s.projection, Key(u, CARRIER), Do(s, Commit(t));
    var times := ClaimTimes(s.done, u);
    assert InStep(s, tx);
    assert Earlier(after.done) == s.done;
    EffectIsAlone(s, t);
    if tx.Picker? && tx.task.Claiming? && u in CarrierUsers(tx.picked) {
      assert k in tx.picked;
      Ledgers.NextClaimIsSpaced(times, p.rows[k], tx.task.dueBefore + STALENESS, tx.startedAt);
    } else {
      assert times + [] == times;
      if tx.Picker? && tx.task.Sweeping? && k in p.rows {
        Ledgers.SweepKeepsPolledAt(p, tx.picked, tx.startedAt, k);
      }
    }
  }

  /** However the claims of any number of workers overlap, and whatever their clocks, two committed claims
      of a user's carrier row are stamped at least five minutes apart, the later one later. */
  lemma {:induction false} ClaimsAreApartInEveryInterleaving(s: State, moves: seq<Move>, u: UserId)
    requires Quiet(s) && Possible(s, moves)
    ensures var v := Execute(s, moves);
            Ledgers.Spaced(ClaimTimes(v.done, u), Lookup(v.projection.rows, Key(u, CARRIER)))
  {
    if moves != [] {
      ClaimsAreApartInEveryInterleaving(s, Earlier(moves), u);
      SoundThroughout(s, Earlier(moves));
      if Last(moves).Commit? {
        CommitKeepsSpaced(Execute(s, Earlier(moves)), Last(moves).t, u);
      }
    }
  }
}
