/** The transactions at the level of single statements, interleaved in any way.

    A writer inserts its event, takes the advisory lock of its user, reads the row, runs the guarded
    upsert and commits; a store webhook that changed the row to an active grant schedules its
    notification with it. The upsert waits for the row and is evaluated on the latest committed one.
    A sweep, a carrier claim or a notification claim takes row locks only, passes over rows that are
    locked, and never waits. Uncommitted writes are visible to nobody else, and every lock is kept until
    commit or rollback. */
module Protocol {
  import opened Calendar
  import opened Domain
  import opened Tables
  import opened Runs
  import Sweeps

  type TxId = nat

  datatype Phase =
    | Begun
    | Gated                                               // event inserted, its key held
    | Locked                                              // user lock held
    | Seen(previous: Option<Row>)                         // row read under the user lock
    | Written(previous: Option<Row>, before: Option<Row>) // upsert run on `before`, row lock held

  /** What a writer acts on. `readAt` and `batchAt` are the application's clock. */
  datatype Cause =
    | Webhook(event: StoreEvent, readAt: Micros)
    | Revocation(user: UserId, id: EventId, batchAt: Micros)
    | Reply(user: UserId, active: bool, readAt: Micros)

  /** The write it computes before its transaction begins. */
  function WriteOf(c: Cause): Write {
    match c
    case Webhook(e, readAt) => StoreWrite(e, readAt)
    case Revocation(user, id, batchAt) => RevokeWrite(user, id, batchAt)
    case Reply(user, active, readAt) => CarrierWrite(user, active, readAt)
  }

  /** The unique key that a webhook inserts into store_events and a revocation into
      marketplace_revocations. Carrier polls have none. */
  function EventOf(c: Cause): Option<Marker> {
    match c
    case Webhook(e, _) => Some(Marker(e.eventId, STORE))
    case Revocation(_, id, _) => Some(Marker(id, MARKETPLACE))
    case Reply(_, _, _) => None
  }

  /** Only valid payloads get as far as a transaction, and no clock is ahead of the database's. */
  predicate Proper(c: Cause, startedAt: Micros) {
    match c
    case Webhook(e, readAt) => Validate(e).None? && readAt <= startedAt
    case Revocation(_, _, batchAt) => batchAt <= startedAt
    case Reply(_, _, readAt) => readAt <= startedAt
  }

  datatype Task = Sweeping | Claiming(dueBefore: Micros)

  datatype Tx =
    | Writer(cause: Cause, write: Write, startedAt: Micros, phase: Phase)
    | Picker(task: Task, startedAt: Micros, picked: seq<Key>, rows: map<Key, Row>)
    | Sender(startedAt: Micros, ids: set<nat>)

  /** What a committed transaction amounts to when run on its own. */
  datatype Op =
    | Upserts(cause: Cause, write: Write, at: Micros)
    | Sweeps(keys: seq<Key>, at: Micros)
    | Claims(users: set<UserId>, at: Micros)
    | Sends(ids: set<nat>)

  /** `recorded` holds the keys of store_events and marketplace_revocations, `done` the history of
      committed transactions in commit order. */
  datatype State = State(
    projection: Projection,
    notifications: seq<Notification>,
    recorded: set<Marker>,
    txs: map<TxId, Tx>,
    done: seq<Op>)

  // ----- Locks -----

  datatype Resource = EventKey(event: Marker) | UserLock(user: UserId) | RowLock(key: Key) | NoticeLock(id: nat)

  predicate Holds(tx: Tx, r: Resource) {
    match r
    case EventKey(event) => tx.Writer? && EventOf(tx.cause) == Some(event) && !tx.phase.Begun?
    case UserLock(u) => tx.Writer? && tx.write.key.user == u && !tx.phase.Begun? && !tx.phase.Gated?
    case RowLock(k) =>
      if tx.Writer? then tx.phase.Written? && tx.write.key == k else tx.Picker? && k in tx.picked
    case NoticeLock(id) => tx.Sender? && id in tx.ids
  }

  /** What the next statement of a transaction needs. */
  function Wants(tx: Tx): Option<Resource> {
    if !tx.Writer? then None
    else
      match tx.phase
      case Begun => if EventOf(tx.cause).Some? then Some(EventKey(EventOf(tx.cause).value)) else None
      case Gated => Some(UserLock(tx.write.key.user))
      case Locked => None
      case Seen(previous) => if Newer(tx.write, previous) then Some(RowLock(tx.write.key)) else None
      case Written(_, _) => None
  }

  ghost predicate Free(s: State, t: TxId, r: Resource) {
    forall o :: o in s.txs && o != t ==> !Holds(s.txs[o], r)
  }

  // ----- Statements -----

  datatype Move =
    | Begin(t: TxId, tx: Tx)
    | Statement(t: TxId)
    | Pick(t: TxId, keys: seq<Key>)
    | PickNotices(t: TxId, ids: set<nat>)
    | Commit(t: TxId)
    | Rollback(t: TxId)

  lemma WritesExpireAfter(c: Cause)
    ensures ExpiresAfter(WriteOf(c).time, WriteOf(c).expiresAt)
  {
  }

  function CarrierUsers(keys: seq<Key>): set<UserId> {
    set k | k in keys && k.source == CARRIER :: k.user
  }

  /** A transaction that has run no statement yet. */
  predicate Fresh(tx: Tx) {
    match tx
    case Writer(cause, w, at, phase) => phase.Begun? && w == WriteOf(cause) && Proper(cause, at)
    case Picker(task, at, keys, _) => keys == [] && (task.Claiming? ==> task.dueBefore + STALENESS <= at)
    case Sender(_, ids) => ids == {}
  }

  predicate AllClaimable(rows: map<Key, Row>, keys: seq<Key>, dueBefore: Micros) {
    forall i :: 0 <= i < |keys| ==> keys[i].source == CARRIER && keys[i] in rows && CarrierDue(rows[keys[i]], dueBefore)
  }

  ghost predicate CanMove(s: State, m: Move) {
    match m
    case Begin(t, tx) =>
      t !in s.txs && Fresh(tx)
    case Statement(t) =>
      && t in s.txs && s.txs[t].Writer? && !s.txs[t].phase.Written?
      && (s.txs[t].phase.Seen? ==> Newer(s.txs[t].write, s.txs[t].phase.previous))
      && (Wants(s.txs[t]).Some? ==> Free(s, t, Wants(s.txs[t]).value))
    case Pick(t, keys) =>
      && t in s.txs && s.txs[t].Picker? && s.txs[t].picked == [] && Distinct(keys)
      && (forall i :: 0 <= i < |keys| ==> keys[i] in s.projection.rows && Free(s, t, RowLock(keys[i])))
      && (s.txs[t].task.Sweeping? ==> AllDue(s.projection.rows, keys, s.txs[t].startedAt))
      && (s.txs[t].task.Claiming? ==> AllClaimable(s.projection.rows, keys, s.txs[t].task.dueBefore))
    case PickNotices(t, ids) =>
      && t in s.txs && s.txs[t].Sender? && s.txs[t].ids == {}
      && forall id: nat :: id in ids ==>
           && id < |s.notifications| && NotificationDue(s.notifications[id], s.txs[t].startedAt)
           && Free(s, t, NoticeLock(id))
    case Commit(t) =>
      && t in s.txs
      && (s.txs[t].Writer? ==>
            || s.txs[t].phase.Written?
            || (s.txs[t].phase.Seen? && !Newer(s.txs[t].write, s.txs[t].phase.previous)))
    case Rollback(t) => t in s.txs
  }

  function NextPhase(s: State, tx: Tx): Phase
    requires tx.Writer?
  {
    match tx.phase
    case Begun => Gated
    case Gated => Locked
    case Locked => Seen(Lookup(s.projection.rows, tx.write.key))
    case Seen(previous) => Written(previous, Lookup(s.projection.rows, tx.write.key))
    case Written(_, _) => tx.phase
  }

  /** The rows of a batch expired as they were selected. */
  function ExpireSelected(p: Projection, keys: seq<Key>, rows: map<Key, Row>, now: Micros): Projection
    requires forall k :: k in keys ==> k in rows && rows[k].expiresAt.Some?
    decreases |keys|
  {
    if keys == [] then p
    else
      var k := keys[0];
      ExpireSelected(Projection(p.rows[k := ExpiredRow(rows[k], now)], p.audit + [ExpiryAudit(k, rows[k])]),
                     keys[1..], rows, now)
  }

  /** The tables once a transaction's own writes are visible. The audit row of an upsert speaks of the
      row as it was read. */
  function Effect(p: Projection, tx: Tx): Projection {
    match tx
    case Writer(_, w, at, phase) =>
      if phase.Written? && Newer(w, phase.before) then
        Projection(p.rows[w.key := UpsertedRow(w, phase.before, at)],
                   if ChangesState(w, phase.previous) then p.audit + [UpsertAudit(w, phase.previous)] else p.audit)
      else p
    case Picker(task, at, keys, rows) =>
      if task.Claiming? then ClaimCarriers(p, CarrierUsers(keys), at)
      else if forall k :: k in keys ==> k in rows && rows[k].expiresAt.Some? then ExpireSelected(p, keys, rows, at)
      else p
    case Sender(_, _) => p
  }

  function Notices(ns: seq<Notification>, tx: Tx): seq<Notification> {
    match tx
    case Writer(cause, w, _, phase) =>
      if cause.Webhook? && phase.Written? && Newer(w, phase.before) && ChangesState(w, phase.previous)
         && w.active && w.expiresAt.Some?
      then Schedule(ns, w.key.user, w.expiresAt.value - MICROS_PER_DAY)
      else ns
    case Picker(_, _, _, _) => ns
    case Sender(at, ids) => ClaimNotifications(ns, ids, at)
  }

  function OpOf(tx: Tx): Op {
    match tx
    case Writer(cause, w, at, _) => Upserts(cause, w, at)
    case Picker(task, at, keys, _) => if task.Claiming? then Claims(CarrierUsers(keys), at) else Sweeps(keys, at)
    case Sender(_, ids) => Sends(ids)
  }

  predicate Duplicate(s: State, c: Cause) {
    EventOf(c).Some? && EventOf(c).value in s.recorded
  }

  function Do(s: State, m: Move): State {
    match m
    case Begin(t, tx) => s.(txs := s.txs[t := tx])
    case Statement(t) =>
      if t !in s.txs || !s.txs[t].Writer? then s
      else if s.txs[t].phase.Begun? && Duplicate(s, s.txs[t].cause)
      then s.(txs := s.txs - {t})                         // a duplicate ends here
      else s.(txs := s.txs[t := s.txs[t].(phase := NextPhase(s, s.txs[t]))])
    case Pick(t, keys) =>
      if t !in s.txs || !s.txs[t].Picker? then s
      else s.(txs := s.txs[t := s.txs[t].(picked := keys,
                                          rows := map k | k in keys && k in s.projection.rows :: s.projection.rows[k])])
    case PickNotices(t, ids) =>
      if t !in s.txs || !s.txs[t].Sender? then s
      else s.(txs := s.txs[t := s.txs[t].(ids := ids)])
    case Commit(t) =>
      if t !in s.txs then s
      else
        var tx := s.txs[t];
        State(Effect(s.projection, tx),
              Notices(s.notifications, tx),
              if tx.Writer? && EventOf(tx.cause).Some? then s.recorded + {EventOf(tx.cause).value} else s.recorded,
              s.txs - {t},
              s.done + [OpOf(tx)])
    case Rollback(t) => s.(txs := s.txs - {t})
  }

  function Execute(s: State, moves: seq<Move>): State {
    if moves == [] then s else Do(Execute(s, Earlier(moves)), Last(moves))
  }

  ghost predicate Possible(s: State, moves: seq<Move>) {
    moves == [] || (Possible(s, Earlier(moves)) && CanMove(Execute(s, Earlier(moves)), Last(moves)))
  }

  /** Nothing in flight, no history; stored expiries later than the events behind them. */
  ghost predicate Quiet(s: State) {
    ExpiryAfterEvent(s.projection.rows) && s.txs == map[] && s.done == [] && s.recorded == {}
  }

  // ----- What holds between statements -----

  ghost predicate Exclusive(s: State) {
    forall a, b, r :: a in s.txs && b in s.txs && a != b && Holds(s.txs[a], r) ==> !Holds(s.txs[b], r)
  }

  predicate SameState(r: Row, q: Row) {
    r.active == q.active && r.expiresAt == q.expiresAt && r.lastEventTime == q.lastEventTime
  }

  /** A sweep turned `r` into `q`. */
  predicate SweptSince(r: Row, q: Row) {
    && r.active && r.expiresAt.Some? && !q.active && q.expiresAt.None?
    && r.lastEventTime < q.lastEventTime
  }

  /** A row read under the user lock stays as it was read, unless a sweep expires it. */
  predicate StillSeen(previous: Option<Row>, current: Option<Row>) {
    match previous
    case None => current.None?
    case Some(r) => current.Some? && (SameState(r, current.value) || SweptSince(r, current.value))
  }

  ghost predicate InStep(s: State, tx: Tx) {
    match tx
    case Writer(cause, w, at, phase) =>
      && w == WriteOf(cause) && Proper(cause, at) && ExpiresAfter(w.time, w.expiresAt)
      && (!phase.Begun? ==> !Duplicate(s, cause))
      && (phase.Seen? || phase.Written? ==> StillSeen(phase.previous, Lookup(s.projection.rows, w.key)))
      && (phase.Written? ==> Newer(w, phase.previous) && phase.before == Lookup(s.projection.rows, w.key))
    case Picker(task, at, keys, rows) =>
      && Distinct(keys)
      && (forall k :: k in keys ==> k in s.projection.rows && k in rows && rows[k] == s.projection.rows[k])
      && (task.Sweeping? ==> AllDue(s.projection.rows, keys, at))
      && (task.Claiming? ==> task.dueBefore + STALENESS <= at && AllClaimable(s.projection.rows, keys, task.dueBefore))
    case Sender(at, ids) =>
      forall id: nat :: id in ids ==> id < |s.notifications| && NotificationDue(s.notifications[id], at)
  }

  ghost predicate Sound(s: State) {
    && ExpiryAfterEvent(s.projection.rows)
    && Exclusive(s)
    && forall t :: t in s.txs ==> InStep(s, s.txs[t])
  }

  /** One transaction may go on as `tx` when every lock it gains was free. */
  lemma ReplaceKeepsSound(s: State, t: TxId, tx: Tx)
    requires Sound(s) && InStep(s, tx)
    requires forall r :: Holds(tx, r) ==> (t in s.txs && Holds(s.txs[t], r)) || Free(s, t, r)
    ensures Sound(s.(txs := s.txs[t := tx]))
  {
    var after := s.(txs := s.txs[t := tx]);
    forall a, b, r | a in after.txs && b in after.txs && a != b && Holds(after.txs[a], r)
      ensures !Holds(after.txs[b], r)
    {
    }
  }

  lemma DropKeepsSound(s: State, t: TxId)
    requires Sound(s)
    ensures Sound(s.(txs := s.txs - {t}))
  {
  }

  lemma StatementKeepsSound(s: State, t: TxId)
    requires Sound(s) && CanMove(s, Statement(t))
    ensures Sound(Do(s, Statement(t)))
  {
    var tx := s.txs[t];
    if tx.phase.Begun? && Duplicate(s, tx.cause) {
      DropKeepsSound(s, t);
    } else {
      var next := tx.(phase := NextPhase(s, tx));
      assert forall r :: Holds(next, r) ==> Holds(tx, r) || Wants(tx) == Some(r);
      ReplaceKeepsSound(s, t, next);
    }
  }

  lemma PickKeepsSound(s: State, t: TxId, keys: seq<Key>)
    requires Sound(s) && CanMove(s, Pick(t, keys))
    ensures Sound(Do(s, Pick(t, keys)))
  {
    var rows := map k | k in keys && k in s.projection.rows :: s.projection.rows[k];
    ReplaceKeepsSound(s, t, s.txs[t].(picked := keys, rows := rows));
  }

  lemma PickNoticesKeepsSound(s: State, t: TxId, ids: set<nat>)
    requires Sound(s) && CanMove(s, PickNotices(t, ids))
    ensures Sound(Do(s, PickNotices(t, ids)))
  {
    ReplaceKeepsSound(s, t, s.txs[t].(ids := ids));
  }

  /** How a commit may change the rows and notifications the others have seen. */
  ghost predicate Harmless(s: State, q: Projection, ns: seq<Notification>, o: Tx) {
    match o
    case Writer(_, w, _, phase) =>
      var current, next := Lookup(s.projection.rows, w.key), Lookup(q.rows, w.key);
      && (phase.Written? ==> next == current)
      && (phase.Seen? ==> next == current || (current.Some? && next.Some? &&
                            (SameState(current.value, next.value) || SweptSince(current.value, next.value))))
    case Picker(_, _, keys, _) => forall k :: k in keys ==> Lookup(q.rows, k) == Lookup(s.projection.rows, k)
    case Sender(_, ids) =>
      |s.notifications| <= |ns|
      && forall id: nat :: id in ids && id < |s.notifications| ==> ns[id] == s.notifications[id]
  }

  lemma CommitKeepsOthers(s: State, q: Projection, ns: seq<Notification>, o: Tx)
    requires InStep(s, o) && Harmless(s, q, ns, o)
    ensures InStep(s.(projection := q, notifications := ns), o)
  {
    if o.Picker? {
      forall k | k in o.picked
        ensures k in q.rows && q.rows[k] == s.projection.rows[k]
      {
        assert Lookup(q.rows, k) == Lookup(s.projection.rows, k);
      }
    }
  }

  lemma {:induction false} SelectedIsSwept(p: Projection, keys: seq<Key>, rows: map<Key, Row>, now: Micros)
    requires Distinct(keys) && AllDue(p.rows, keys, now)
    requires forall k :: k in keys ==> k in rows && k in p.rows && rows[k] == p.rows[k]
    requires forall k :: k in keys ==> rows[k].expiresAt.Some?
    ensures ExpireSelected(p, keys, rows, now) == SweepBatch(p, keys, now)
    decreases |keys|
  {
    if keys != [] {
      var q := ExpireOne(p, keys[0], now);
      Sweeps.StillDue(p, q, keys, now);
      assert forall k :: k in keys[1..] ==> k in keys;
      SelectedIsSwept(q, keys[1..], rows, now);
    }
  }

  /** Under the locks, a transaction's effect on the rows is what it does when run on its own. */
  function Alone(p: Projection, op: Op): Projection {
    match op
    case Upserts(_, w, at) => Upsert(p, w, at)
    case Sweeps(keys, at) => SweepBatch(p, keys, at)
    case Claims(users, at) => ClaimCarriers(p, users, at)
    case Sends(_) => p
  }

  /** A commit whose audit row was computed from a row that a sweep has replaced meanwhile. */
  predicate Stale(tx: Tx) {
    && tx.Writer? && tx.phase.Written? && Newer(tx.write, tx.phase.before)
    && tx.phase.previous.Some? && tx.phase.before.Some?
    && tx.phase.previous.value.lastEventTime != tx.phase.before.value.lastEventTime
  }

  lemma EffectIsAlone(s: State, t: TxId)
    requires Sound(s) && CanMove(s, Commit(t))
    ensures Effect(s.projection, s.txs[t]).rows == Alone(s.projection, OpOf(s.txs[t])).rows
    ensures !Stale(s.txs[t]) ==> Effect(s.projection, s.txs[t]) == Alone(s.projection, OpOf(s.txs[t]))
  {
    var tx, p := s.txs[t], s.projection;
    assert InStep(s, tx);
    match tx {
      case Writer(_, w, at, phase) =>
      case Sender(_, _) =>
      case Picker(task, at, keys, rows) =>
        if task.Sweeping? {
          assert forall k :: k in keys ==> Due(p.rows[k], at);
          SelectedIsSwept(p, keys, rows, at);
        }
    }
  }

  lemma WriterCommitIsHarmless(s: State, t: TxId, o: TxId)
    requires Sound(s) && CanMove(s, Commit(t)) && s.txs[t].Writer? && o in s.txs && o != t
    ensures Harmless(s, Effect(s.projection, s.txs[t]), Notices(s.notifications, s.txs[t]), s.txs[o])
  {
    var tx := s.txs[t];
    assert Holds(tx, UserLock(tx.write.key.user));
    assert tx.phase.Written? ==> Holds(tx, RowLock(tx.write.key));
    assert !Holds(s.txs[o], UserLock(tx.write.key.user));
  }

  lemma PickerCommitIsHarmless(s: State, t: TxId, o: TxId)
    requires Sound(s) && t in s.txs && s.txs[t].Picker? && o in s.txs && o != t
    ensures Harmless(s, Effect(s.projection, s.txs[t]), Notices(s.notifications, s.txs[t]), s.txs[o])
  {
    var tx, p := s.txs[t], s.projection;
    var q := Effect(p, tx);
    assert InStep(s, tx);
    forall k
      ensures k !in tx.picked ==> Lookup(q.rows, k) == Lookup(p.rows, k)
      ensures k in tx.picked && tx.task.Sweeping? ==> Lookup(q.rows, k) == Some(ExpiredRow(p.rows[k], tx.startedAt))
      ensures k in tx.picked && tx.task.Claiming? ==> Lookup(q.rows, k).Some? && SameState(p.rows[k], q.rows[k])
    {
      if tx.task.Sweeping? {
        assert forall k :: k in tx.picked ==> Due(p.rows[k], tx.startedAt);
        SelectedIsSwept(p, tx.picked, tx.rows, tx.startedAt);
        Sweeps.SweepRows(p, tx.picked, tx.startedAt, k);
      }
    }
    assert forall k :: k in tx.picked ==> Holds(tx, RowLock(k)) && !Holds(s.txs[o], RowLock(k));
  }

  lemma SenderCommitIsHarmless(s: State, t: TxId, o: TxId)
    requires Sound(s) && t in s.txs && s.txs[t].Sender? && o in s.txs && o != t
    ensures Harmless(s, Effect(s.projection, s.txs[t]), Notices(s.notifications, s.txs[t]), s.txs[o])
  {
    assert forall id: nat :: id in s.txs[t].ids ==> Holds(s.txs[t], NoticeLock(id)) && !Holds(s.txs[o], NoticeLock(id));
  }

  lemma CommitKeepsSound(s: State, t: TxId)
    requires Sound(s) && CanMove(s, Commit(t))
    ensures Sound(Do(s, Commit(t)))
  {
    var tx, q := s.txs[t], Effect(s.projection, s.txs[t]);
    var after := Do(s, Commit(t));
    assert InStep(s, tx);
    EffectIsAlone(s, t);
    if tx.Picker? && tx.task.Sweeping? {
      Sweeps.SweepOnward(s.projection, tx.picked, tx.startedAt);
    }
    forall o | o in after.txs
      ensures InStep(after, after.txs[o])
    {
      match tx {
        case Writer(cause, _, _, _) =>
          WriterCommitIsHarmless(s, t, o);
          assert EventOf(cause).Some? ==> Holds(tx, EventKey(EventOf(cause).value));
        case Picker(_, _, _, _) => PickerCommitIsHarmless(s, t, o);
        case Sender(_, _) => SenderCommitIsHarmless(s, t, o);
      }
      CommitKeepsOthers(s, q, after.notifications, s.txs[o]);
    }
  }

  lemma MoveKeepsSound(s: State, m: Move)
    requires Sound(s) && CanMove(s, m)
    ensures Sound(Do(s, m))
  {
    match m {
      case Begin(t, tx) =>
        if tx.Writer? {
          WritesExpireAfter(tx.cause);
        }
        ReplaceKeepsSound(s, t, tx);
      case Statement(t) => StatementKeepsSound(s, t);
      case Pick(t, keys) => PickKeepsSound(s, t, keys);
      case PickNotices(t, ids) => PickNoticesKeepsSound(s, t, ids);
      case Commit(t) => CommitKeepsSound(s, t);
      case Rollback(t) => DropKeepsSound(s, t);
    }
  }

  lemma {:induction false} SoundThroughout(s: State, moves: seq<Move>)
    requires Quiet(s) && Possible(s, moves)
    ensures Sound(Execute(s, moves))
  {
    if moves != [] {
      SoundThroughout(s, Earlier(moves));
      MoveKeepsSound(Execute(s, Earlier(moves)), Last(moves));
    }
  }
}
