/** The tables as values, and what each committed transaction does to them. */
module Tables {
  import opened Calendar
  import opened Domain

  datatype AuditRow = AuditRow(
    key: Key,
    previousActive: Option<bool>,
    nextActive: bool,
    previousExpiresAt: Option<Micros>,
    nextExpiresAt: Option<Micros>,
    trigger: Option<EventId>,
    reason: Option<Reason>)

  /** A PREMIUM_EXPIRES_SOON notification; its id is its position in the table. */
  datatype Notification = Notification(user: UserId, scheduledFor: Micros, sentAt: Option<Micros>)

  datatype Marker = Marker(eventId: EventId, source: Source)

  /** user_entitlements and audit_logs, which every change of state writes together. */
  datatype Projection = Projection(rows: map<Key, Row>, audit: seq<AuditRow>)

  datatype Db = Db(
    projection: Projection,
    events: seq<StoreEvent>,
    revocations: map<EventId, UserId>,
    processed: set<Marker>,
    notifications: seq<Notification>)

  // ----- Guarded upsert -----

  datatype Write = Write(
    key: Key,
    active: bool,
    expiresAt: Option<Micros>,
    reason: Reason,
    time: Millis,
    trigger: Option<EventId>)

  function Lookup(rows: map<Key, Row>, k: Key): Option<Row> {
    if k in rows then Some(rows[k]) else None
  }

  /** Whether a write is newer than the row, or there is no row. */
  predicate Newer(w: Write, row: Option<Row>) {
    row.None? || row.value.lastEventTime < w.time
  }

  /** PostgreSQL keeps microseconds, so expiries are equal when they agree to the microsecond. */
  predicate SameExpiration(left: Option<Micros>, right: Option<Micros>) {
    left == right
  }

  predicate ChangesState(w: Write, row: Option<Row>) {
    row.None? || row.value.active != w.active || !SameExpiration(row.value.expiresAt, w.expiresAt)
  }

  /** The row the upsert leaves; it never touches carrier_polled_at. */
  function UpsertedRow(w: Write, row: Option<Row>, now: Micros): Row {
    Row(w.active, w.expiresAt, Some(w.reason), now, w.time,
        if row.Some? then row.value.carrierPolledAt else None)
  }

  function UpsertAudit(w: Write, previous: Option<Row>): AuditRow {
    AuditRow(w.key,
             if previous.Some? then Some(previous.value.active) else None,
             w.active,
             if previous.Some? then previous.value.expiresAt else None,
             w.expiresAt,
             w.trigger,
             Some(w.reason))
  }

  /** Writes the row and audits the change against `previous`, the row as it was read. */
  function ApplyUpsert(p: Projection, w: Write, previous: Option<Row>, now: Micros): Projection {
    Projection(
      p.rows[w.key := UpsertedRow(w, Lookup(p.rows, w.key), now)],
      if ChangesState(w, previous) then p.audit + [UpsertAudit(w, previous)] else p.audit)
  }

  /** An upsert run on its own. */
  function Upsert(p: Projection, w: Write, now: Micros): Projection {
    var row := Lookup(p.rows, w.key);
    if Newer(w, row) then ApplyUpsert(p, w, row, now) else p
  }

  predicate UpsertChanges(p: Projection, w: Write) {
    var row := Lookup(p.rows, w.key);
    Newer(w, row) && ChangesState(w, row)
  }

  // ----- Expiration sweep -----

  function ExpiredRow(r: Row, now: Micros): Row
    requires r.expiresAt.Some?
  {
    r.(active := false, expiresAt := None, reason := Some(EXPIRED), updatedAt := now,
       lastEventTime := UnixMilli(r.expiresAt.value))
  }

  function ExpiryAudit(k: Key, r: Row): AuditRow {
    AuditRow(k, Some(true), false, r.expiresAt, None, None, Some(EXPIRED))
  }

  function ExpireOne(p: Projection, k: Key, now: Micros): Projection {
    if k in p.rows && Due(p.rows[k], now)
    then Projection(p.rows[k := ExpiredRow(p.rows[k], now)], p.audit + [ExpiryAudit(k, p.rows[k])])
    else p
  }

  /** A batch of the transactional sweep, in the order its rows were selected. */
  function SweepBatch(p: Projection, keys: seq<Key>, now: Micros): Projection
    decreases |keys|
  {
    if keys == [] then p else SweepBatch(ExpireOne(p, keys[0], now), keys[1..], now)
  }

  function DueKeys(rows: map<Key, Row>, now: Micros): set<Key> {
    set k | k in rows && Due(rows[k], now)
  }

  predicate Distinct<T(==)>(s: seq<T>) {
    forall i, j :: 0 <= i < j < |s| ==> s[i] != s[j]
  }

  function Elements<T>(s: seq<T>): set<T> {
    set x | x in s
  }

  predicate AllDue(rows: map<Key, Row>, keys: seq<Key>, now: Micros) {
    forall i :: 0 <= i < |keys| ==> keys[i] in rows && Due(rows[keys[i]], now)
  }

  // ----- Store webhook -----

  predicate Recorded(events: seq<StoreEvent>, id: EventId) {
    exists i :: 0 <= i < |events| && events[i].eventId == id
  }

  ghost predicate UniqueIds(events: seq<StoreEvent>) {
    forall i, j :: 0 <= i < j < |events| ==> events[i].eventId != events[j].eventId
  }

  function StoreWrite(e: StoreEvent, readAt: Micros): Write {
    var t := ComputeStateTransition(e.kind, e.timeMs, readAt);
    Write(Key(e.user, STORE), t.active, t.expiresAt, t.reason, e.timeMs, Some(e.eventId))
  }

  predicate SameSlot(n: Notification, user: UserId, at: Micros) {
    n.user == user && UtcDay(n.scheduledFor) == UtcDay(at)
  }

  /** At most one per user and UTC day; a second one is dropped. */
  function Schedule(ns: seq<Notification>, user: UserId, at: Micros): seq<Notification> {
    if exists i :: 0 <= i < |ns| && SameSlot(ns[i], user, at)
    then ns
    else ns + [Notification(user, at, None)]
  }

  /** The committed effect of a valid payload. */
  function StoreWebhook(db: Db, e: StoreEvent, readAt: Micros, now: Micros): Db {
    if Recorded(db.events, e.eventId) then db
    else
      var w := StoreWrite(e, readAt);
      db.(projection := Upsert(db.projection, w, now),
          events := db.events + [e],
          notifications := if UpsertChanges(db.projection, w) && w.active && w.expiresAt.Some?
                           then Schedule(db.notifications, e.user, w.expiresAt.value - MICROS_PER_DAY)
                           else db.notifications,
          processed := db.processed + {Marker(e.eventId, STORE)})
  }

  // ----- Marketplace revocation -----

  function RevokeWrite(user: UserId, id: EventId, batchAt: Micros): Write {
    Write(Key(user, MARKETPLACE), false, None, MarketplaceRevoke, UnixMilli(batchAt), Some(id))
  }

  /** The committed effect of revoking one user under a monthly event id. */
  function RevokeUser(db: Db, user: UserId, id: EventId, batchAt: Micros, now: Micros): Db {
    if id in db.revocations then db
    else
      db.(projection := Upsert(db.projection, RevokeWrite(user, id, batchAt), now),
          revocations := db.revocations[id := user],
          processed := db.processed + {Marker(id, MARKETPLACE)})
  }

  // ----- Carrier polling -----

  const STALENESS: Micros := 5 * 60 * 1_000_000

  predicate CarrierDue(r: Row, dueBefore: Micros) {
    r.active && (r.carrierPolledAt.None? || r.carrierPolledAt.value <= dueBefore)
  }

  function ClaimCarriers(p: Projection, users: set<UserId>, now: Micros): Projection {
    p.(rows := map k | k in p.rows ::
         if k.source == CARRIER && k.user in users then p.rows[k].(carrierPolledAt := Some(now)) else p.rows[k])
  }

  datatype CarrierStatus = PlanActive | PlanInactive | ApiError | UnknownStatus

  function CarrierWrite(user: UserId, active: bool, readAt: Micros): Write {
    Write(Key(user, CARRIER), active, None, CarrierPoll, UnixMilli(readAt), None)
  }

  /** What one poll does with the carrier's reply for a row that was claimed as `claimedActive`. */
  function CarrierReply(p: Projection, user: UserId, claimedActive: bool, status: CarrierStatus,
                        readAt: Micros, now: Micros): Projection
  {
    if (status.PlanActive? && !claimedActive) || (status.PlanInactive? && claimedActive)
    then Upsert(p, CarrierWrite(user, status.PlanActive?, readAt), now)
    else p
  }

  // ----- Notification claims -----

  predicate NotificationDue(n: Notification, now: Micros) {
    n.scheduledFor <= now && n.sentAt.None?
  }

  function ClaimNotifications(ns: seq<Notification>, ids: set<nat>, now: Micros): (r: seq<Notification>)
    ensures |r| == |ns|
  {
    seq(|ns|, i requires 0 <= i < |ns| => if i in ids then ns[i].(sentAt := Some(now)) else ns[i])
  }
}
