/** Runs of whole transactions over the tables, with a clock that never goes back.

    A transaction reads the wall clock at `readAt`, no later than the database's own NOW(). A sweep or
    a claim may take any selection of due rows in any order, which covers LIMIT, ties in ORDER BY and
    rows skipped because another worker has them locked. */
module Runs {
  import opened Calendar
  import opened Domain
  import opened Tables

  datatype World = World(db: Db, now: Micros)

  datatype Step =
    | Deliver(event: StoreEvent, readAt: Micros)
    | Revoke(user: UserId, id: EventId, batchAt: Micros)
    | Poll(user: UserId, status: CarrierStatus, readAt: Micros)
    | Sweep(keys: seq<Key>)
    | ClaimCarrierRows(users: set<UserId>, readAt: Micros)
    | ClaimDue(ids: set<nat>)
    | Advance(elapsed: nat)
    | RolledBack

  ghost predicate Enabled(w: World, s: Step) {
    match s
    case Deliver(e, readAt) => Validate(e).None? && readAt <= w.now
    case Revoke(user, id, batchAt) => batchAt <= w.now
    // Only rows claimed while active are polled, and rows are never deleted.
    case Poll(user, status, readAt) => Key(user, CARRIER) in w.db.projection.rows && readAt <= w.now
    case Sweep(keys) => Distinct(keys) && AllDue(w.db.projection.rows, keys, w.now)
    case ClaimCarrierRows(users, readAt) =>
      && readAt <= w.now
      && forall u :: u in users ==>
           && Key(u, CARRIER) in w.db.projection.rows
           && CarrierDue(w.db.projection.rows[Key(u, CARRIER)], readAt - STALENESS)
    case ClaimDue(ids) =>
      forall i :: i in ids ==> i < |w.db.notifications| && NotificationDue(w.db.notifications[i], w.now)
    case Advance(_) => true
    case RolledBack => true
  }

  function Apply(w: World, s: Step): World {
    match s
    case Deliver(e, readAt) => w.(db := StoreWebhook(w.db, e, readAt, w.now))
    case Revoke(user, id, batchAt) => w.(db := RevokeUser(w.db, user, id, batchAt, w.now))
    case Poll(user, status, readAt) =>
      w.(db := w.db.(projection := CarrierReply(w.db.projection, user, true, status, readAt, w.now)))
    case Sweep(keys) => w.(db := w.db.(projection := SweepBatch(w.db.projection, keys, w.now)))
    case ClaimCarrierRows(users, readAt) =>
      w.(db := w.db.(projection := ClaimCarriers(w.db.projection, users, w.now)))
    case ClaimDue(ids) =>
      w.(db := w.db.(notifications := ClaimNotifications(w.db.notifications, ids, w.now)))
    case Advance(elapsed) => w.(now := w.now + elapsed)
    case RolledBack => w
  }

  /** The state after every step of a run, in order. */
  function Run(w: World, steps: seq<Step>): World {
    if steps == [] then w else Apply(Run(w, Earlier(steps)), Last(steps))
  }

  /** Every step is enabled where it is taken. Every prefix of a valid run is one. */
  ghost predicate ValidRun(w: World, steps: seq<Step>) {
    steps == [] || (ValidRun(w, Earlier(steps)) && Enabled(Run(w, Earlier(steps)), Last(steps)))
  }

  function Earlier<T>(s: seq<T>): seq<T>
    requires s != []
  {
    s[..|s| - 1]
  }

  function Last<T>(s: seq<T>): T
    requires s != []
  {
    s[|s| - 1]
  }

  /** Every stored expiry is later, to the millisecond, than the event behind the row. */
  ghost predicate ExpiryAfterEvent(rows: map<Key, Row>) {
    forall k :: k in rows ==> EventBeforeExpiry(rows[k])
  }

  /** Before the first transaction: no store history; carrier and marketplace rows may exist. */
  ghost predicate Initial(w: World) {
    && (forall k :: k in w.db.projection.rows ==> k.source != STORE)
    && ExpiryAfterEvent(w.db.projection.rows)
    && w.db.projection.audit == []
    && w.db.events == []
    && w.db.revocations == map[]
    && w.db.processed == {}
    && w.db.notifications == []
  }
}
