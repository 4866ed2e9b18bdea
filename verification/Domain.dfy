/** The values the service reasons about: sources, store events, entitlement rows and their rules. */
module Domain {
  import opened Calendar

  datatype Option<+T> = None | Some(value: T)

  datatype Result<+T, +E> = Ok(value: T) | Err(error: E)

  type UserId = string
  type EventId = string

  datatype Source = STORE | CARRIER | MARKETPLACE

  /** `Other` stands for every string that is not one of the six event types. */
  datatype EventType =
    | InitialPurchase
    | Renewal
    | UnCancellation
    | Cancellation
    | BillingIssue
    | Expiration
    | Other(name: string)

  /** A store webhook payload, and as recorded a row of store_events. */
  datatype StoreEvent = StoreEvent(eventId: EventId, user: UserId, kind: EventType, timeMs: Millis, productId: string)

  datatype InvalidPayload =
    | MissingEventId
    | MissingUserId
    | InvalidEventType
    | InvalidEventTime
    | MissingProductId

  /** The first thing wrong with a payload, in the order the fields are checked. */
  function Validate(e: StoreEvent): Option<InvalidPayload> {
    if e.eventId == "" then Some(MissingEventId)
    else if e.user == "" then Some(MissingUserId)
    else if e.kind.Other? then Some(InvalidEventType)
    else if e.timeMs <= 0 then Some(InvalidEventTime)
    else if e.productId == "" then Some(MissingProductId)
    else None
  }

  predicate Grants(kind: EventType) {
    kind.InitialPurchase? || kind.Renewal? || kind.UnCancellation?
  }

  datatype Reason = ByEvent(kind: EventType) | MarketplaceRevoke | CarrierPoll | OtherReason(text: string)

  const EXPIRED := ByEvent(Expiration)

  /** What an event asks the STORE row to become. */
  datatype Transition = Transition(active: bool, expiresAt: Option<Micros>, reason: Reason)

  /** A grant lasts one month from the event time, whatever the clock says; one that has already run
      out when it is read is kept with its expiry but not as active. */
  function ComputeStateTransition(kind: EventType, timeMs: Millis, readAt: Micros): Transition {
    if Grants(kind) then
      var expiry := GrantExpiry(timeMs);
      if expiry > readAt
      then Transition(true, Some(expiry), ByEvent(kind))
      else Transition(false, Some(expiry), EXPIRED)
    else
      Transition(false, None, ByEvent(kind))
  }

  datatype Key = Key(user: UserId, source: Source)

  /** A row of user_entitlements. */
  datatype Row = Row(
    active: bool,
    expiresAt: Option<Micros>,
    reason: Option<Reason>,
    updatedAt: Micros,
    lastEventTime: Millis,
    carrierPolledAt: Option<Micros>)

  /** An expiry, if there is one, is later, to the millisecond, than an event time. */
  predicate ExpiresAfter(time: Millis, expiresAt: Option<Micros>) {
    expiresAt.Some? ==> time < UnixMilli(expiresAt.value)
  }

  predicate EventBeforeExpiry(r: Row) {
    ExpiresAfter(r.lastEventTime, r.expiresAt)
  }

  /** Access ends at the expiry itself. */
  predicate IsActive(r: Row, at: Micros) {
    r.active && (r.expiresAt.None? || r.expiresAt.value > at)
  }

  /** What the sweep selects. */
  predicate Due(r: Row, now: Micros) {
    r.active && r.expiresAt.Some? && r.expiresAt.value <= now
  }

  function Priority(s: Source): nat {
    match s
    case STORE => 3
    case CARRIER => 2
    case MARKETPLACE => 1
  }
}
