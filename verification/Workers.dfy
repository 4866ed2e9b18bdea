/** The background loops: each claims batch after batch until a short one, or until it is cancelled.

    `permits` is the number of batches before the context is cancelled. */
module Workers {
  import opened Calendar
  import opened Domain
  import opened Tables
  import opened Runs
  import opened Postgres
  import opened Selections
  import Sweeps

  const EXPIRATION_BATCH: nat := 1000
  const NOTIFICATION_BATCH: nat := 1000
  const POLLING_BATCH: nat := 100

  // ----- Helpers about batches -----

  lemma ShortBatchIsAll<T(!new)>(candidates: set<T>, rank: T -> Option<int>, limit: nat, s: seq<T>)
    requires FirstInOrder(candidates, rank, limit, s)
    ensures Elements(s) <= candidates && |Elements(s)| == |s|
    ensures |s| < limit ==> Elements(s) == candidates
  {
    DistinctSize(s);
    if |s| < limit && Elements(s) != candidates {
      SubsetSize(Elements(s), candidates);
    }
  }

  lemma SubsetSize<T>(a: set<T>, b: set<T>)
    requires a <= b && a != b
    ensures |a| < |b|
  {
    assert b == a + (b - a);
  }

  lemma RestSize<T>(a: set<T>, b: set<T>)
    requires a <= b
    ensures |b - a| == |b| - |a|
  {
    assert b == a + (b - a);
  }

  lemma NothingLeft<T>(a: set<T>, b: set<T>)
    requires a - b == {} && b <= a
    ensures a == b
  {
    assert forall x :: x in a ==> x in b || x in a - b;
  }

  // ----- Expiration -----

  lemma {:induction false} SweepConcat(p: Projection, a: seq<Key>, b: seq<Key>, now: Micros)
    ensures SweepBatch(p, a + b, now) == SweepBatch(SweepBatch(p, a, now), b, now)
    decreases |a|
  {
    if a == [] {
      assert a + b == b;
    } else {
      assert (a + b)[1..] == a[1..] + b;
      SweepConcat(ExpireOne(p, a[0], now), a[1..], b, now);
    }
  }

  /** One more batch of due rows extends what has been swept so far. */
  lemma NextBatch(p: Projection, order: seq<Key>, keys: seq<Key>, now: Micros)
    requires Distinct(order) && AllDue(p.rows, order, now)
    requires Distinct(keys) && Elements(keys) <= DueKeys(SweepBatch(p, order, now).rows, now)
    ensures Distinct(order + keys) && AllDue(p.rows, order + keys, now)
    ensures AllDue(SweepBatch(p, order, now).rows, keys, now)
    ensures SweepBatch(SweepBatch(p, order, now), keys, now) == SweepBatch(p, order + keys, now)
  {
    var q := SweepBatch(p, order, now);
    Sweeps.SweepLeaves(p, order, now);
    forall i | 0 <= i < |keys|
      ensures keys[i] in DueKeys(q.rows, now) && keys[i] in DueKeys(p.rows, now) && keys[i] !in order
    {
      assert keys[i] in Elements(keys);
    }
    SweepConcat(p, order, keys, now);
  }

  /** What one batch of a drain achieves. */
  lemma BatchProgress(p: Projection, order: seq<Key>, keys: seq<Key>, rank: Key -> Option<int>, limit: nat, now: Micros)
    requires Distinct(order) && AllDue(p.rows, order, now) && limit > 0
    requires FirstInOrder(DueKeys(SweepBatch(p, order, now).rows, now), rank, limit, keys)
    ensures Distinct(order + keys) && AllDue(p.rows, order + keys, now)
    ensures SweepBatch(SweepBatch(p, order, now), keys, now) == SweepBatch(p, order + keys, now)
    ensures var due := DueKeys(SweepBatch(p, order + keys, now).rows, now);
            if |keys| < limit
            then due == {} && Elements(order + keys) == DueKeys(p.rows, now) && |order + keys| == |DueKeys(p.rows, now)|
            else |due| == |DueKeys(SweepBatch(p, order, now).rows, now)| - |keys|
  {
    var q := SweepBatch(p, order, now);
    ShortBatchIsAll(DueKeys(q.rows, now), rank, limit, keys);
    NextBatch(p, order, keys, now);
    Sweeps.SweepLeaves(q, keys, now);
    if |keys| < limit {
      Sweeps.SweepLeaves(p, order + keys, now);
      forall k | k in Elements(order + keys)
        ensures k in DueKeys(p.rows, now)
      {
      }
      NothingLeft(DueKeys(p.rows, now), Elements(order + keys));
      DistinctSize(order + keys);
    } else {
      RestSize(Elements(keys), DueKeys(q.rows, now));
    }
  }

  /** The batches of a drain of `n` items: the last one is short, and may be empty. */
  function BatchesFor(n: nat, size: nat): (batches: nat)
    requires size > 0
    ensures batches > 0
  {
    if n < size then 1 else 1 + BatchesFor(n - size, size)
  }

  /** A batch as large as there are items for, up to the limit, and the batches still to come. */
  lemma OneBatch<T(!new)>(candidates: set<T>, rank: T -> Option<int>, size: nat, batch: seq<T>)
    requires size > 0 && FirstInOrder(candidates, rank, size, batch)
    ensures |batch| <= size && |batch| <= |candidates|
    ensures |batch| < size ==> |batch| == |candidates| && BatchesFor(|candidates|, size) == 1
    ensures |batch| == size ==> BatchesFor(|candidates|, size) == 1 + BatchesFor(|candidates| - size, size)
  {
  }

  /** The keys are those of the active rows whose expiry has come, all of them. */
  ghost predicate AllRunOut(rows: map<Key, Row>, now: Micros, keys: seq<Key>) {
    forall k :: k in keys <==>
      k in rows && rows[k].active && rows[k].expiresAt.Some? && rows[k].expiresAt.value <= now
  }

  lemma DueKeysAreAll(rows: map<Key, Row>, now: Micros, keys: seq<Key>)
    requires Elements(keys) == DueKeys(rows, now)
    ensures AllRunOut(rows, now, keys)
  {
    assert forall k :: k in keys <==> k in Elements(keys);
  }

  /** With no one else writing and the clock standing still, a drain that goes through leaves no due row,
      reports how many were due, and has swept (so audited) each of them exactly once. It goes through
      exactly when enough batches are permitted and enough statements succeed: two for each batch and
      two for each row. */
  method ReconcileOnce(db: Client, now: Micros, permits: nat)
    returns (swept: nat, drained: bool, ghost order: seq<Key>)
    modifies db
    ensures Distinct(order) && AllDue(old(db.rows), order, now) && swept == |order|
    ensures db.View() == old(db.View()).(projection := SweepBatch(old(db.View()).projection, order, now))
    ensures drained ==> DueKeys(db.rows, now) == {} && Elements(order) == DueKeys(old(db.rows), now)
                        && swept == |DueKeys(old(db.rows), now)|
    ensures Expires(old(db.View()).projection, db.View().projection, order, now)
    ensures drained ==> AllRunOut(old(db.rows), now, order)
    ensures !drained ==> swept == permits * 1_000 || db.patience == 0
    ensures var due := |DueKeys(old(db.rows), now)|;
            drained <==> BatchesFor(due, 1_000) <= permits
                         && 2 * BatchesFor(due, 1_000) + 2 * due <= old(db.patience)
  {
    swept, drained, order := 0, false, [];
    var remaining: nat := permits;
    ghost var start := db.View().projection;
    hide BatchesFor, Due, Expires, AllRunOut, LongestExpired, UnixMilli;
    while true
      invariant Distinct(order) && AllDue(start.rows, order, now) && swept == |order|
      invariant db.View() == old(db.View()).(projection := SweepBatch(start, order, now))
      invariant remaining <= permits && swept == (permits - remaining) * EXPIRATION_BATCH
      invariant swept + |DueKeys(db.rows, now)| == |DueKeys(start.rows, now)|
      invariant BatchesFor(|DueKeys(start.rows, now)|, EXPIRATION_BATCH)
                == permits - remaining + BatchesFor(|DueKeys(db.rows, now)|, EXPIRATION_BATCH)
      invariant db.patience == old(db.patience) - 2 * (permits - remaining) - 2 * swept
      decreases |DueKeys(db.rows, now)|
    {
      SweepExpires(start, order, now);
      if remaining == 0 {
        return;
      }
      remaining := remaining - 1;
      ghost var due, rank := DueKeys(db.rows, now), ExpiryRank(db.rows);
      var r, keys := db.ReconcileExpiredEntitlements(EXPIRATION_BATCH, now);
      if r.Err? {
        return;
      }
      OneBatch(due, rank, EXPIRATION_BATCH, keys);
      BatchProgress(start, order, keys, rank, EXPIRATION_BATCH, now);
      order := order + keys;
      swept := swept + r.value;
      if r.value < EXPIRATION_BATCH {
        drained := true;
        SweepExpires(start, order, now);
        DueKeysAreAll(start.rows, now, order);
        return;
      }
    }
  }

  // ----- Notifications -----

  lemma ClaimTwice(ns: seq<Notification>, a: set<nat>, b: set<nat>, now: Micros)
    ensures ClaimNotifications(ClaimNotifications(ns, a, now), b, now) == ClaimNotifications(ns, a + b, now)
    ensures DueIds(ClaimNotifications(ns, a, now), now) == DueIds(ns, now) - a
  {
  }

  lemma ClaimProgress(ns: seq<Notification>, ids: set<nat>, batch: seq<nat>, rank: nat -> Option<int>, limit: nat,
                      now: Micros)
    requires ids <= DueIds(ns, now) && limit > 0
    requires FirstInOrder(DueIds(ClaimNotifications(ns, ids, now), now), rank, limit, batch)
    ensures ids + Elements(batch) <= DueIds(ns, now) && |ids + Elements(batch)| == |ids| + |batch|
    ensures ClaimNotifications(ClaimNotifications(ns, ids, now), Elements(batch), now)
            == ClaimNotifications(ns, ids + Elements(batch), now)
    ensures var due := DueIds(ClaimNotifications(ns, ids + Elements(batch), now), now);
            if |batch| < limit then due == {} && ids + Elements(batch) == DueIds(ns, now)
            else |due| == |DueIds(ClaimNotifications(ns, ids, now), now)| - |batch|
  {
    var left := DueIds(ClaimNotifications(ns, ids, now), now);
    ClaimTwice(ns, ids, Elements(batch), now);
    ClaimTwice(ns, ids + Elements(batch), {}, now);
    ShortBatchIsAll(left, rank, limit, batch);
    assert ids !! Elements(batch);
    if |batch| < limit {
      NothingLeft(DueIds(ns, now), ids + Elements(batch));
    } else {
      RestSize(Elements(batch), left);
    }
  }

  /** Exactly the unsent notifications whose time has come are marked sent, now. */
  predicate AllSent(ns: seq<Notification>, after: seq<Notification>, now: Micros) {
    && |after| == |ns|
    && forall i :: 0 <= i < |ns| ==>
         after[i] == if ns[i].sentAt.None? && ns[i].scheduledFor <= now
                     then Notification(ns[i].user, ns[i].scheduledFor, Some(now)) else ns[i]
  }

  lemma DueIdsAreAll(ns: seq<Notification>, now: Micros)
    ensures AllSent(ns, ClaimNotifications(ns, DueIds(ns, now), now), now)
  {
  }

  /** Growing the drain by one batch. */
  lemma NextClaim(ns: seq<Notification>, ids: set<nat>, batch: seq<nat>, rank: nat -> Option<int>, limit: nat,
                  now: Micros)
    returns (next: set<nat>)
    requires ids <= DueIds(ns, now) && limit > 0
    requires FirstInOrder(DueIds(ClaimNotifications(ns, ids, now), now), rank, limit, batch)
    ensures next <= DueIds(ns, now) && |next| == |ids| + |batch|
    ensures ClaimNotifications(ClaimNotifications(ns, ids, now), Elements(batch), now)
            == ClaimNotifications(ns, next, now)
    ensures var due := DueIds(ClaimNotifications(ns, next, now), now);
            if |batch| < limit then
              due == {} && next == DueIds(ns, now) && AllSent(ns, ClaimNotifications(ns, next, now), now)
            else |due| == |DueIds(ClaimNotifications(ns, ids, now), now)| - |batch|
  {
    next := ids + Elements(batch);
    DueIdsAreAll(ns, now);
    ClaimProgress(ns, ids, batch, rank, limit, now);
  }

  /** The same for notifications: every due one is claimed exactly once, and nothing else changes. */
  method SendOnce(db: Client, now: Micros, permits: nat) returns (claimed: nat, drained: bool, ghost ids: set<nat>)
    modifies db
    ensures ids <= DueIds(old(db.notifications), now) && claimed == |ids|
    ensures db.View() == old(db.View()).(notifications := ClaimNotifications(old(db.notifications), ids, now))
    ensures drained ==> ids == DueIds(old(db.notifications), now) && DueIds(db.notifications, now) == {}
    ensures drained ==> AllSent(old(db.notifications), db.notifications, now)
    ensures !drained ==> claimed == permits * 1_000 || db.patience == 0
    ensures var due := |DueIds(old(db.notifications), now)|;
            drained <==> BatchesFor(due, 1_000) <= permits
                         && 2 * BatchesFor(due, 1_000) <= old(db.patience)
  {
    claimed, drained, ids := 0, false, {};
    var remaining: nat := permits;
    ghost var before, start := db.View(), db.notifications;
    assert ClaimNotifications(start, {}, now) == start;
    assert {} <= DueIds(start, now);
    hide BatchesFor, ClaimNotifications, DueIds, Elements, FirstInOrder, ScheduleRank, EarliestUnsent, Marked, AllSent;
    while true
      invariant ids <= DueIds(start, now) && claimed == |ids|
      invariant db.notifications == ClaimNotifications(start, ids, now)
      invariant db.View() == before.(notifications := db.notifications)
      invariant remaining <= permits && claimed == (permits - remaining) * NOTIFICATION_BATCH
      invariant claimed + |DueIds(db.notifications, now)| == |DueIds(start, now)|
      invariant BatchesFor(|DueIds(start, now)|, NOTIFICATION_BATCH)
                == permits - remaining + BatchesFor(|DueIds(db.notifications, now)|, NOTIFICATION_BATCH)
      invariant db.patience == old(db.patience) - 2 * (permits - remaining)
      decreases |DueIds(db.notifications, now)|
    {
      if remaining == 0 {
        return;
      }
      remaining := remaining - 1;
      ghost var due, rank := DueIds(db.notifications, now), ScheduleRank(db.notifications);
      var r := db.ClaimDueNotifications(NOTIFICATION_BATCH, now);
      if r.Err? {
        return;
      }
      OneBatch(due, rank, NOTIFICATION_BATCH, r.value);
      ids := NextClaim(start, ids, r.value, rank, NOTIFICATION_BATCH, now);
      claimed := claimed + |r.value|;
      if |r.value| < NOTIFICATION_BATCH {
        drained := true;
        return;
      }
    }
  }

  // ----- Carrier polling -----

  type Replies = map<UserId, CarrierStatus>

  /** The replies to a batch of claimed users, applied in order. */
  function PollAll(p: Projection, users: seq<UserId>, replies: Replies, now: Micros): Projection
    decreases |users|
  {
    if users == [] then p
    else PollAll(CarrierReply(p, users[0], true, ReplyOf(replies, users[0]), now, now), users[1..], replies, now)
  }

  /** Claiming `users` and applying their replies. */
  function Polled(p: Projection, users: seq<UserId>, replies: Replies, now: Micros): Projection {
    PollAll(ClaimCarriers(p, Elements(users), now), users, replies, now)
  }

  /** Claiming `users` and applying the replies of the first `n`. */
  function PolledInPart(p: Projection, users: seq<UserId>, n: nat, replies: Replies, now: Micros): Projection
    requires n <= |users|
  {
    PollAll(ClaimCarriers(p, Elements(users), now), users[..n], replies, now)
  }

  lemma AllOrNobody(p: Projection, users: seq<UserId>, replies: Replies, now: Micros)
    ensures PolledInPart(p, users, |users|, replies, now) == Polled(p, users, replies, now)
    ensures PolledInPart(p, [], 0, replies, now) == Polled(p, [], replies, now) == p
  {
    assert users[..|users|] == users;
    ClaimNobody(p, now);
    assert Elements<UserId>([]) == {};
  }

  /** A user without a reply is one whose request failed. */
  function ReplyOf(replies: Replies, u: UserId): CarrierStatus {
    if u in replies then replies[u] else ApiError
  }

  /** What one reply does: a write only when the plan's status differs from the claimed row's. */
  method ApplyReply(db: Client, u: UserId, claimedActive: bool, status: CarrierStatus, now: Micros) returns (ok: bool)
    modifies db
    ensures db.View() == old(db.View()).(projection :=
              if ok then CarrierReply(old(db.View()).projection, u, claimedActive, status, now, now)
              else old(db.View()).projection)
    ensures !ok ==> db.patience == 0
    ensures old(db.patience) >= 5 ==> ok && db.patience >= old(db.patience) - 5
  {
    if status.ApiError? {
      return true;
    }
    var active: bool;
    match status {
      case PlanActive => active := true;
      case PlanInactive => active := false;
      case _ => return true;
    }
    if active == claimedActive {
      return true;
    }
    var written := db.UpsertEntitlement(CarrierWrite(u, active, now), now);
    return written.Ok?;
  }

  /** One poll of the batch of carrier rows due longest: claims them, then applies the replies in order.
      A failed write, or cancellation after `permits` users, stops it after the users before. */
  method PollCarriersForUsers(db: Client, limit: nat, dueBefore: Micros, replies: Replies, now: Micros,
                              permits: nat)
    returns (polled: nat, ok: bool, ghost users: seq<UserId>)
    modifies db
    ensures FirstInOrder(DueUsers(old(db.rows), dueBefore), PollRank(old(db.rows)), limit, users)
            || (!ok && users == [])
    ensures LongestUnpolled(old(db.rows), dueBefore, limit, users) || (!ok && users == [])
    ensures polled <= |users| && polled <= permits && (ok ==> polled == |users|)
    ensures !ok ==> polled == permits || db.patience == 0
    ensures var due := Least(limit, |DueUsers(old(db.rows), dueBefore)|);
            due <= permits && 2 + 5 * due <= old(db.patience) ==> ok
    ensures ok ==> db.patience >= old(db.patience) - 2 - 5 * polled
    ensures db.View() == old(db.View()).(projection :=
              PolledInPart(old(db.View()).projection, users, polled, replies, now))
  {
    polled, ok, users := 0, false, [];
    ghost var before := db.View().projection;
    ClaimNobody(before, now);
    var r := db.ClaimDueCarrierEntitlements(limit, dueBefore, now);
    if r.Err? {
      return;
    }
    users := r.value;
    var claimed := db.rows;
    ghost var start := db.View().projection;
    ClaimedAreActive(before, users, limit, replies, dueBefore, now);
    hide PollAll, ClaimCarriers, CarrierReply, FirstInOrder, DueUsers, LongestUnpolled;
    for i := 0 to |r.value|
      invariant polled == i <= permits && users == r.value && claimed == start.rows && !ok
      invariant db.patience >= old(db.patience) - 2 - 5 * i
      invariant db.View() == old(db.View()).(projection := PollAll(start, users[..i], replies, now))
      invariant forall u :: u in users ==> Key(u, CARRIER) in start.rows && start.rows[Key(u, CARRIER)].active
    {
      if i == permits {
        return;
      }
      var u := r.value[i];
      NextReply(start, users, i, replies, now);
      var applied := ApplyReply(db, u, claimed[Key(u, CARRIER)].active, ReplyOf(replies, u), now);
      if !applied {
        return;
      }
      polled := polled + 1;
    }
    ok := true;
  }

  lemma ClaimedAreActive(p: Projection, users: seq<UserId>, limit: nat, replies: Replies,
                         dueBefore: Micros, now: Micros)
    requires FirstInOrder(DueUsers(p.rows, dueBefore), PollRank(p.rows), limit, users)
    ensures var start := ClaimCarriers(p, Elements(users), now);
            && PollAll(start, users[..0], replies, now) == start
            && forall u :: u in users ==> Key(u, CARRIER) in start.rows && start.rows[Key(u, CARRIER)].active
  {
    forall u | u in users
      ensures Key(u, CARRIER) in p.rows && p.rows[Key(u, CARRIER)].active
    {
      DueUser(p.rows, u, dueBefore);
    }
  }

  lemma NextReply(p: Projection, users: seq<UserId>, i: nat, replies: Replies, now: Micros)
    requires i < |users|
    ensures PollAll(p, users[..i + 1], replies, now)
            == CarrierReply(PollAll(p, users[..i], replies, now), users[i], true, ReplyOf(replies, users[i]), now, now)
  {
    assert users[..i + 1] == users[..i] + [users[i]];
    PollSnoc(p, users[..i], users[i], replies, now);
  }

  lemma ClaimNobody(p: Projection, now: Micros)
    ensures ClaimCarriers(p, {}, now) == p
  {
    assert ClaimCarriers(p, {}, now).rows == p.rows;
  }

  lemma {:induction false} PollSnoc(p: Projection, users: seq<UserId>, u: UserId, replies: Replies, now: Micros)
    ensures PollAll(p, users + [u], replies, now)
            == CarrierReply(PollAll(p, users, replies, now), u, true, ReplyOf(replies, u), now, now)
    decreases |users|
  {
    if users == [] {
      assert [u][1..] == [] && [] + [u] == [u];
    } else {
      assert (users + [u])[1..] == users[1..] + [u];
      PollSnoc(CarrierReply(p, users[0], true, ReplyOf(replies, users[0]), now, now), users[1..], u, replies, now);
    }
  }

  /** Polling touches only the carrier rows of the polled users, and not when they were claimed. */
  lemma {:induction false} PollFrame(p: Projection, users: seq<UserId>, replies: Replies, now: Micros, k: Key)
    requires forall u :: u in users ==> Key(u, CARRIER) in p.rows
    ensures k.source != CARRIER || k.user !in users ==>
              Lookup(PollAll(p, users, replies, now).rows, k) == Lookup(p.rows, k)
    ensures k in p.rows ==>
              && k in PollAll(p, users, replies, now).rows
              && PollAll(p, users, replies, now).rows[k].carrierPolledAt == p.rows[k].carrierPolledAt
    decreases |users|
  {
    if users != [] {
      PollFrame(CarrierReply(p, users[0], true, ReplyOf(replies, users[0]), now, now), users[1..], replies, now, k);
    }
  }

  /** After a batch the claimed users are no longer due; everyone else is due as before. */
  lemma BatchLeaves(p: Projection, users: seq<UserId>, replies: Replies, now: Micros)
    requires Elements(users) <= DueUsers(p.rows, now - STALENESS)
    ensures DueUsers(PollAll(ClaimCarriers(p, Elements(users), now), users, replies, now).rows, now - STALENESS)
            == DueUsers(p.rows, now - STALENESS) - Elements(users)
  {
    var start := ClaimCarriers(p, Elements(users), now);
    var after := PollAll(start, users, replies, now);
    forall u | u in users
      ensures Key(u, CARRIER) in start.rows
    {
      assert u in Elements(users);
    }
    forall u
      ensures u in DueUsers(after.rows, now - STALENESS) <==> u in DueUsers(p.rows, now - STALENESS) && u !in users
    {
      PollFrame(start, users, replies, now, Key(u, CARRIER));
      DueUser(after.rows, u, now - STALENESS);
      DueUser(p.rows, u, now - STALENESS);
      assert Lookup(after.rows, Key(u, CARRIER)).Some? <==> Key(u, CARRIER) in after.rows;
    }
  }

  lemma {:induction false} ClaimPastPoll(p: Projection, users: seq<UserId>, others: set<UserId>,
                                         replies: Replies, now: Micros)
    requires forall u :: u in users ==> u !in others
    ensures ClaimCarriers(PollAll(p, users, replies, now), others, now)
            == PollAll(ClaimCarriers(p, others, now), users, replies, now)
    decreases |users|
  {
    if users != [] {
      var u := users[0];
      var q := CarrierReply(p, u, true, ReplyOf(replies, u), now, now);
      ClaimPastPoll(q, users[1..], others, replies, now);
      ClaimPastUpsert(p, CarrierWrite(u, false, now), others, now);
    }
  }

  lemma ClaimPastUpsert(p: Projection, w: Write, others: set<UserId>, now: Micros)
    requires w.key.user !in others
    ensures ClaimCarriers(Upsert(p, w, now), others, now) == Upsert(ClaimCarriers(p, others, now), w, now)
  {
    assert Lookup(ClaimCarriers(p, others, now).rows, w.key) == Lookup(p.rows, w.key);
    assert ClaimCarriers(Upsert(p, w, now), others, now).rows == Upsert(ClaimCarriers(p, others, now), w, now).rows;
  }

  lemma {:induction false} PollConcat(p: Projection, a: seq<UserId>, b: seq<UserId>, replies: Replies, now: Micros)
    ensures PollAll(p, a + b, replies, now) == PollAll(PollAll(p, a, replies, now), b, replies, now)
    decreases |a|
  {
    if a == [] {
      assert a + b == b;
    } else {
      assert (a + b)[1..] == a[1..] + b;
      PollConcat(CarrierReply(p, a[0], true, ReplyOf(replies, a[0]), now, now), a[1..], b, replies, now);
    }
  }

  /** Two batches of different users are one larger batch. */
  lemma TwoBatches(p: Projection, a: seq<UserId>, b: seq<UserId>, replies: Replies, now: Micros)
    requires Elements(a) !! Elements(b)
    ensures Polled(Polled(p, a, replies, now), b, replies, now) == Polled(p, a + b, replies, now)
  {
    var start := ClaimCarriers(p, Elements(a), now);
    forall u | u in a
      ensures u !in Elements(b)
    {
      assert u in Elements(a);
    }
    ClaimPastPoll(start, a, Elements(b), replies, now);
    assert ClaimCarriers(start, Elements(b), now).rows == ClaimCarriers(p, Elements(a + b), now).rows;
    PollConcat(ClaimCarriers(p, Elements(a + b), now), a, b, replies, now);
  }

  /** Growing the drain by one batch of users who are due. */
  lemma NextPoll(p: Projection, order: seq<UserId>, batch: seq<UserId>, replies: Replies, now: Micros)
    requires Distinct(order) && Elements(order) <= DueUsers(p.rows, now - STALENESS) && Distinct(batch)
    requires Elements(batch) <= DueUsers(Polled(p, order, replies, now).rows, now - STALENESS)
    ensures Distinct(order + batch) && Elements(order + batch) <= DueUsers(p.rows, now - STALENESS)
    ensures Polled(Polled(p, order, replies, now), batch, replies, now) == Polled(p, order + batch, replies, now)
    ensures DueUsers(Polled(p, order + batch, replies, now).rows, now - STALENESS)
            == DueUsers(Polled(p, order, replies, now).rows, now - STALENESS) - Elements(batch)
  {
    BatchLeaves(p, order, replies, now);
    BatchLeaves(Polled(p, order, replies, now), batch, replies, now);
    assert Elements(order + batch) == Elements(order) + Elements(batch);
    forall i | 0 <= i < |batch|
      ensures batch[i] !in order
    {
      assert batch[i] in Elements(batch);
    }
    TwoBatches(p, order, batch, replies, now);
  }

  lemma PolledAll(p: Projection, order: seq<UserId>, replies: Replies, now: Micros)
    requires Distinct(order) && Elements(order) <= DueUsers(p.rows, now - STALENESS)
    requires DueUsers(Polled(p, order, replies, now).rows, now - STALENESS) == {}
    ensures Elements(order) == DueUsers(p.rows, now - STALENESS) && |order| == |DueUsers(p.rows, now - STALENESS)|
  {
    BatchLeaves(p, order, replies, now);
    NothingLeft(DueUsers(p.rows, now - STALENESS), Elements(order));
    DistinctSize(order);
  }

  function DueAfter(p: Projection, order: seq<UserId>, replies: Replies, now: Micros): set<UserId> {
    DueUsers(Polled(p, order, replies, now).rows, now - STALENESS)
  }

  /** What one batch of a polling drain achieves. */
  lemma PollProgress(p: Projection, order: seq<UserId>, batch: seq<UserId>, rank: UserId -> Option<int>, limit: nat,
                     replies: Replies, now: Micros)
    returns (longer: seq<UserId>)
    requires Distinct(order) && Elements(order) <= DueUsers(p.rows, now - STALENESS) && limit > 0
    requires FirstInOrder(DueAfter(p, order, replies, now), rank, limit, batch)
    ensures Distinct(longer) && Elements(longer) <= DueUsers(p.rows, now - STALENESS)
    ensures |longer| == |order| + |batch|
    ensures PolledInPart(Polled(p, order, replies, now), batch, |batch|, replies, now)
            == Polled(p, longer, replies, now)
    ensures |DueAfter(p, longer, replies, now)| == |DueAfter(p, order, replies, now)| - |batch|
    ensures |batch| < limit ==>
              && DueAfter(p, longer, replies, now) == {} && Elements(longer) == DueUsers(p.rows, now - STALENESS)
              && |longer| == |DueUsers(p.rows, now - STALENESS)|
    ensures BatchesFor(|DueAfter(p, order, replies, now)|, limit)
            == if |batch| < limit then 1 else 1 + BatchesFor(|DueAfter(p, longer, replies, now)|, limit)
  {
    longer := order + batch;
    var due := DueAfter(p, order, replies, now);
    hide PollAll, ClaimCarriers, DueUsers, PolledInPart;
    OneBatch(due, rank, limit, batch);
    ShortBatchIsAll(due, rank, limit, batch);
    AllOrNobody(Polled(p, order, replies, now), batch, replies, now);
    NextPoll(p, order, batch, replies, now);
    RestSize(Elements(batch), due);
    if |batch| < limit {
      PolledAll(p, longer, replies, now);
    }
  }

  /** What a polling drain should make of a row. An active carrier row last polled five minutes ago or more,
      or never, is stamped as polled now; one whose plan is reported inactive is also made inactive, unless a
      change from this very millisecond or later is already on it. Every other row stays as it is. */
  function PolledRowOf(k: Key, r: Row, replies: Replies, now: Micros): Row {
    if k.source != CARRIER || !r.active || (r.carrierPolledAt.Some? && r.carrierPolledAt.value > now - 300_000_000)
    then r
    else if k.user in replies && replies[k.user] == PlanInactive && r.lastEventTime < UnixMilli(now)
    then Row(false, None, Some(CarrierPoll), now, UnixMilli(now), Some(now))
    else r.(carrierPolledAt := Some(now))
  }

  ghost predicate AllPolled(rows: map<Key, Row>, after: map<Key, Row>, replies: Replies, now: Micros) {
    after.Keys == rows.Keys && forall k :: k in rows ==> after[k] == PolledRowOf(k, rows[k], replies, now)
  }

  /** The reply of one user in a batch decides that user's row. */
  lemma {:induction false} PolledRow(p: Projection, users: seq<UserId>, replies: Replies, now: Micros, u: UserId)
    requires Distinct(users) && u in users && Key(u, CARRIER) in p.rows
    requires forall v :: v in users ==> Key(v, CARRIER) in p.rows
    ensures Lookup(PollAll(p, users, replies, now).rows, Key(u, CARRIER))
            == Lookup(CarrierReply(p, u, true, ReplyOf(replies, u), now, now).rows, Key(u, CARRIER))
    decreases |users|
  {
    hide UnixMilli;
    var next := CarrierReply(p, users[0], true, ReplyOf(replies, users[0]), now, now);
    assert Distinct(users[1..]) && forall v :: v in users[1..] ==> v in users;
    if users[0] == u {
      assert u !in users[1..];
      PollFrame(next, users[1..], replies, now, Key(u, CARRIER));
    } else {
      PolledRow(next, users[1..], replies, now, u);
    }
  }

  lemma RowAfterPoll(p: Projection, order: seq<UserId>, replies: Replies, now: Micros, k: Key)
    requires Distinct(order) && Elements(order) == DueUsers(p.rows, now - STALENESS)
    ensures Lookup(Polled(p, order, replies, now).rows, k) ==
            if k in p.rows then Some(PolledRowOf(k, p.rows[k], replies, now)) else None
  {
    hide UnixMilli, PollAll;
    var start := ClaimCarriers(p, Elements(order), now);
    forall v | v in order
      ensures Key(v, CARRIER) in start.rows
    {
      DueUser(p.rows, v, now - STALENESS);
      assert v in Elements(order);
    }
    DueUser(p.rows, k.user, now - STALENESS);
    assert k.user in order <==> k.user in Elements(order);
    if k.source == CARRIER && k.user in order {
      PolledRow(start, order, replies, now, k.user);
      assert k == Key(k.user, CARRIER);
    } else {
      PollFrame(start, order, replies, now, k);
    }
  }

  lemma PolledRows(p: Projection, order: seq<UserId>, replies: Replies, now: Micros)
    requires Distinct(order) && Elements(order) == DueUsers(p.rows, now - STALENESS)
    ensures AllPolled(p.rows, Polled(p, order, replies, now).rows, replies, now)
  {
    hide Polled, PolledRowOf;
    var after := Polled(p, order, replies, now).rows;
    forall k
      ensures k in after <==> k in p.rows
      ensures k in p.rows ==> after[k] == PolledRowOf(k, p.rows[k], replies, now)
    {
      RowAfterPoll(p, order, replies, now, k);
      assert k in after <==> Lookup(after, k).Some?;
    }
  }

  /** A polling drain that is not cut short claims every due user exactly once, applies the replies in
      that order and nothing else, leaves nobody due, and reports how many were due. That happens
      whenever enough batches and users are permitted and enough statements succeed. One that is
      cancelled, after so many batches or so many users, or fails has done whole batches and then
      claimed one more, `cut`, whose first `n` replies it applied. */
  method PollOnce(db: Client, replies: Replies, now: Micros, batchPermits: nat, userPermits: nat)
    returns (polled: nat, drained: bool, ghost order: seq<UserId>, ghost cut: seq<UserId>, ghost n: nat)
    modifies db
    ensures Distinct(order) && Elements(order) <= DueUsers(old(db.rows), now - STALENESS) && polled == |order|
    ensures n <= |cut|
    ensures db.View() == old(db.View()).(projection :=
              PolledInPart(Polled(old(db.View()).projection, order, replies, now), cut, n, replies, now))
    ensures drained ==>
      && Elements(order) == DueUsers(old(db.rows), now - STALENESS)
      && polled == |DueUsers(old(db.rows), now - STALENESS)|
      && cut == [] && db.View() == old(db.View()).(projection := Polled(old(db.View()).projection, order, replies, now))
      && DueUsers(db.rows, now - STALENESS) == {}
    ensures drained ==> AllPolled(old(db.rows), db.rows, replies, now)
    ensures !drained ==> polled == batchPermits * 100 || polled + n == userPermits || db.patience == 0
    ensures var due := |DueUsers(old(db.rows), now - STALENESS)|;
            && (drained ==> BatchesFor(due, 100) <= batchPermits && due <= userPermits)
            && ((BatchesFor(due, 100) <= batchPermits && due <= userPermits
                 && 2 * BatchesFor(due, 100) + 5 * due <= old(db.patience)) ==> drained)
  {
    polled, drained, order, cut, n := 0, false, [], [], 0;
    var remaining: nat := batchPermits;
    ghost var start := db.View().projection;
    AllOrNobody(start, [], replies, now);
    hide Polled, PolledInPart, ClaimCarriers, BatchesFor, DueUsers, FirstInOrder, Elements, Distinct;
    hide LongestUnpolled, AllPolled;
    while true
      invariant Distinct(order) && Elements(order) <= DueUsers(start.rows, now - STALENESS) && polled == |order|
      invariant db.View() == old(db.View()).(projection := Polled(start, order, replies, now))
      invariant remaining <= batchPermits && polled == (batchPermits - remaining) * POLLING_BATCH
      invariant polled <= userPermits && cut == [] && n == 0
      invariant polled + |DueUsers(db.rows, now - STALENESS)| == |DueUsers(start.rows, now - STALENESS)|
      invariant BatchesFor(|DueUsers(start.rows, now - STALENESS)|, POLLING_BATCH)
                == batchPermits - remaining + BatchesFor(|DueUsers(db.rows, now - STALENESS)|, POLLING_BATCH)
      invariant db.patience >= old(db.patience) - 2 * (batchPermits - remaining) - 5 * polled
      decreases |DueUsers(db.rows, now - STALENESS)|
    {
      AllOrNobody(Polled(start, order, replies, now), [], replies, now);
      if remaining == 0 {
        return;
      }
      remaining := remaining - 1;
      ghost var rank := PollRank(db.rows);
      var count, ok, batch :=
        PollCarriersForUsers(db, POLLING_BATCH, now - STALENESS, replies, now, userPermits - polled);
      if !ok {
        cut, n := batch, count;
        return;
      }
      order := PollProgress(start, order, batch, rank, POLLING_BATCH, replies, now);
      polled := polled + count;
      if count < POLLING_BATCH {
        PolledRows(start, order, replies, now);
        AllOrNobody(Polled(start, order, replies, now), [], replies, now);
        drained := true;
        return;
      }
    }
  }

  // ----- The second sweep -----

  lemma {:induction false} FallbackSnoc(p: Projection, keys: seq<Key>, k: Key, now: Micros)
    ensures Sweeps.FallbackBatch(p, keys + [k], now) == Sweeps.FallbackOne(Sweeps.FallbackBatch(p, keys, now), k, now)
    ensures var q := Sweeps.FallbackBatch(p, keys, now);
            Sweeps.FallbackCount(p, keys + [k], now) == Sweeps.FallbackCount(p, keys, now) +
              if k in q.rows && Due(q.rows[k], now) && UpsertChanges(q, Sweeps.ExpiryWrite(k, q.rows[k])) then 1 else 0
    decreases |keys|
  {
    if keys == [] {
      assert [k][1..] == [] && [] + [k] == [k];
    } else {
      assert (keys + [k])[1..] == keys[1..] + [k];
      FallbackSnoc(Sweeps.FallbackOne(p, keys[0], now), keys[1..], k, now);
    }
  }

  lemma {:induction false} FallbackFrame(p: Projection, keys: seq<Key>, now: Micros, k: Key)
    requires k !in keys
    ensures Lookup(Sweeps.FallbackBatch(p, keys, now).rows, k) == Lookup(p.rows, k)
    decreases |keys|
  {
    if keys != [] {
      Sweeps.ExpireOneFrame(p, keys[0], now, k);
      FallbackFrame(Sweeps.FallbackOne(p, keys[0], now), keys[1..], now, k);
    }
  }

  /** The fallback after its first `n` keys, and its count by then. */
  function FallbackPart(p: Projection, keys: seq<Key>, n: nat, now: Micros): Projection
    requires n <= |keys|
  {
    Sweeps.FallbackBatch(p, keys[..n], now)
  }

  function CountPart(p: Projection, keys: seq<Key>, n: nat, now: Micros): nat
    requires n <= |keys|
  {
    Sweeps.FallbackCount(p, keys[..n], now)
  }

  lemma FallbackStart(p: Projection, keys: seq<Key>, now: Micros)
    ensures FallbackPart(p, keys, 0, now) == p && CountPart(p, keys, 0, now) == 0
  {
  }

  lemma FallbackNext(p: Projection, keys: seq<Key>, i: nat, now: Micros)
    requires i < |keys| && Distinct(keys) && AllDue(p.rows, keys, now)
    ensures var q := FallbackPart(p, keys, i, now);
            && Lookup(q.rows, keys[i]) == Some(p.rows[keys[i]])
            && Due(p.rows[keys[i]], now)
            && var w := Sweeps.ExpiryWrite(keys[i], p.rows[keys[i]]);
               && FallbackPart(p, keys, i + 1, now) == Upsert(q, w, now)
               && CountPart(p, keys, i + 1, now) == CountPart(p, keys, i, now) + if UpsertChanges(q, w) then 1 else 0
  {
    assert keys[..i + 1] == keys[..i] + [keys[i]];
    FallbackSnoc(p, keys[..i], keys[i], now);
    FallbackFrame(p, keys[..i], now, keys[i]);
  }

  /** The fallback's write for one listed row, which the application's clock must find expired too. */
  method ExpireByUpsert(db: Client, k: Key, listed: Row, now: Micros) returns (counted: bool, ok: bool)
    requires listed.expiresAt.Some?
    modifies db
    ensures ok && Due(listed, now) ==>
      && counted == UpsertChanges(old(db.View()).projection, Sweeps.ExpiryWrite(k, listed))
      && db.View() == old(db.View()).(projection :=
           Upsert(old(db.View()).projection, Sweeps.ExpiryWrite(k, listed), now))
    ensures !Due(listed, now) ==> ok && !counted && db.View() == old(db.View()) && db.patience == old(db.patience)
    ensures !ok ==> db.View() == old(db.View()) && db.patience == 0
    ensures old(db.patience) >= 5 ==> ok && db.patience >= old(db.patience) - 5
  {
    if !IsActive(listed, now) && listed.active && listed.expiresAt.Some? {
      var expiredAt := UnixMilli(listed.expiresAt.value);
      var r := db.UpsertEntitlement(Write(k, false, None, EXPIRED, expiredAt, None), now);
      return r.Ok? && r.value, r.Ok?;
    }
    return false, true;
  }

  /** The service's fallback when the repository has no sweep of its own: one guarded upsert per listed
      row, each in its own transaction; a failure keeps what was done before it. */
  method ReconcileByUpserts(db: Client, batchSize: int, now: Micros)
    returns (processed: nat, ok: bool, ghost keys: seq<Key>, ghost done: nat)
    modifies db
    ensures FirstInOrder(DueKeys(old(db.rows), now), ExpiryRank(old(db.rows)),
                         if batchSize <= 0 then 1_000 else batchSize, keys) || (!ok && keys == [])
    ensures LongestExpired(old(db.rows), now, if batchSize <= 0 then 1_000 else batchSize, keys)
            || (!ok && keys == [])
    ensures done <= |keys| && (if ok then done == |keys| else db.patience == 0)
    ensures var limit := if batchSize <= 0 then 1_000 else batchSize;
            1 + 5 * Least(limit, |DueKeys(old(db.rows), now)|) <= old(db.patience) ==> ok
    ensures db.View() == old(db.View()).(projection :=
              FallbackPart(old(db.View()).projection, keys, done, now))
    ensures processed == CountPart(old(db.View()).projection, keys, done, now)
  {
    var limit := if batchSize <= 0 then EXPIRATION_BATCH else batchSize;
    processed, ok, keys, done := 0, false, [], 0;
    FallbackStart(db.View().projection, [], now);
    var listed := db.GetExpiredEntitlementsForReconciliation(limit, now);
    if listed.Err? {
      return;
    }
    var selected := listed.value;
    keys := selected;
    ghost var before := db.View();
    ghost var start := before.projection;
    var snapshot := db.rows;
    FallbackStart(start, selected, now);
    hide FallbackPart, CountPart, Sweeps.ExpiryWrite, Upsert, UpsertChanges;
    hide FirstInOrder, LongestExpired, Distinct, AllDue, DueKeys, ExpiryRank, Due;
    for i := 0 to |selected|
      invariant done == i && keys == selected && !ok
      invariant Projection(db.rows, db.audit) == FallbackPart(start, selected, i, now)
      invariant db.View() == before.(projection := Projection(db.rows, db.audit))
      invariant processed == CountPart(start, selected, i, now)
      invariant db.patience >= old(db.patience) - 1 - 5 * i
    {
      var k := selected[i];
      FallbackNext(start, selected, i, now);
      var counted, written := ExpireByUpsert(db, k, snapshot[k], now);
      if !written {
        return;
      }
      if counted {
        processed := processed + 1;
      }
      done := i + 1;
    }
    ok := true;
  }
}
