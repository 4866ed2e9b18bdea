/** Queries with ORDER BY and LIMIT: what they may return, and what that means for the rows. */
module Selections {
  import opened Calendar
  import opened Domain
  import opened Tables
  import opened Runs

  // ----- ORDER BY ... LIMIT -----

  /** NULLS FIRST. */
  predicate NotAfter(a: Option<int>, b: Option<int>) {
    a.None? || (b.Some? && a.value <= b.value)
  }

  function Least(a: nat, b: nat): nat {
    if a < b then a else b
  }

  /** `s` is what a query with this order and limit may return; ties come in any order. */
  ghost predicate FirstInOrder<T(!new)>(candidates: set<T>, rank: T -> Option<int>, limit: nat, s: seq<T>) {
    && Distinct(s)
    && (forall x :: x in s ==> x in candidates)
    && |s| == Least(limit, |candidates|)
    && (forall i, j :: 0 <= i < j < |s| ==> NotAfter(rank(s[i]), rank(s[j])))
    && (forall i, x :: 0 <= i < |s| && x in candidates && x !in s ==> NotAfter(rank(s[i]), rank(x)))
  }

  method FirstOf<T(!new, ==)>(candidates: set<T>, rank: T -> Option<int>) returns (least: T)
    requires candidates != {}
    ensures least in candidates && forall x :: x in candidates ==> NotAfter(rank(least), rank(x))
  {
    least :| least in candidates;
    var others := candidates - {least};
    while others != {}
      invariant others <= candidates && least in candidates
      invariant forall x :: x in candidates - others ==> NotAfter(rank(least), rank(x))
      decreases others
    {
      var x :| x in others;
      if !NotAfter(rank(least), rank(x)) {
        least := x;
      }
      others := others - {x};
    }
  }

  method SelectInOrder<T(!new, ==)>(candidates: set<T>, rank: T -> Option<int>, limit: nat) returns (s: seq<T>)
    ensures FirstInOrder(candidates, rank, limit, s)
  {
    s := [];
    var rest := candidates;
    while |s| < limit && rest != {}
      invariant Distinct(s) && rest <= candidates && |s| + |rest| == |candidates| && |s| <= limit
      invariant forall x :: x in candidates ==> (x in s <==> x !in rest)
      invariant forall x :: x in s ==> x in candidates
      invariant forall i, j :: 0 <= i < j < |s| ==> NotAfter(rank(s[i]), rank(s[j]))
      invariant forall i, x :: 0 <= i < |s| && x in rest ==> NotAfter(rank(s[i]), rank(x))
      decreases rest
    {
      var x := FirstOf(rest, rank);
      s := s + [x];
      rest := rest - {x};
    }
  }

  function ExpiryRank(rows: map<Key, Row>): Key -> Option<int> {
    k => if k in rows then rows[k].expiresAt else None
  }

  function DueUsers(rows: map<Key, Row>, dueBefore: Micros): set<UserId> {
    set k | k in rows && k.source == CARRIER && CarrierDue(rows[k], dueBefore) :: k.user
  }

  function PollRank(rows: map<Key, Row>): UserId -> Option<int> {
    u => if Key(u, CARRIER) in rows then rows[Key(u, CARRIER)].carrierPolledAt else None
  }

  function DueIds(ns: seq<Notification>, now: Micros): set<nat> {
    set i: nat | i < |ns| && NotificationDue(ns[i], now)
  }

  function ScheduleRank(ns: seq<Notification>): nat -> Option<int> {
    (i: nat) => if i < |ns| then Some(ns[i].scheduledFor) else None
  }

  lemma SelectedAreDue(rows: map<Key, Row>, keys: seq<Key>, now: Micros)
    requires forall k :: k in keys ==> k in DueKeys(rows, now)
    ensures AllDue(rows, keys, now)
  {
    forall i | 0 <= i < |keys|
      ensures keys[i] in DueKeys(rows, now)
    {
    }
  }

  // ----- What the selections mean for the rows -----

  /** A batch of rows whose time has run out, the longest expired first; none is left out for one that
      expired later, and none at all unless the batch is full. */
  ghost predicate LongestExpired(rows: map<Key, Row>, now: Micros, limit: nat, keys: seq<Key>) {
    && Distinct(keys) && |keys| <= limit
    && (forall i :: 0 <= i < |keys| ==>
          && keys[i] in rows && rows[keys[i]].active
          && rows[keys[i]].expiresAt.Some? && rows[keys[i]].expiresAt.value <= now)
    && (forall i, j :: 0 <= i < j < |keys| ==> rows[keys[i]].expiresAt.value <= rows[keys[j]].expiresAt.value)
    && (forall k | k in rows && rows[k].active && rows[k].expiresAt.Some? && rows[k].expiresAt.value <= now
          && k !in keys ::
          && |keys| == limit
          && forall i :: 0 <= i < |keys| ==> rows[keys[i]].expiresAt.value <= rows[k].expiresAt.value)
  }

  /** A batch of users with active carrier rows last polled by `dueBefore` or never, those never polled
      first and then the longest ago; none is left out for one polled later, and none at all unless the
      batch is full. */
  ghost predicate LongestUnpolled(rows: map<Key, Row>, dueBefore: Micros, limit: nat, users: seq<UserId>) {
    && Distinct(users) && |users| <= limit
    && (forall i :: 0 <= i < |users| ==>
          && Key(users[i], CARRIER) in rows
          && var r := rows[Key(users[i], CARRIER)];
             r.active && (r.carrierPolledAt.None? || r.carrierPolledAt.value <= dueBefore))
    && (forall i, j :: 0 <= i < j < |users| ==>
          PolledNoLater(rows[Key(users[i], CARRIER)], rows[Key(users[j], CARRIER)]))
    && (forall u | Key(u, CARRIER) in rows && rows[Key(u, CARRIER)].active && u !in users
          && (rows[Key(u, CARRIER)].carrierPolledAt.None?
              || rows[Key(u, CARRIER)].carrierPolledAt.value <= dueBefore) ::
          && |users| == limit
          && forall i :: 0 <= i < |users| ==> PolledNoLater(rows[Key(users[i], CARRIER)], rows[Key(u, CARRIER)]))
  }

  predicate PolledNoLater(a: Row, b: Row) {
    a.carrierPolledAt.None? || (b.carrierPolledAt.Some? && a.carrierPolledAt.value <= b.carrierPolledAt.value)
  }

  /** A batch of unsent notifications whose time has come, the earliest first; none is left out for a later
      one, and none at all unless the batch is full. */
  ghost predicate EarliestUnsent(ns: seq<Notification>, now: Micros, limit: nat, ids: seq<nat>) {
    && Distinct(ids) && |ids| <= limit
    && (forall i :: 0 <= i < |ids| ==>
          ids[i] < |ns| && ns[ids[i]].sentAt.None? && ns[ids[i]].scheduledFor <= now)
    && (forall i, j :: 0 <= i < j < |ids| ==> ns[ids[i]].scheduledFor <= ns[ids[j]].scheduledFor)
    && (forall id: nat :: id < |ns| && id !in ids && ns[id].sentAt.None? && ns[id].scheduledFor <= now ==>
          && |ids| == limit
          && forall i :: 0 <= i < |ids| ==> ns[ids[i]].scheduledFor <= ns[id].scheduledFor)
  }

  lemma InOrderIsFull<T(!new)>(candidates: set<T>, rank: T -> Option<int>, limit: nat, s: seq<T>, x: T)
    requires FirstInOrder(candidates, rank, limit, s) && x in candidates && x !in s
    ensures |s| == limit
    ensures forall i :: 0 <= i < |s| ==> NotAfter(rank(s[i]), rank(x))
  {
    if |s| < limit {
      InOrderIsAll(candidates, rank, limit, s);
    }
  }

  lemma InOrderIsAll<T(!new)>(candidates: set<T>, rank: T -> Option<int>, limit: nat, s: seq<T>)
    requires FirstInOrder(candidates, rank, limit, s) && |s| < limit
    ensures Elements(s) == candidates
  {
    DistinctSize(s);
    var left := candidates - Elements(s);
    assert candidates == Elements(s) + left;
  }

  lemma {:induction false} DistinctSize<T>(s: seq<T>)
    requires Distinct(s)
    ensures |Elements(s)| == |s|
  {
    if s != [] {
      DistinctSize(Earlier(s));
      assert Elements(s) == Elements(Earlier(s)) + {Last(s)};
      assert Last(s) !in Elements(Earlier(s));
    }
  }

  lemma SelectedExpired(rows: map<Key, Row>, now: Micros, limit: nat, keys: seq<Key>)
    requires FirstInOrder(DueKeys(rows, now), ExpiryRank(rows), limit, keys)
    ensures LongestExpired(rows, now, limit, keys)
  {
    var rank := ExpiryRank(rows);
    forall i | 0 <= i < |keys|
      ensures keys[i] in DueKeys(rows, now) && rank(keys[i]) == rows[keys[i]].expiresAt
    {
    }
    forall k | k in DueKeys(rows, now) && k !in keys
      ensures |keys| == limit
      ensures forall i :: 0 <= i < |keys| ==> rows[keys[i]].expiresAt.value <= rows[k].expiresAt.value
    {
      InOrderIsFull(DueKeys(rows, now), rank, limit, keys, k);
      assert rank(k) == rows[k].expiresAt;
    }
    forall i, j | 0 <= i < j < |keys|
      ensures rows[keys[i]].expiresAt.value <= rows[keys[j]].expiresAt.value
    {
      assert NotAfter(rank(keys[i]), rank(keys[j]));
    }
    assert forall k :: k in rows && rows[k].active && rows[k].expiresAt.Some? && rows[k].expiresAt.value <= now
                  ==> k in DueKeys(rows, now);
  }

  lemma DueUser(rows: map<Key, Row>, u: UserId, dueBefore: Micros)
    ensures u in DueUsers(rows, dueBefore) <==> Key(u, CARRIER) in rows && CarrierDue(rows[Key(u, CARRIER)], dueBefore)
  {
    if Key(u, CARRIER) in rows && CarrierDue(rows[Key(u, CARRIER)], dueBefore) {
      assert Key(u, CARRIER).user == u;
    }
  }

  lemma SelectedUnpolled(rows: map<Key, Row>, dueBefore: Micros, limit: nat, users: seq<UserId>)
    requires FirstInOrder(DueUsers(rows, dueBefore), PollRank(rows), limit, users)
    ensures LongestUnpolled(rows, dueBefore, limit, users)
  {
    var rank := PollRank(rows);
    forall i | 0 <= i < |users|
      ensures users[i] in DueUsers(rows, dueBefore) && Key(users[i], CARRIER) in rows
      ensures CarrierDue(rows[Key(users[i], CARRIER)], dueBefore)
      ensures rank(users[i]) == rows[Key(users[i], CARRIER)].carrierPolledAt
    {
      DueUser(rows, users[i], dueBefore);
    }
    forall i, j | 0 <= i < j < |users|
      ensures PolledNoLater(rows[Key(users[i], CARRIER)], rows[Key(users[j], CARRIER)])
    {
      assert NotAfter(rank(users[i]), rank(users[j]));
    }
    forall u | Key(u, CARRIER) in rows && u !in users && rows[Key(u, CARRIER)].active
      && (rows[Key(u, CARRIER)].carrierPolledAt.None? || rows[Key(u, CARRIER)].carrierPolledAt.value <= dueBefore)
      ensures |users| == limit
      ensures forall i :: 0 <= i < |users| ==> PolledNoLater(rows[Key(users[i], CARRIER)], rows[Key(u, CARRIER)])
    {
      DueUser(rows, u, dueBefore);
      InOrderIsFull(DueUsers(rows, dueBefore), rank, limit, users, u);
      assert rank(u) == rows[Key(u, CARRIER)].carrierPolledAt;
    }
  }

  lemma SelectedUnsent(ns: seq<Notification>, now: Micros, limit: nat, ids: seq<nat>)
    requires FirstInOrder(DueIds(ns, now), ScheduleRank(ns), limit, ids)
    ensures EarliestUnsent(ns, now, limit, ids)
  {
    var rank := ScheduleRank(ns);
    forall i | 0 <= i < |ids|
      ensures ids[i] in DueIds(ns, now) && rank(ids[i]) == Some(ns[ids[i]].scheduledFor)
    {
    }
    forall id: nat | id in DueIds(ns, now) && id !in ids
      ensures |ids| == limit
      ensures forall i :: 0 <= i < |ids| ==> ns[ids[i]].scheduledFor <= ns[id].scheduledFor
    {
      InOrderIsFull(DueIds(ns, now), rank, limit, ids, id);
      assert rank(id) == Some(ns[id].scheduledFor);
    }
    forall i, j | 0 <= i < j < |ids|
      ensures ns[ids[i]].scheduledFor <= ns[ids[j]].scheduledFor
    {
      assert NotAfter(rank(ids[i]), rank(ids[j]));
    }
    assert forall id: nat :: id < |ns| && ns[id].sentAt.None? && ns[id].scheduledFor <= now ==> id in DueIds(ns, now);
  }

  // ----- Selections as steps of a run -----

  /** Whatever batch a sweep or a claim selects is one that a run may take. */
  lemma BatchesAreSteps(db: Db, now: Micros, readAt: Micros, limit: nat, keys: seq<Key>, users: seq<UserId>,
                        ids: seq<nat>)
    requires readAt <= now
    requires LongestExpired(db.projection.rows, now, limit, keys)
    requires LongestUnpolled(db.projection.rows, readAt - STALENESS, limit, users)
    requires EarliestUnsent(db.notifications, now, limit, ids)
    ensures Enabled(World(db, now), Sweep(keys))
    ensures Enabled(World(db, now), ClaimCarrierRows(Elements(users), readAt))
    ensures Enabled(World(db, now), ClaimDue(Elements(ids)))
  {
  }
}
