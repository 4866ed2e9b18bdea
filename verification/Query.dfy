/** The answer to "is this user premium now, and why". */
module Query {
  import opened Calendar
  import opened Domain
  import opened Tables
  import opened Runs
  import StoreLog
  import Sweeps

  datatype Entitlement = Entitlement(source: Source, row: Row)

  /** `source` is None for the answer NONE. */
  datatype Answer = Answer(
    active: bool,
    source: Option<Source>,
    expiresAt: Option<Micros>,
    lastChangedAt: Option<Micros>,
    reason: Option<Reason>)

  const NO_ROWS := Answer(false, None, None, None, None)

  function Granted(e: Entitlement): Answer {
    Answer(e.row.active, Some(e.source), e.row.expiresAt, Some(e.row.updatedAt), e.row.reason)
  }

  function NotGranted(e: Entitlement): Answer {
    Answer(false, None, None, Some(e.row.updatedAt), None)
  }

  /** A row gives access at an instant: it is active, and either never expires or expires later. */
  predicate GivesAccess(r: Row, at: Micros) {
    r.active && match r.expiresAt
                case None => true
                case Some(expiry) => at < expiry
  }

  /** The answer is this row's, which gives access; the store's comes before the carrier's, and the carrier's
      before the marketplace's. */
  predicate AnsweredBy(es: seq<Entitlement>, at: Micros, a: Answer, i: nat)
    requires i < |es|
  {
    var Entitlement(source, r) := es[i];
    && GivesAccess(r, at)
    && a == Answer(true, Some(source), r.expiresAt, Some(r.updatedAt), r.reason)
    && forall j :: 0 <= j < |es| && GivesAccess(es[j].row, at) ==>
         && (es[j].source == STORE ==> source == STORE)
         && (es[j].source == CARRIER ==> source != MARKETPLACE)
  }

  predicate LastChange(es: seq<Entitlement>, t: Option<Micros>, i: nat)
    requires i < |es|
  {
    t == Some(es[i].row.updatedAt) && forall j :: 0 <= j < |es| ==> es[j].row.updatedAt <= es[i].row.updatedAt
  }

  /** The first active entitlement of highest priority. */
  ghost predicate Best(es: seq<Entitlement>, at: Micros, i: nat) {
    && i < |es|
    && IsActive(es[i].row, at)
    && (forall j :: 0 <= j < |es| && IsActive(es[j].row, at) ==> Priority(es[j].source) <= Priority(es[i].source))
    && (forall j :: 0 <= j < i && IsActive(es[j].row, at) ==> Priority(es[j].source) < Priority(es[i].source))
  }

  /** The first of the most recently updated entitlements. */
  ghost predicate MostRecent(es: seq<Entitlement>, i: nat) {
    && i < |es|
    && (forall j :: 0 <= j < |es| ==> es[j].row.updatedAt <= es[i].row.updatedAt)
    && (forall j :: 0 <= j < i ==> es[j].row.updatedAt < es[i].row.updatedAt)
  }

  ghost predicate NoneActive(es: seq<Entitlement>, at: Micros) {
    forall i :: 0 <= i < |es| ==> !IsActive(es[i].row, at)
  }

  /** The best active entitlement if there is one, else NONE with the latest change for reference. */
  ghost predicate Canonical(es: seq<Entitlement>, at: Micros, a: Answer) {
    if es == [] then a == NO_ROWS
    else if NoneActive(es, at) then exists i: nat :: MostRecent(es, i) && a == NotGranted(es[i])
    else exists i: nat :: Best(es, at, i) && a == Granted(es[i])
  }

  method GetCanonicalEntitlement(es: seq<Entitlement>, now: Micros) returns (a: Answer)
    ensures Canonical(es, now, a)
    ensures a.active <==> exists i :: 0 <= i < |es| && GivesAccess(es[i].row, now)
    ensures a.active ==> exists i :: 0 <= i < |es| && AnsweredBy(es, now, a, i)
    ensures !a.active ==>
      && a.source.None? && a.expiresAt.None? && a.reason.None?
      && (if es == [] then a.lastChangedAt.None? else exists i :: 0 <= i < |es| && LastChange(es, a.lastChangedAt, i))
  {
    if |es| == 0 {
      return NO_ROWS;
    }
    var best, bestPriority := -1, 0;
    for i := 0 to |es|
      invariant best == -1 ==> bestPriority == 0 && forall j :: 0 <= j < i ==> !IsActive(es[j].row, now)
      invariant best != -1 ==>
        && 0 <= best < i && IsActive(es[best].row, now) && bestPriority == Priority(es[best].source)
        && (forall j :: 0 <= j < i && IsActive(es[j].row, now) ==> Priority(es[j].source) <= bestPriority)
        && (forall j :: 0 <= j < best && IsActive(es[j].row, now) ==> Priority(es[j].source) < bestPriority)
      invariant -1 <= best
    {
      var priority := Priority(es[i].source);
      if IsActive(es[i].row, now) && priority > bestPriority {
        best, bestPriority := i, priority;
      }
    }
    if best != -1 {
      assert Best(es, now, best);
      assert AnsweredBy(es, now, Granted(es[best]), best);
      return Granted(es[best]);
    }
    var mostRecent := 0;
    for i := 1 to |es|
      invariant 0 <= mostRecent < i
      invariant forall j :: 0 <= j < i ==> es[j].row.updatedAt <= es[mostRecent].row.updatedAt
      invariant forall j :: 0 <= j < mostRecent ==> es[j].row.updatedAt < es[mostRecent].row.updatedAt
    {
      if es[i].row.updatedAt > es[mostRecent].row.updatedAt {
        mostRecent := i;
      }
    }
    assert MostRecent(es, mostRecent);
    assert LastChange(es, NotGranted(es[mostRecent]).lastChangedAt, mostRecent);
    return NotGranted(es[mostRecent]);
  }

  /** There is only one answer. */
  lemma CanonicalIsUnique(es: seq<Entitlement>, at: Micros, a: Answer, b: Answer)
    requires Canonical(es, at, a) && Canonical(es, at, b)
    ensures a == b
  {
    if es != [] && NoneActive(es, at) {
      var i: nat :| MostRecent(es, i) && a == NotGranted(es[i]);
      var j: nat :| MostRecent(es, j) && b == NotGranted(es[j]);
      assert i == j;
    } else if es != [] {
      var i: nat :| Best(es, at, i) && a == Granted(es[i]);
      var j: nat :| Best(es, at, j) && b == Granted(es[j]);
      assert i == j;
    }
  }

  // ----- Reading the table -----

  function RowOf(rows: map<Key, Row>, u: UserId, s: Source): seq<Entitlement> {
    if Key(u, s) in rows then [Entitlement(s, rows[Key(u, s)])] else []
  }

  /** A user's rows, ordered by the name of the source. */
  function UserRows(rows: map<Key, Row>, u: UserId): seq<Entitlement> {
    RowOf(rows, u, CARRIER) + RowOf(rows, u, MARKETPLACE) + RowOf(rows, u, STORE)
  }

  lemma UserRowsAreRows(rows: map<Key, Row>, u: UserId)
    ensures forall i :: 0 <= i < |UserRows(rows, u)| ==>
              var e := UserRows(rows, u)[i];
              Key(u, e.source) in rows && rows[Key(u, e.source)] == e.row
    ensures forall s :: Key(u, s) in rows ==> Entitlement(s, rows[Key(u, s)]) in UserRows(rows, u)
  {
    forall s | Key(u, s) in rows
      ensures Entitlement(s, rows[Key(u, s)]) in UserRows(rows, u)
    {
      var e := Entitlement(s, rows[Key(u, s)]);
      assert RowOf(rows, u, s) == [e];
      match s {
        case CARRIER => assert e in RowOf(rows, u, CARRIER);
        case MARKETPLACE => assert e in RowOf(rows, u, MARKETPLACE);
        case STORE => assert e in RowOf(rows, u, STORE);
      }
    }
  }

  predicate ActiveIn(rows: map<Key, Row>, u: UserId, s: Source, at: Micros) {
    Key(u, s) in rows && GivesAccess(rows[Key(u, s)], at)
  }

  /** An expired source never hides a valid one: the answer is active exactly when some row grants at
      that instant, and then it is the store's if that grants, else the carrier's, else the
      marketplace's, with that row's expiry and reason. */
  lemma AnswerFollowsRows(rows: map<Key, Row>, u: UserId, at: Micros, a: Answer)
    requires Canonical(UserRows(rows, u), at, a)
    ensures a.active <==> exists s :: ActiveIn(rows, u, s, at)
    ensures a.active ==>
              && a.source == Some(if ActiveIn(rows, u, STORE, at) then STORE
                                  else if ActiveIn(rows, u, CARRIER, at) then CARRIER else MARKETPLACE)
              && ActiveIn(rows, u, a.source.value, at)
              && a.expiresAt == rows[Key(u, a.source.value)].expiresAt
              && a.reason == rows[Key(u, a.source.value)].reason
              && a.lastChangedAt == Some(rows[Key(u, a.source.value)].updatedAt)
  {
    var es := UserRows(rows, u);
    UserRowsAreRows(rows, u);
    hide UserRows;
    forall s | ActiveIn(rows, u, s, at)
      ensures exists i :: 0 <= i < |es| && es[i].source == s && IsActive(es[i].row, at)
    {
      var i :| 0 <= i < |es| && es[i] == Entitlement(s, rows[Key(u, s)]);
    }
    if es != [] && !NoneActive(es, at) {
      var i: nat :| Best(es, at, i) && a == Granted(es[i]);
      assert ActiveIn(rows, u, es[i].source, at);
    }
  }

  /** A user with an active row that never expires is premium at every instant. */
  lemma NoExpiryMeansAlways(rows: map<Key, Row>, u: UserId, s: Source, at: Micros, a: Answer)
    requires Key(u, s) in rows && rows[Key(u, s)].active && rows[Key(u, s)].expiresAt.None?
    requires Canonical(UserRows(rows, u), at, a)
    ensures a.active
  {
    AnswerFollowsRows(rows, u, at, a);
    assert ActiveIn(rows, u, s, at);
  }

  // ----- Sweeps and readers -----

  /** What a sweep does to a list of rows: some that were due are expired, the rest stay. */
  ghost predicate SweptList(es: seq<Entitlement>, fs: seq<Entitlement>, now: Micros) {
    && |es| == |fs|
    && forall i :: 0 <= i < |es| ==>
         es[i] == fs[i] || (Due(es[i].row, now) && fs[i].source == es[i].source && !fs[i].row.active)
  }

  ghost predicate SameForReader(a: Answer, b: Answer) {
    && a.active == b.active && a.source == b.source && a.expiresAt == b.expiresAt && a.reason == b.reason
    && (a.source.Some? ==> a.lastChangedAt == b.lastChangedAt)
  }

  lemma SweptListSameAnswer(es: seq<Entitlement>, fs: seq<Entitlement>, now: Micros, at: Micros, a: Answer, b: Answer)
    requires SweptList(es, fs, now) && now <= at
    requires Canonical(es, at, a) && Canonical(fs, at, b)
    ensures SameForReader(a, b)
  {
    assert forall i :: 0 <= i < |es| ==> (IsActive(es[i].row, at) <==> IsActive(fs[i].row, at));
    if !NoneActive(es, at) {
      var i: nat :| Best(es, at, i) && a == Granted(es[i]);
      assert Best(fs, at, i) && fs[i] == es[i];
      CanonicalIsUnique(fs, at, Granted(fs[i]), b);
    }
  }

  /** A sweep of any batch cannot be seen by anyone who asks later: the answer keeps its active flag,
      source, expiry and reason, and its time of change too unless the answer is NONE. */
  lemma SweepIsInvisible(p: Projection, keys: seq<Key>, now: Micros, u: UserId, at: Micros, a: Answer, b: Answer)
    requires Distinct(keys) && AllDue(p.rows, keys, now) && now <= at
    requires Canonical(UserRows(p.rows, u), at, a)
    requires Canonical(UserRows(SweepBatch(p, keys, now).rows, u), at, b)
    ensures SameForReader(a, b)
  {
    var rows, after := p.rows, SweepBatch(p, keys, now).rows;
    forall s
      ensures SweptList(RowOf(rows, u, s), RowOf(after, u, s), now)
    {
      Sweeps.SweepRows(p, keys, now, Key(u, s));
      assert Lookup(after, Key(u, s)).Some? <==> Key(u, s) in after;
    }
    assert SweptList(UserRows(rows, u), UserRows(after, u), now) by {
      SweptConcat(RowOf(rows, u, CARRIER), RowOf(after, u, CARRIER),
                  RowOf(rows, u, MARKETPLACE), RowOf(after, u, MARKETPLACE), now);
      SweptConcat(RowOf(rows, u, CARRIER) + RowOf(rows, u, MARKETPLACE),
                  RowOf(after, u, CARRIER) + RowOf(after, u, MARKETPLACE),
                  RowOf(rows, u, STORE), RowOf(after, u, STORE), now);
    }
    SweptListSameAnswer(UserRows(rows, u), UserRows(after, u), now, at, a, b);
  }

  lemma SweptConcat(a: seq<Entitlement>, b: seq<Entitlement>, c: seq<Entitlement>, d: seq<Entitlement>, now: Micros)
    requires SweptList(a, b, now) && SweptList(c, d, now)
    ensures SweptList(a + c, b + d, now)
  {
  }

  /** In every reachable state, an answer "premium through the store" names a recorded grant that is
      the user's latest event and still runs, with its expiry and type. */
  lemma StoreAnswerHasGrant(w: World, steps: seq<Step>, u: UserId, at: Micros, a: Answer)
    requires Initial(w) && ValidRun(w, steps)
    requires Canonical(UserRows(Run(w, steps).db.projection.rows, u), at, a) && a.source == Some(STORE)
    ensures exists i: nat :: StoreLog.GrantBehind(Run(w, steps).db, u, i, at)
              && a.active
              && a.expiresAt == Some(GrantExpiry(Run(w, steps).db.events[i].timeMs))
              && a.reason == Some(ByEvent(Run(w, steps).db.events[i].kind))
  {
    var db := Run(w, steps).db;
    SourceMeansActive(UserRows(db.projection.rows, u), at, a);
    AnswerFollowsRows(db.projection.rows, u, at, a);
    StoreLog.PremiumAnswersAreSound(w, steps, u, at);
    var i: nat :| StoreLog.GrantBehind(db, u, i, at);
  }

  lemma SourceMeansActive(es: seq<Entitlement>, at: Micros, a: Answer)
    requires Canonical(es, at, a)
    ensures a.active <==> a.source.Some?
  {
  }
}
