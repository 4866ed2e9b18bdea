/** What holds in every interleaving of statements, and the one window in which the audit log lies. */
module Interleavings {
  import opened Calendar
  import opened Domain
  import opened Tables
  import opened Runs
  import opened Protocol
  import Sweeps
  import AuditChain

  // ----- Serial order -----

  /** The committed transactions run one at a time. */
  function Serial(p: Projection, ops: seq<Op>): Projection {
    if ops == [] then p else Alone(Serial(p, Earlier(ops)), Last(ops))
  }

  lemma {:induction false} SweepRowsOnly(p: Projection, q: Projection, keys: seq<Key>, now: Micros)
    requires p.rows == q.rows
    ensures SweepBatch(p, keys, now).rows == SweepBatch(q, keys, now).rows
    decreases |keys|
  {
    if keys != [] {
      SweepRowsOnly(ExpireOne(p, keys[0], now), ExpireOne(q, keys[0], now), keys[1..], now);
    }
  }

  lemma AloneRowsOnly(p: Projection, q: Projection, op: Op)
    requires p.rows == q.rows
    ensures Alone(p, op).rows == Alone(q, op).rows
  {
    if op.Sweeps? {
      SweepRowsOnly(p, q, op.keys, op.at);
    }
  }

  lemma SerialAppend(p: Projection, ops: seq<Op>, op: Op)
    ensures Serial(p, ops + [op]) == Alone(Serial(p, ops), op)
  {
    assert Earlier(ops + [op]) == ops;
  }

  /** In every interleaving of writers, sweeps, claims and rollbacks, the committed rows are those of
      running the committed transactions one at a time in commit order. */
  lemma {:induction false} RowsAreSerial(s: State, moves: seq<Move>)
    requires Quiet(s) && Possible(s, moves)
    ensures var v := Execute(s, moves); v.projection.rows == Serial(s.projection, v.done).rows
  {
    if moves != [] {
      var v, m := Execute(s, Earlier(moves)), Last(moves);
      RowsAreSerial(s, Earlier(moves));
      SoundThroughout(s, Earlier(moves));
      if m.Commit? {
        EffectIsAlone(v, m.t);
        SerialAppend(s.projection, v.done, OpOf(v.txs[m.t]));
        AloneRowsOnly(v.projection, Serial(s.projection, v.done), OpOf(v.txs[m.t]));
      }
    }
  }

  ghost predicate NoStaleCommit(s: State, moves: seq<Move>) {
    moves != [] ==>
      && NoStaleCommit(s, Earlier(moves))
      && var v, m := Execute(s, Earlier(moves)), Last(moves);
         m.Commit? && m.t in v.txs ==> !Stale(v.txs[m.t])
  }

  /** Unless some commit is stale, the audit log is the serial one too. */
  lemma {:induction false} SerializableUnlessStale(s: State, moves: seq<Move>)
    requires Quiet(s) && Possible(s, moves) && NoStaleCommit(s, moves)
    ensures var v := Execute(s, moves); v.projection == Serial(s.projection, v.done)
  {
    if moves != [] {
      var v, m := Execute(s, Earlier(moves)), Last(moves);
      SerializableUnlessStale(s, Earlier(moves));
      SoundThroughout(s, Earlier(moves));
      if m.Commit? {
        EffectIsAlone(v, m.t);
        SerialAppend(s.projection, v.done, OpOf(v.txs[m.t]));
      }
    }
  }

  ghost predicate NoSweepers(s: State) {
    forall t :: t in s.txs && s.txs[t].Picker? ==> s.txs[t].task.Claiming?
  }

  /** What a writer read is still the committed state. */
  ghost predicate ReadsCurrent(s: State) {
    forall t :: t in s.txs && s.txs[t].Writer? && (s.txs[t].phase.Seen? || s.txs[t].phase.Written?) ==>
      var previous, current := s.txs[t].phase.previous, Lookup(s.projection.rows, s.txs[t].write.key);
      if previous.None? then current.None? else current.Some? && SameState(previous.value, current.value)
  }

  ghost predicate WithoutSweepers(moves: seq<Move>) {
    forall m :: m in moves && m.Begin? && m.tx.Picker? ==> m.tx.task.Claiming?
  }

  /** A commit that is no sweep shows the writers of other users nothing new, and no other writer of its
      own user has read yet. */
  lemma CommitKeepsReads(s: State, t: TxId, o: TxId)
    requires Sound(s) && CanMove(s, Commit(t)) && o in s.txs && o != t
    requires s.txs[t].Picker? ==> s.txs[t].task.Claiming?
    requires s.txs[o].Writer? && (s.txs[o].phase.Seen? || s.txs[o].phase.Written?)
    ensures var k := s.txs[o].write.key;
            var current, next := Lookup(s.projection.rows, k), Lookup(Effect(s.projection, s.txs[t]).rows, k);
            if current.None? then next.None? else next.Some? && SameState(current.value, next.value)
  {
    var tx := s.txs[t];
    assert Holds(s.txs[o], UserLock(s.txs[o].write.key.user));
    assert tx.Writer? ==> Holds(tx, UserLock(tx.write.key.user));
  }

  lemma MoveKeepsReads(s: State, m: Move)
    requires Sound(s) && CanMove(s, m) && NoSweepers(s) && ReadsCurrent(s)
    requires m.Begin? && m.tx.Picker? ==> m.tx.task.Claiming?
    ensures NoSweepers(Do(s, m)) && ReadsCurrent(Do(s, m))
  {
    if m.Commit? {
      forall o | o in s.txs && o != m.t && s.txs[o].Writer? && (s.txs[o].phase.Seen? || s.txs[o].phase.Written?) {
        CommitKeepsReads(s, m.t, o);
      }
    }
  }

  /** With writers and claims only, the row a writer read under the user lock is still the committed
      state at each of its later statements, so every interleaving is equivalent, rows and audit log, to
      running the transactions one at a time. */
  lemma {:induction false} WritersAreSerializable(s: State, moves: seq<Move>)
    requires Quiet(s) && Possible(s, moves) && WithoutSweepers(moves)
    ensures var v := Execute(s, moves);
            && NoSweepers(v) && ReadsCurrent(v) && NoStaleCommit(s, moves)
            && v.projection == Serial(s.projection, v.done)
  {
    if moves != [] {
      var v, m := Execute(s, Earlier(moves)), Last(moves);
      WritersAreSerializable(s, Earlier(moves));
      SoundThroughout(s, Earlier(moves));
      MoveKeepsReads(v, m);
      assert m.Commit? ==> InStep(v, v.txs[m.t]);
    }
    SerializableUnlessStale(s, moves);
  }

  // ----- Order of event times -----

  /** A row that shows something else than before has a strictly later event time. */
  ghost predicate ChangesMoveOn(p: Projection, q: Projection) {
    && Sweeps.Onward(p, q)
    && forall k :: k in p.rows && k in q.rows && AuditChain.ShownIn(p.rows, k) != AuditChain.ShownIn(q.rows, k)
         ==> p.rows[k].lastEventTime < q.rows[k].lastEventTime
  }

  lemma {:induction false} SweepMovesOn(p: Projection, keys: seq<Key>, now: Micros)
    requires ExpiryAfterEvent(p.rows)
    ensures ChangesMoveOn(p, SweepBatch(p, keys, now))
    decreases |keys|
  {
    if keys != [] {
      var q := ExpireOne(p, keys[0], now);
      SweepMovesOn(q, keys[1..], now);
      Sweeps.SweepOnward(q, keys[1..], now);
      assert ChangesMoveOn(p, q);
    }
  }

  lemma AloneMovesOn(p: Projection, op: Op)
    requires ExpiryAfterEvent(p.rows)
    ensures ChangesMoveOn(p, Alone(p, op))
  {
    if op.Sweeps? {
      SweepMovesOn(p, op.keys, op.at);
    }
  }

  lemma MoveMovesOn(s: State, m: Move)
    requires Sound(s) && CanMove(s, m)
    ensures ChangesMoveOn(s.projection, Do(s, m).projection)
  {
    if m.Commit? {
      EffectIsAlone(s, m.t);
      AloneMovesOn(s.projection, OpOf(s.txs[m.t]));
    }
  }

  lemma MovingOnIsTransitive(p: Projection, q: Projection, r: Projection)
    requires ChangesMoveOn(p, q) && ChangesMoveOn(q, r)
    ensures ChangesMoveOn(p, r)
  {
  }

  /** In every interleaving, no row's last_event_time ever goes back, and whenever a row's active flag
      or expiry changes it goes forward, between any two points of the execution. */
  lemma {:induction false} EventTimesNeverGoBack(s: State, earlier: seq<Move>, later: seq<Move>)
    requires Quiet(s) && Possible(s, earlier + later)
    ensures ChangesMoveOn(Execute(s, earlier).projection, Execute(s, earlier + later).projection)
    decreases |later|
  {
    if later == [] {
      assert earlier + later == earlier;
    } else {
      var before := earlier + Earlier(later);
      assert Earlier(earlier + later) == before;
      EventTimesNeverGoBack(s, earlier, Earlier(later));
      SoundThroughout(s, before);
      MoveMovesOn(Execute(s, before), Last(later));
      MovingOnIsTransitive(Execute(s, earlier).projection, Execute(s, before).projection,
                           Execute(s, earlier + later).projection);
    }
  }

  /** The commit of a writer changes the tables exactly when its event is newer than the row committed by
      then: one that a sweep or another event has overtaken, before its read, before its upsert or not at
      all seen by it, changes no row and writes no audit row. */
  lemma OvertakenWritesNothing(s: State, t: TxId)
    requires Sound(s) && CanMove(s, Commit(t)) && s.txs[t].Writer?
    ensures var current := Lookup(s.projection.rows, s.txs[t].write.key);
            Do(s, Commit(t)).projection == s.projection
            <==> current.Some? && s.txs[t].write.time <= current.value.lastEventTime
  {
    var tx := s.txs[t];
    assert InStep(s, tx);
    if Newer(tx.write, Lookup(s.projection.rows, tx.write.key)) {
      EffectIsAlone(s, t);
      assert tx.write.key in Do(s, Commit(t)).projection.rows;
    }
  }

  // ----- The audit log -----

  lemma SerialEffectChains(seed: map<Key, Row>, p: Projection, op: Op, k: Key)
    requires AuditChain.Chained(seed, p, k)
    ensures AuditChain.Chained(seed, Alone(p, op), k)
  {
    match op {
      case Upserts(_, w, at) => AuditChain.UpsertChains(seed, p, w, at, k);
      case Sweeps(keys, at) => AuditChain.SweepChains(seed, p, keys, at, k);
      case Claims(_, _) =>
      case Sends(_) =>
    }
  }

  /** A commit keeps the audit chain of its row exactly when no sweep came between the writer's read and
      its upsert. */
  lemma ChainBreaksExactlyWhenStale(s: State, t: TxId, seed: map<Key, Row>)
    requires Sound(s) && CanMove(s, Commit(t)) && s.txs[t].Writer?
    requires AuditChain.Chained(seed, s.projection, s.txs[t].write.key)
    ensures AuditChain.Chained(seed, Do(s, Commit(t)).projection, s.txs[t].write.key) <==> !Stale(s.txs[t])
  {
    var tx, p := s.txs[t], s.projection;
    var k := tx.write.key;
    assert InStep(s, tx);
    EffectIsAlone(s, t);
    if !Stale(tx) {
      SerialEffectChains(seed, p, OpOf(tx), k);
    } else {
      AuditChain.ReplayAppend(AuditChain.ShownIn(seed, k), p.audit, UpsertAudit(tx.write, tx.phase.previous), k);
    }
  }

  /** Stale means just that: the writer read an active row with an expiry, and a sweep expired it before
      the upsert. */
  lemma StaleMeansSwept(s: State, t: TxId)
    requires Sound(s) && t in s.txs && Stale(s.txs[t])
    ensures SweptSince(s.txs[t].phase.previous.value, s.txs[t].phase.before.value)
  {
    assert InStep(s, s.txs[t]);
  }

  /** In every interleaving without a stale commit, the audit log replays to the committed rows. */
  lemma {:induction false} ChainedUnlessStale(s: State, moves: seq<Move>, k: Key)
    requires Quiet(s) && Possible(s, moves) && NoStaleCommit(s, moves) && s.projection.audit == []
    ensures AuditChain.Chained(s.projection.rows, Execute(s, moves).projection, k)
  {
    if moves != [] {
      var v, m := Execute(s, Earlier(moves)), Last(moves);
      ChainedUnlessStale(s, Earlier(moves), k);
      SoundThroughout(s, Earlier(moves));
      if m.Commit? {
        EffectIsAlone(v, m.t);
        SerialEffectChains(s.projection.rows, v.projection, OpOf(v.txs[m.t]), k);
      }
    }
  }

  ghost predicate AllChained(seed: map<Key, Row>, p: Projection) {
    forall k :: AuditChain.Chained(seed, p, k)
  }

  /** After every prefix of the moves, the audit log replays to the rows of every user and source. */
  ghost predicate ChainedThroughout(s: State, moves: seq<Move>) {
    && AllChained(s.projection.rows, Execute(s, moves).projection)
    && (moves != [] ==> ChainedThroughout(s, Earlier(moves)))
  }

  lemma StaleCommitBreaksChain(s: State, t: TxId, seed: map<Key, Row>)
    requires Sound(s) && CanMove(s, Commit(t)) && Stale(s.txs[t]) && AllChained(seed, s.projection)
    ensures !AllChained(seed, Do(s, Commit(t)).projection)
  {
    ChainBreaksExactlyWhenStale(s, t, seed);
  }

  /** An interleaving keeps the audit log true all along if and only if none of its commits is stale. */
  lemma {:induction false} ChainedExactlyUnlessStale(s: State, moves: seq<Move>)
    requires Quiet(s) && Possible(s, moves) && s.projection.audit == []
    ensures ChainedThroughout(s, moves) <==> NoStaleCommit(s, moves)
  {
    forall k | NoStaleCommit(s, moves)
      ensures AuditChain.Chained(s.projection.rows, Execute(s, moves).projection, k)
    {
      ChainedUnlessStale(s, moves, k);
    }
    assert NoStaleCommit(s, moves) ==> AllChained(s.projection.rows, Execute(s, moves).projection);
    hide AllChained, Stale, Do;
    if moves != [] {
      var v, m := Execute(s, Earlier(moves)), Last(moves);
      ChainedExactlyUnlessStale(s, Earlier(moves));
      SoundThroughout(s, Earlier(moves));
      if ChainedThroughout(s, Earlier(moves)) && m.Commit? && Stale(v.txs[m.t]) {
        StaleCommitBreaksChain(v, m.t, s.projection.rows);
      }
    }
  }

  // ----- The window exists -----

  ghost predicate Leads(s: State, moves: seq<Move>, v: State) {
    Possible(s, moves) && Execute(s, moves) == v
  }

  lemma OneMore(s: State, moves: seq<Move>, v: State, m: Move)
    requires Leads(s, moves, v) && CanMove(v, m)
    ensures Leads(s, moves + [m], Do(v, m))
  {
    assert Earlier(moves + [m]) == moves;
  }

  lemma OneStatement(s: State, moves: seq<Move>, tx: Tx)
    requires tx.Writer? && !Duplicate(s, tx.cause) && (tx.phase.Begun? || tx.phase.Gated? || tx.phase.Locked?)
    requires Leads(s, moves, s.(txs := map[0 := tx]))
    ensures Leads(s, moves + [Statement(0)], s.(txs := map[0 := tx.(phase := NextPhase(s, tx))]))
  {
    var v := s.(txs := map[0 := tx]);
    assert v.txs[0 := tx.(phase := NextPhase(s, tx))] == map[0 := tx.(phase := NextPhase(s, tx))];
    OneMore(s, moves, v, Statement(0));
  }

  /** Writer 0 begins, locks its user and reads the row. */
  lemma WriterReads(s: State, c: Cause, at: Micros) returns (moves: seq<Move>, v: State)
    requires s.txs == map[] && !Duplicate(s, c) && Proper(c, at)
    ensures Leads(s, moves, v)
    ensures v == s.(txs := map[0 := Writer(c, WriteOf(c), at, Seen(Lookup(s.projection.rows, WriteOf(c).key)))])
  {
    hide WriteOf, Proper;
    var tx := Writer(c, WriteOf(c), at, Begun);
    moves := [Begin(0, tx)];
    assert Leads(s, [], s);
    OneMore(s, [], s, Begin(0, tx));
    assert [] + moves == moves && s.txs[0 := tx] == map[0 := tx];
    OneStatement(s, moves, tx);
    OneStatement(s, moves + [Statement(0)], tx.(phase := Gated));
    OneStatement(s, moves + [Statement(0)] + [Statement(0)], tx.(phase := Locked));
    moves := moves + [Statement(0)] + [Statement(0)] + [Statement(0)];
    v := s.(txs := map[0 := tx.(phase := Seen(Lookup(s.projection.rows, tx.write.key)))]);
  }

  /** A sweep, transaction 1, expires one row and commits while the others stand still. */
  lemma SweepPasses(s: State, moves: seq<Move>, v: State, k: Key, now: Micros) returns (longer: seq<Move>, u: State)
    requires Leads(s, moves, v) && 1 !in v.txs
    requires k in v.projection.rows && Due(v.projection.rows[k], now) && Free(v, 1, RowLock(k))
    ensures Leads(s, longer, u) && u.txs == v.txs
    ensures u.projection == ExpireOne(v.projection, k, now)
  {
    var idle := Picker(Sweeping, now, [], map[]);
    OneMore(s, moves, v, Begin(1, idle));
    var v1 := Do(v, Begin(1, idle));
    longer := moves + [Begin(1, idle)];
    assert CanMove(v1, Pick(1, [k]));
    OneMore(s, longer, v1, Pick(1, [k]));
    var v2 := Do(v1, Pick(1, [k]));
    longer := longer + [Pick(1, [k])];
    OneMore(s, longer, v2, Commit(1));
    longer, u := longer + [Commit(1)], Do(v2, Commit(1));
    SelectedIsSwept(v.projection, [k], v2.txs[1].rows, now);
    Sweeps.SweepOfOne(v.projection, k, now);
  }

  /** Writer 0, which read the row before it changed, runs its upsert and commits. */
  lemma OvertakenWriterCommits(s: State, moves: seq<Move>, v: State, seed: map<Key, Row>)
    returns (longer: seq<Move>, u: State)
    requires Quiet(s) && Leads(s, moves, v) && v.txs.Keys == {0} && v.txs[0].Writer? && v.txs[0].phase.Seen?
    requires var tx := v.txs[0];
             && tx.phase.previous.Some? && tx.write.key in v.projection.rows
             && tx.phase.previous.value.lastEventTime < v.projection.rows[tx.write.key].lastEventTime < tx.write.time
             && AuditChain.Chained(seed, v.projection, tx.write.key)
    ensures Leads(s, longer, u) && !AuditChain.Chained(seed, u.projection, v.txs[0].write.key)
  {
    OneMore(s, moves, v, Statement(0));
    longer, u := moves + [Statement(0)], Do(v, Statement(0));
    SoundThroughout(s, longer);
    ChainBreaksExactlyWhenStale(u, 0, seed);
    OneMore(s, longer, u, Commit(0));
    longer, u := longer + [Commit(0)], Do(u, Commit(0));
  }

  /** From any quiet state with a due row, a newer write of that row can be overtaken by the sweep after
      reading and still commit: the audit log then no longer replays to the row. */
  lemma SweepCanOvertakeWriter(s: State, c: Cause, at: Micros, now: Micros, seed: map<Key, Row>)
    returns (moves: seq<Move>, v: State)
    requires Quiet(s) && Proper(c, at) && WriteOf(c).key in s.projection.rows
    requires var r := s.projection.rows[WriteOf(c).key];
             Due(r, now) && UnixMilli(r.expiresAt.value) < WriteOf(c).time
    requires AuditChain.Chained(seed, s.projection, WriteOf(c).key)
    ensures Leads(s, moves, v) && !AuditChain.Chained(seed, v.projection, WriteOf(c).key)
  {
    hide WriteOf, Proper;
    var w := WriteOf(c);
    moves, v := WriterReads(s, c, at);
    moves, v := SweepPasses(s, moves, v, w.key, now);
    AuditChain.ExpireChains(seed, s.projection, w.key, now, w.key);
    moves, v := OvertakenWriterCommits(s, moves, v, seed);
  }

  // ----- Each event once -----

  function EventOfOp(op: Op): Option<Marker> {
    if op.Upserts? then EventOf(op.cause) else None
  }

  /** No two committed transactions have the same event, and the recorded events are theirs. Ids of the
      store and of the marketplace may coincide: each table has its own keys. */
  ghost predicate EachEventOnce(s: State) {
    && (forall event :: event in s.recorded <==> exists i :: 0 <= i < |s.done| && EventOfOp(s.done[i]) == Some(event))
    && (forall i, j :: 0 <= i < j < |s.done| && EventOfOp(s.done[i]).Some?
          ==> EventOfOp(s.done[i]) != EventOfOp(s.done[j]))
  }

  lemma MoveKeepsEventsOnce(s: State, m: Move)
    requires Sound(s) && CanMove(s, m) && EachEventOnce(s)
    ensures EachEventOnce(Do(s, m))
  {
    if m.Commit? {
      var after, op := Do(s, m), OpOf(s.txs[m.t]);
      assert InStep(s, s.txs[m.t]);
      assert after.done[|s.done|] == op;
      forall event
        ensures event in after.recorded <==>
                exists i :: 0 <= i < |after.done| && EventOfOp(after.done[i]) == Some(event)
      {
        if event in s.recorded {
          var i :| 0 <= i < |s.done| && EventOfOp(s.done[i]) == Some(event);
          assert after.done[i] == s.done[i];
        }
      }
    }
  }

  /** However deliveries of the same event interleave, at most one of them commits its effect. */
  lemma {:induction false} EventsCommitOnce(s: State, moves: seq<Move>)
    requires Quiet(s) && Possible(s, moves)
    ensures EachEventOnce(Execute(s, moves))
  {
    if moves != [] {
      EventsCommitOnce(s, Earlier(moves));
      SoundThroughout(s, Earlier(moves));
      MoveKeepsEventsOnce(Execute(s, Earlier(moves)), Last(moves));
    }
  }

  // ----- No deadlock -----

  function Rank(r: Resource): nat {
    match r
    case EventKey(_) => 0
    case UserLock(_) => 1
    case RowLock(_) => 2
    case NoticeLock(_) => 3
  }

  /** `a` cannot go on before `b` ends. */
  ghost predicate WaitsFor(s: State, a: TxId, b: TxId) {
    a in s.txs && b in s.txs && a != b && Wants(s.txs[a]).Some? && Holds(s.txs[b], Wants(s.txs[a]).value)
  }

  lemma WaitingClimbs(s: State, a: TxId, b: TxId)
    requires WaitsFor(s, a, b) && Wants(s.txs[b]).Some?
    ensures Rank(Wants(s.txs[a]).value) < Rank(Wants(s.txs[b]).value)
  {
  }

  lemma {:induction false} ChainClimbs(s: State, c: seq<TxId>, i: nat)
    requires i < |c| && forall j :: 0 <= j < |c| - 1 ==> WaitsFor(s, c[j], c[j + 1])
    requires forall j :: 0 <= j < |c| ==> c[j] in s.txs && Wants(s.txs[c[j]]).Some?
    ensures Rank(Wants(s.txs[c[0]]).value) + i <= Rank(Wants(s.txs[c[i]]).value)
  {
    if i > 0 {
      ChainClimbs(s, c, i - 1);
      WaitingClimbs(s, c[i - 1], c[i]);
    }
  }

  /** Each waits for the next, and the last for the first. */
  ghost predicate Circle(s: State, c: seq<TxId>) {
    c != [] && (forall i :: 0 <= i < |c| - 1 ==> WaitsFor(s, c[i], c[i + 1])) && WaitsFor(s, Last(c), c[0])
  }

  /** No set of transactions ever waits in a circle. */
  lemma NoCircularWait(s: State, c: seq<TxId>)
    ensures !Circle(s, c)
  {
    if Circle(s, c) {
      forall j | 0 <= j < |c|
        ensures c[j] in s.txs && Wants(s.txs[c[j]]).Some?
      {
        assert if j < |c| - 1 then WaitsFor(s, c[j], c[j + 1]) else WaitsFor(s, Last(c), c[0]);
      }
      ChainClimbs(s, c, |c| - 1);
      WaitingClimbs(s, Last(c), c[0]);
    }
  }

  /** As long as anything is in flight, some transaction can run its next statement or commit: following
      who waits for whom ends at one. */
  lemma SomeoneCanMove(s: State, t: TxId) returns (m: Move)
    requires t in s.txs
    ensures CanMove(s, m) && (m.Statement? || m.Commit?)
    decreases if Wants(s.txs[t]).Some? then 3 - Rank(Wants(s.txs[t]).value) else 0
  {
    var tx := s.txs[t];
    if Wants(tx).Some? && !Free(s, t, Wants(tx).value) {
      var o :| o in s.txs && o != t && Holds(s.txs[o], Wants(tx).value);
      assert WaitsFor(s, t, o);
      if Wants(s.txs[o]).Some? {
        WaitingClimbs(s, t, o);
      }
      m := SomeoneCanMove(s, o);
    } else if !tx.Writer? || tx.phase.Written? || (tx.phase.Seen? && Wants(tx).None?) {
      m := Commit(t);
    } else {
      m := Statement(t);
    }
  }
}
