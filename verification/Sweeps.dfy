/** The expiration sweep and its second implementation, the fallback loop over upserts. */
module Sweeps {
  import opened Calendar
  import opened Domain
  import opened Tables
  import opened Runs

  // ----- The two sweeps -----

  function ExpiryWrite(k: Key, r: Row): Write
    requires r.expiresAt.Some?
  {
    Write(k, false, None, EXPIRED, UnixMilli(r.expiresAt.value), None)
  }

  /** The fallback skips rows that are not due and leaves the rest to the guarded upsert. */
  function FallbackOne(p: Projection, k: Key, now: Micros): Projection {
    if k in p.rows && Due(p.rows[k], now) then Upsert(p, ExpiryWrite(k, p.rows[k]), now) else p
  }

  function FallbackBatch(p: Projection, keys: seq<Key>, now: Micros): Projection
    decreases |keys|
  {
    if keys == [] then p else FallbackBatch(FallbackOne(p, keys[0], now), keys[1..], now)
  }

  /** How many of the batch the fallback reports as changed. */
  function FallbackCount(p: Projection, keys: seq<Key>, now: Micros): nat
    decreases |keys|
  {
    if keys == [] then 0
    else
      var k, rest := keys[0], FallbackCount(FallbackOne(p, keys[0], now), keys[1..], now);
      if k in p.rows && Due(p.rows[k], now) && UpsertChanges(p, ExpiryWrite(k, p.rows[k])) then rest + 1 else rest
  }

  lemma ExpireOneFrame(p: Projection, k: Key, now: Micros, other: Key)
    requires other != k
    ensures Lookup(ExpireOne(p, k, now).rows, other) == Lookup(p.rows, other)
    ensures Lookup(FallbackOne(p, k, now).rows, other) == Lookup(p.rows, other)
  {
  }

  lemma StillDue(p: Projection, q: Projection, keys: seq<Key>, now: Micros)
    requires keys != [] && Distinct(keys) && AllDue(p.rows, keys, now)
    requires forall k :: k != keys[0] ==> Lookup(q.rows, k) == Lookup(p.rows, k)
    ensures Distinct(keys[1..]) && AllDue(q.rows, keys[1..], now)
    ensures forall i :: 0 <= i < |keys[1..]| ==> keys[1..][i] != keys[0] && q.rows[keys[1..][i]] == p.rows[keys[1..][i]]
  {
    forall i | 0 <= i < |keys[1..]|
      ensures keys[1..][i] in q.rows && keys[1..][i] != keys[0] && q.rows[keys[1..][i]] == p.rows[keys[1..][i]]
    {
      assert keys[1..][i] == keys[i + 1];
      assert Lookup(q.rows, keys[i + 1]) == Lookup(p.rows, keys[i + 1]);
    }
  }

  lemma NextOfBatch(p: Projection, keys: seq<Key>, now: Micros)
    requires keys != [] && Distinct(keys) && AllDue(p.rows, keys, now)
    ensures var q := ExpireOne(p, keys[0], now);
            && SweepBatch(p, keys, now) == SweepBatch(q, keys[1..], now)
            && Distinct(keys[1..]) && AllDue(q.rows, keys[1..], now)
            && forall k :: k in keys[1..] ==> k in p.rows && q.rows[k] == p.rows[k]
  {
    StillDue(p, ExpireOne(p, keys[0], now), keys, now);
  }

  lemma SweepOfOne(p: Projection, k: Key, now: Micros)
    ensures SweepBatch(p, [k], now) == ExpireOne(p, k, now)
  {
    assert [k][1..] == [];
  }

  /** A sweep changes exactly the listed rows. */
  lemma {:induction false} SweepRows(p: Projection, keys: seq<Key>, now: Micros, k: Key)
    requires Distinct(keys) && AllDue(p.rows, keys, now)
    ensures Lookup(SweepBatch(p, keys, now).rows, k) ==
            if k in keys then Some(ExpiredRow(p.rows[k], now)) else Lookup(p.rows, k)
    decreases |keys|
  {
    if keys != [] {
      var q := ExpireOne(p, keys[0], now);
      StillDue(p, q, keys, now);
      SweepRows(q, keys[1..], now, k);
      assert k in keys <==> k == keys[0] || k in keys[1..];
    }
  }

  /** And audits each of them once, in order. */
  lemma {:induction false} SweepAudits(p: Projection, keys: seq<Key>, now: Micros)
    requires Distinct(keys) && AllDue(p.rows, keys, now)
    ensures SweepBatch(p, keys, now).audit ==
            p.audit + seq(|keys|, i requires 0 <= i < |keys| => ExpiryAudit(keys[i], p.rows[keys[i]]))
    decreases |keys|
  {
    if keys != [] {
      var q, rest := ExpireOne(p, keys[0], now), keys[1..];
      StillDue(p, q, keys, now);
      SweepAudits(q, rest, now);
    }
  }

  /** What is due afterwards is what was due and not listed. */
  lemma SweepLeaves(p: Projection, keys: seq<Key>, now: Micros)
    requires Distinct(keys) && AllDue(p.rows, keys, now)
    ensures DueKeys(SweepBatch(p, keys, now).rows, now) == DueKeys(p.rows, now) - Elements(keys)
  {
    var after := SweepBatch(p, keys, now).rows;
    forall k
      ensures k in DueKeys(after, now) <==> k in DueKeys(p.rows, now) && k !in keys
    {
      SweepRows(p, keys, now, k);
      assert Lookup(after, k).Some? <==> k in after;
    }
  }

  lemma FallbackSkipsStale(p: Projection, keys: seq<Key>, now: Micros, k: Key)
    requires k in p.rows && !EventBeforeExpiry(p.rows[k])
    ensures Lookup(FallbackBatch(p, keys, now).rows, k) == Some(p.rows[k])
    decreases |keys|
  {
    if keys != [] {
      if keys[0] != k {
        ExpireOneFrame(p, keys[0], now, k);
      }
      FallbackSkipsStale(FallbackOne(p, keys[0], now), keys[1..], now, k);
    }
  }

  lemma {:induction false} SweepsAgreeWhenOrdered(p: Projection, keys: seq<Key>, now: Micros)
    requires Distinct(keys) && AllDue(p.rows, keys, now)
    requires forall i :: 0 <= i < |keys| ==> EventBeforeExpiry(p.rows[keys[i]])
    ensures FallbackBatch(p, keys, now) == SweepBatch(p, keys, now)
    ensures FallbackCount(p, keys, now) == |keys|
    decreases |keys|
  {
    if keys != [] {
      var q := ExpireOne(p, keys[0], now);
      assert FallbackOne(p, keys[0], now) == q;
      StillDue(p, q, keys, now);
      SweepsAgreeWhenOrdered(q, keys[1..], now);
    }
  }

  /** On the same batch and at the same clock, the fallback loop and the transactional sweep leave the
      same rows and the same audit rows in the same order, and report the same count, if and only if
      every row's event is older than its expiry. */
  lemma SweepsAgree(p: Projection, keys: seq<Key>, now: Micros)
    requires Distinct(keys) && AllDue(p.rows, keys, now)
    ensures (FallbackBatch(p, keys, now) == SweepBatch(p, keys, now) && FallbackCount(p, keys, now) == |keys|)
            <==> forall i :: 0 <= i < |keys| ==> EventBeforeExpiry(p.rows[keys[i]])
  {
    if forall i :: 0 <= i < |keys| ==> EventBeforeExpiry(p.rows[keys[i]]) {
      SweepsAgreeWhenOrdered(p, keys, now);
    } else {
      var i :| 0 <= i < |keys| && !EventBeforeExpiry(p.rows[keys[i]]);
      StaleRowsDiffer(p, keys, now, keys[i]);
    }
  }

  /** Otherwise the fallback leaves such a row active, while the transaction expires it and moves its
      last_event_time back or leaves it level. */
  lemma StaleRowsDiffer(p: Projection, keys: seq<Key>, now: Micros, k: Key)
    requires Distinct(keys) && AllDue(p.rows, keys, now)
    requires k in keys && !EventBeforeExpiry(p.rows[k])
    ensures Lookup(FallbackBatch(p, keys, now).rows, k) == Some(p.rows[k]) && p.rows[k].active
    ensures var r := Lookup(SweepBatch(p, keys, now).rows, k);
            r.Some? && !r.value.active && r.value.lastEventTime <= p.rows[k].lastEventTime
  {
    FallbackSkipsStale(p, keys, now, k);
    SweepRows(p, keys, now, k);
  }

  // ----- Event times never go back -----

  /** `q` keeps every row of `p` and moves no last_event_time back. */
  ghost predicate Onward(p: Projection, q: Projection) {
    forall k :: k in p.rows ==> k in q.rows && p.rows[k].lastEventTime <= q.rows[k].lastEventTime
  }

  lemma {:induction false} SweepOnward(p: Projection, keys: seq<Key>, now: Micros)
    requires ExpiryAfterEvent(p.rows)
    ensures ExpiryAfterEvent(SweepBatch(p, keys, now).rows) && Onward(p, SweepBatch(p, keys, now))
    decreases |keys|
  {
    if keys != [] {
      SweepOnward(ExpireOne(p, keys[0], now), keys[1..], now);
    }
  }

  lemma StepOnward(w: World, s: Step)
    requires ExpiryAfterEvent(w.db.projection.rows)
    ensures ExpiryAfterEvent(Apply(w, s).db.projection.rows)
    ensures Onward(w.db.projection, Apply(w, s).db.projection)
  {
    hide GrantExpiry;
    if s.Sweep? {
      SweepOnward(w.db.projection, s.keys, w.now);
    }
  }

  /** In every run, whatever was seeded, stored expiries stay later than the events behind them. */
  lemma {:induction false} ExpiriesStayAfterEvents(w: World, steps: seq<Step>)
    requires Initial(w) && ValidRun(w, steps)
    ensures ExpiryAfterEvent(Run(w, steps).db.projection.rows)
  {
    if steps != [] {
      ExpiriesStayAfterEvents(w, Earlier(steps));
      StepOnward(Run(w, Earlier(steps)), Last(steps));
    }
  }

  /** So the two sweeps agree in every reachable state. */
  lemma SweepsAgreeWhenReached(w: World, steps: seq<Step>, keys: seq<Key>)
    requires Initial(w) && ValidRun(w, steps)
    requires Enabled(Run(w, steps), Sweep(keys))
    ensures var v := Run(w, steps);
            FallbackBatch(v.db.projection, keys, v.now) == SweepBatch(v.db.projection, keys, v.now)
            && FallbackCount(v.db.projection, keys, v.now) == |keys|
  {
    ExpiriesStayAfterEvents(w, steps);
    SweepsAgree(Run(w, steps).db.projection, keys, Run(w, steps).now);
  }
}
