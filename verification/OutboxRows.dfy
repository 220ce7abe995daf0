/** What each step of the outbox does to each row, and that no row is lost. */
module OutboxRows {
  import opened ByteStrings
  import opened Results
  import opened Outbox

  // ----- one step, row by row

  predicate Queued(db: Db, relation: Relation, id: Id) {
    && id in db && db[id].resync
    && db[id].relation.tenant == relation.tenant && db[id].relation.relationType == relation.relationType
    && db[id].relation.relationId == relation.relationId
  }

  /** The row an item was claimed from, still under that claim. */
  predicate Held(db: Db, item: Item) {
    && item.id in db && db[item.id].generation == item.generation
    && db[item.id].relation == item.relation
  }

  /** The row made visible at another time, which frees it from its lease; at the same time it is not freed. */
  function VisibleAt(row: Row, time: int): (r: Row) {
    row.(visibleAfter := time, leasedUntil := if time == row.visibleAfter then row.leasedUntil else None)
  }

  /** What becomes of the row under an identifier; `None` if there is none. */
  function RowOf(db: Db, id: Id): (r: Option<Row>) {
    if id in db then Some(db[id]) else None
  }

  /**
   * Every step, row by row: claiming leases the chosen rows for five minutes and counts their generation, completing
   * removes the one row held under the item's claim, rescheduling counts an attempt on it and moves its time; every
   * other row is as it was.
   */
  lemma StepRows(s: System, step: Step, id: Id)
    requires Enabled(s, step)
    ensures var before, after := RowOf(s.db, id), RowOf(Next(s, step).db, id);
      match step
      case Claim(chosen, _, _, now) =>
        after == if id in chosen && before.Some? then
                   Some(before.value.(leasedUntil := Some(now + 300_000), generation := before.value.generation + 1))
                 else before
      case Deliver(_) => after == before
      case Complete(item) => after == if id == item.id && Held(s.db, item) then None else before
      case Reschedule(item, time) =>
        after == if id == item.id && Held(s.db, item) then Some(VisibleAt(s.db[id], time).(attempts := s.db[id].attempts + 1)) else before
      case Insert(new', relation, payloadDigest, now) =>
        after == if id == new' then Some(Row(relation, payloadDigest, false, 0, now, now, None, 0)) else before
      case QueueResync(new', relation, payloadDigest, now) =>
        after == if Queued(s.db, relation, id) then Some(VisibleAt(s.db[id], now))
                 else if id == new' && !(exists other :: Queued(s.db, relation, other)) then
                   Some(Row(relation, payloadDigest, true, 0, now, now, None, 0))
                 else before
      case DropResync(relation) => after == if Queued(s.db, relation, id) then None else before
  {
    hide IsClaim;
    if step.QueueResync? {
      QueuedSomewhere(s.db, step.relation);
    }
  }

  lemma QueuedSomewhere(db: Db, relation: Relation)
    ensures HasResync(db, relation) <==> exists other :: Queued(db, relation, other)
  {
    if HasResync(db, relation) {
      var other :| other in db && db[other].resync && SameResync(db[other].relation, relation);
      assert Queued(db, relation, other);
    }
    if exists other :: Queued(db, relation, other) {
      var other :| Queued(db, relation, other);
      assert SameResync(db[other].relation, relation);
    }
  }

  // ----- which rows a claim takes

  /** By visibility time, then by creation time, then by identifier. */
  predicate LaterThan(a: Row, x: Id, b: Row, y: Id) {
    a.visibleAfter >= b.visibleAfter
    && (a.visibleAfter == b.visibleAfter ==> a.createdAt >= b.createdAt && (a.createdAt == b.createdAt ==> x > y))
  }

  /** A row that a claim passes over came later than every row it takes, and then it took as many as it may. */
  lemma ClaimTakesOldest(db: Db, locked: set<Id>, limit: nat, now: int, chosen: set<Id>, other: Id)
    requires IsClaim(db, locked, limit, now, chosen)
    requires other in db && other !in locked && other !in chosen
    requires db[other].visibleAfter <= now && (db[other].leasedUntil.None? || db[other].leasedUntil.value <= now)
    ensures |chosen| == limit > 0
    ensures forall id :: id in chosen ==> id in db && LaterThan(db[other], other, db[id], id)
  {
  }

  /** There is never a choice: what a claim takes is fixed by the table, the locks, the limit and the clock. */
  lemma ClaimIsDetermined(db: Db, locked: set<Id>, limit: nat, now: int, a: set<Id>, b: set<Id>)
    requires IsClaim(db, locked, limit, now, a) && IsClaim(db, locked, limit, now, b)
    ensures a == b
  {
    forall x ensures x in a <==> x in b {
      OneSided(db, locked, limit, now, a, b, x);
      OneSided(db, locked, limit, now, b, a, x);
    }
  }

  /** Of two claims on the same terms, neither takes what the other does not. */
  lemma OneSided(db: Db, locked: set<Id>, limit: nat, now: int, a: set<Id>, b: set<Id>, x: Id)
    requires IsClaim(db, locked, limit, now, a) && IsClaim(db, locked, limit, now, b)
    ensures !(x in a && x !in b)
  {
    if x in a && x !in b {
      Surplus(a, b, x);
    }
  }

  /** A set no larger than another that holds something more also lacks something. */
  lemma Surplus(a: set<Id>, b: set<Id>, x: Id)
    requires |a| <= |b| && x in a && x !in b
    ensures exists y :: y in b && y !in a
  {
    if forall y :: y in b ==> y in a {
      Smaller(b, a - {x});
    }
  }

  lemma {:induction false} Smaller(b: set<Id>, a: set<Id>)
    requires b <= a
    ensures |b| <= |a|
  {
    if y :| y in b {
      Smaller(b - {y}, a - {y});
    }
  }

  lemma {:induction false} FirstOf(db: Db, s: set<Id>) returns (m: Id)
    requires s != {} && s <= db.Keys
    ensures m in s && forall other :: other in s && other != m ==> Before(db, m, other)
    decreases |s|
  {
    var x :| x in s;
    if s == {x} {
      m := x;
    } else {
      var y := FirstOf(db, s - {x});
      m := if Before(db, x, y) then x else y;
      forall other | other in s && other != m ensures Before(db, m, other) {
        assert other == x || other in s - {x};
      }
    }
  }

  /** A claim can always be made, and takes something whenever something is due and not locked. */
  lemma {:induction false} ClaimExists(db: Db, locked: set<Id>, limit: nat, now: int) returns (chosen: set<Id>)
    requires 1 <= limit <= MAX_LIMIT
    ensures IsClaim(db, locked, limit, now, chosen)
    ensures chosen != {} <==> exists id :: id in db && id !in locked && Due(db[id], now)
  {
    var due := set id | id in db && id !in locked && Due(db[id], now);
    chosen := {};
    while |chosen| < limit && chosen != due
      invariant chosen <= due && |chosen| <= limit
      invariant forall id, other :: id in chosen && other in due && other !in chosen ==> Before(db, id, other)
      decreases limit - |chosen|
    {
      var m := FirstOf(db, due - chosen);
      chosen := chosen + {m};
    }
  }

  // ----- no row is lost

  predicate SameSubject(a: Relation, b: Relation) {
    a.tenant == b.tenant && a.relationType == b.relationType && a.relationId == b.relationId
  }

  predicate RemovedByWorker(s: System, id: Id) {
    exists item :: item in s.removed && item.id == id
  }

  predicate DroppedResync(s: System, id: Id)
    requires id in s.inserted
  {
    s.inserted[id].resync && exists relation :: relation in s.dropped && SameSubject(relation, s.inserted[id].relation)
  }

  /** Every row ever inserted is there as it was inserted, or was removed by a worker, or was a resync that was dropped. */
  ghost predicate NoneLost(s: System) {
    && s.inserted.Keys <= s.used
    && (forall id :: id in s.db ==> id in s.inserted && s.inserted[id] == Origin(s.db[id].relation, s.db[id].payloadDigest, s.db[id].resync))
    && (forall id :: id in s.inserted ==> id in s.db || RemovedByWorker(s, id) || DroppedResync(s, id))
    && (forall item :: item in s.removed ==> item.id in s.inserted && item.relation == s.inserted[item.id].relation)
  }

  /** A relation has at most one resync queued. */
  ghost predicate OneResyncEach(db: Db) {
    forall a, b :: a in db && b in db && db[a].resync && db[b].resync && SameSubject(db[a].relation, db[b].relation) ==> a == b
  }

  lemma RecordsStay(s: System, t: System, id: Id)
    requires s.removed <= t.removed && s.dropped <= t.dropped && id in s.inserted && id in t.inserted && t.inserted[id] == s.inserted[id]
    ensures RemovedByWorker(s, id) ==> RemovedByWorker(t, id)
    ensures DroppedResync(s, id) ==> DroppedResync(t, id)
  {
  }

  lemma StepLosesNone(s: System, step: Step)
    requires Inv(s) && NoneLost(s) && Enabled(s, step)
    ensures NoneLost(Next(s, step))
  {
    hide Inv, IsClaim, RemovedByWorker, DroppedResync, Claimed, Completed, Rescheduled, Upserted, ResyncDropped;
    var t := Next(s, step);
    if step.QueueResync? {
      QueuedSomewhere(s.db, step.relation);
    }
    forall id | id in t.db
      ensures id in t.inserted && t.inserted[id] == Origin(t.db[id].relation, t.db[id].payloadDigest, t.db[id].resync)
    {
      StepRows(s, step, id);
    }
    OriginsStay(s, step);
    forall item | item in t.removed ensures item.id in t.inserted && item.relation == t.inserted[item.id].relation {
      if item !in s.removed {
        NewlyRemoved(s, step, item);
      }
    }
    forall id | id in t.inserted ensures id in t.db || RemovedByWorker(t, id) || DroppedResync(t, id) {
      StepRows(s, step, id);
      if id in s.inserted {
        RecordsStay(s, t, id);
        if id in s.db && id !in t.db {
          GoneFor(s, step, id);
        }
      }
    }
  }

  lemma NewlyRemoved(s: System, step: Step, item: Item)
    requires Enabled(s, step) && item in Next(s, step).removed && item !in s.removed
    ensures step == Complete(item) && item.id in s.db && s.db[item.id].relation == item.relation
  {
    hide IsClaim, Claimed, Completed, Rescheduled, Upserted, ResyncDropped;
  }

  /** A row that a step takes out of the table was completed, or its resync was dropped. */
  lemma GoneFor(s: System, step: Step, id: Id)
    requires NoneLost(s) && Enabled(s, step) && id in s.db && id !in Next(s, step).db
    ensures id in Next(s, step).inserted && (RemovedByWorker(Next(s, step), id) || DroppedResync(Next(s, step), id))
  {
    hide IsClaim, Claimed, Completed, Rescheduled, Upserted, ResyncDropped;
    StepRows(s, step, id);
    var t := Next(s, step);
    if step.Complete? {
      assert step.item in t.removed;
    } else {
      assert step.relation in t.dropped && SameSubject(step.relation, s.db[id].relation);
    }
  }

  lemma StepKeepsOneResync(s: System, step: Step)
    requires Inv(s) && OneResyncEach(s.db) && Enabled(s, step)
    ensures OneResyncEach(Next(s, step).db)
  {
    hide Inv, IsClaim, Claimed, Completed, Rescheduled, Upserted, ResyncDropped;
    var t := Next(s, step);
    if step.QueueResync? {
      QueuedSomewhere(s.db, step.relation);
    }
    forall a, b | a in t.db && b in t.db && t.db[a].resync && t.db[b].resync && SameSubject(t.db[a].relation, t.db[b].relation)
      ensures a == b
    {
      StepRows(s, step, a);
      StepRows(s, step, b);
    }
  }

  // ----- whole runs

  predicate Inserts(step: Step, id: Id) {
    step.Insert? && step.id == id
  }

  lemma {:induction false} RunLosesNone(s: System, steps: seq<Step>)
    requires Inv(s) && NoneLost(s) && OneResyncEach(s.db) && AllEnabled(s, steps)
    ensures Inv(Run(s, steps)) && NoneLost(Run(s, steps)) && OneResyncEach(Run(s, steps).db)
    ensures forall id :: id in s.inserted ==> id in Run(s, steps).inserted && Run(s, steps).inserted[id] == s.inserted[id]
    ensures forall k, id :: 0 <= k < |steps| && Inserts(steps[k], id) ==>
      id in Run(s, steps).inserted && Run(s, steps).inserted[id] == Origin(steps[k].relation, steps[k].payloadDigest, false)
    ensures forall relation :: relation in Run(s, steps).dropped ==> relation in s.dropped || DropResync(relation) in steps
    decreases |steps|
  {
    hide Inv, NoneLost, OneResyncEach, Enabled;
    if steps != [] {
      StepKeeps(s, steps[0]);
      StepLosesNone(s, steps[0]);
      StepKeepsOneResync(s, steps[0]);
      OriginsStay(s, steps[0]);
      RunLosesNone(Next(s, steps[0]), steps[1..]);
      forall k, id | 0 <= k < |steps| && Inserts(steps[k], id)
        ensures id in Run(s, steps).inserted && Run(s, steps).inserted[id] == Origin(steps[k].relation, steps[k].payloadDigest, false)
      {
        if k > 0 {
          assert steps[1..][k - 1] == steps[k];
        }
      }
    }
  }

  lemma OriginsStay(s: System, step: Step)
    requires Inv(s) && NoneLost(s) && Enabled(s, step)
    ensures forall id :: id in s.inserted ==> id in Next(s, step).inserted && Next(s, step).inserted[id] == s.inserted[id]
    ensures step.Insert? ==>
      step.id in Next(s, step).inserted && Next(s, step).inserted[step.id] == Origin(step.relation, step.payloadDigest, false)
    ensures forall relation :: relation in Next(s, step).dropped ==> relation in s.dropped || step == DropResync(relation)
  {
    hide IsClaim, Claimed, Completed, Rescheduled, Upserted, ResyncDropped;
  }

  /**
   * No row is lost: over any run, whatever was inserted is still in the table with what it was inserted with, or a worker
   * removed it after delivering it under its newest claim, or it was a resync of a relation that a step of the run dropped.
   */
  lemma NoRowIsLost(steps: seq<Step>, id: Id)
    requires AllEnabled(START, steps) && id in Run(START, steps).inserted
    ensures var s := Run(START, steps);
      var origin := s.inserted[id];
      || (id in s.db && origin == Origin(s.db[id].relation, s.db[id].payloadDigest, s.db[id].resync))
      || (exists item :: item in s.removed && item.id == id && item in s.delivered
            && forall c :: c in s.claims && c.id == id ==> c.generation <= item.generation)
      || (origin.resync && exists relation :: DropResync(relation) in steps && SameSubject(relation, origin.relation))
  {
    hide Run, AllEnabled;
    StartLosesNone();
    RunLosesNone(START, steps);
    var s := Run(START, steps);
    if id !in s.db && RemovedByWorker(s, id) {
      var item :| item in s.removed && item.id == id;
      assert item in s.delivered;
    }
  }

  lemma StartLosesNone()
    ensures Inv(START) && NoneLost(START) && OneResyncEach(START.db)
  {
  }

  /** A plain row, once a step of the run has inserted it, leaves the table only by being delivered. */
  lemma PlainRowIsDelivered(steps: seq<Step>, k: nat)
    requires AllEnabled(START, steps) && k < |steps| && steps[k].Insert?
    ensures var s := Run(START, steps);
      steps[k].id in s.db || exists item :: item in s.removed && item.id == steps[k].id && item in s.delivered && item.relation == steps[k].relation
  {
    hide Run, AllEnabled, OneResyncEach;
    StartLosesNone();
    RunLosesNone(START, steps);
    assert Inserts(steps[k], steps[k].id);
    NoRowIsLost(steps, steps[k].id);
  }
}
