/** The service's outbox: rows leased to workers by generation, over any interleaving of their transactions. */
module Outbox {
  import opened ByteStrings
  import opened Results

  type Id = nat

  const LEASE: nat := 300_000
  const MAX_LIMIT: nat := 100

  /** What a row is about; no statement ever changes it. */
  datatype Relation = Relation(tenant: Bytes, relationType: Bytes, relationId: Bytes, eventType: Bytes)

  /** Times in milliseconds; `resync` marks the rows whose deduplication key is that of a projection resync. */
  datatype Row = Row(
    relation: Relation,
    payloadDigest: Bytes,
    resync: bool,
    attempts: nat,
    createdAt: int,
    visibleAfter: int,
    leasedUntil: Option<int>,
    generation: nat)

  type Db = map<Id, Row>

  /** What a worker holds of a claimed row. */
  datatype Item = Item(id: Id, relation: Relation, payloadDigest: Bytes, generation: nat)

  function ItemOf(id: Id, row: Row): (i: Item) {
    Item(id, row.relation, row.payloadDigest, row.generation)
  }

  // ----- claiming

  predicate Due(row: Row, now: int) {
    row.visibleAfter <= now && (row.leasedUntil.None? || row.leasedUntil.value <= now)
  }

  predicate Before(db: Db, a: Id, b: Id)
    requires a in db && b in db
  {
    || db[a].visibleAfter < db[b].visibleAfter
    || (db[a].visibleAfter == db[b].visibleAfter && db[a].createdAt < db[b].createdAt)
    || (db[a].visibleAfter == db[b].visibleAfter && db[a].createdAt == db[b].createdAt && a < b)
  }

  /** The first `limit` due rows, passing over those that other transactions hold locked. */
  predicate IsClaim(db: Db, locked: set<Id>, limit: nat, now: int, chosen: set<Id>) {
    && 1 <= limit <= MAX_LIMIT && |chosen| <= limit
    && (forall id :: id in chosen ==> id in db && id !in locked && Due(db[id], now))
    && (forall other :: other in db && other !in locked && Due(db[other], now) && other !in chosen ==>
          |chosen| == limit && forall id :: id in chosen ==> Before(db, id, other))
  }

  function Leased(row: Row, now: int): (r: Row) {
    row.(leasedUntil := Some(now + LEASE), generation := row.generation + 1)
  }

  function Claimed(db: Db, chosen: set<Id>, now: int): (d: Db) {
    map id | id in db :: if id in chosen then Leased(db[id], now) else db[id]
  }

  function ItemsOf(db: Db, chosen: set<Id>): (items: set<Item>)
    requires chosen <= db.Keys
  {
    set id | id in chosen :: ItemOf(id, db[id])
  }

  // ----- the other statements

  /** An update of the visibility time; the trigger drops the lease when the time really changes. */
  function Touched(row: Row, visibleAfter: int): (r: Row) {
    if visibleAfter == row.visibleAfter then row else row.(visibleAfter := visibleAfter, leasedUntil := None)
  }

  /** What completing and rescheduling look a row up by; its payload is not among it. */
  predicate Matches(db: Db, item: Item) {
    item.id in db && db[item.id].relation == item.relation && db[item.id].generation == item.generation
  }

  function Completed(db: Db, item: Item): (d: Db) {
    if Matches(db, item) then db - {item.id} else db
  }

  function Rescheduled(db: Db, item: Item, visibleAfter: int): (d: Db) {
    if Matches(db, item) then
      db[item.id := Touched(db[item.id].(attempts := db[item.id].attempts + 1), visibleAfter)]
    else db
  }

  predicate SameResync(a: Relation, b: Relation) {
    a.tenant == b.tenant && a.relationType == b.relationType && a.relationId == b.relationId
  }

  predicate HasResync(db: Db, relation: Relation) {
    exists id :: id in db && db[id].resync && SameResync(db[id].relation, relation)
  }

  /** Queues a projection resync: a new row, or the row already queued made visible again. */
  function Upserted(db: Db, id: Id, relation: Relation, payloadDigest: Bytes, now: int): (d: Db) {
    if HasResync(db, relation) then
      map i | i in db :: if db[i].resync && SameResync(db[i].relation, relation) then Touched(db[i], now) else db[i]
    else db[id := Row(relation, payloadDigest, true, 0, now, now, None, 0)]
  }

  function ResyncDropped(db: Db, relation: Relation): (d: Db) {
    map i | i in db && !(db[i].resync && SameResync(db[i].relation, relation)) :: db[i]
  }

  // ----- workers and the rest of the service, step by step

  /** What a row was inserted with. */
  datatype Origin = Origin(relation: Relation, payloadDigest: Bytes, resync: bool)

  /**
   * The table, and what has happened so far: identifiers used, rows inserted, claims made, deliveries done, rows removed
   * by a worker, and relations whose resync was dropped.
   */
  datatype System = System(
    db: Db,
    used: set<Id>,
    inserted: map<Id, Origin>,
    claims: set<Item>,
    delivered: set<Item>,
    removed: set<Item>,
    dropped: set<Relation>)

  datatype Step =
    | Claim(chosen: set<Id>, locked: set<Id>, limit: nat, now: int)
    | Deliver(item: Item)
    | Complete(item: Item)
    | Reschedule(item: Item, visibleAfter: int)
    | Insert(id: Id, relation: Relation, payloadDigest: Bytes, now: int)
    | QueueResync(id: Id, relation: Relation, payloadDigest: Bytes, now: int)
    | DropResync(relation: Relation)

  /** Workers complete only what they delivered, and new rows get new identifiers. */
  predicate Enabled(s: System, step: Step) {
    match step
    case Claim(chosen, locked, limit, now) => IsClaim(s.db, locked, limit, now, chosen)
    case Deliver(item) => item in s.claims
    case Complete(item) => item in s.delivered
    case Reschedule(item, _) => item in s.claims
    case Insert(id, _, _, _) => id !in s.used
    case QueueResync(id, _, _, _) => id !in s.used
    case DropResync(_) => true
  }

  function Next(s: System, step: Step): (t: System)
    requires Enabled(s, step)
  {
    match step
    case Claim(chosen, _, _, now) =>
      var db := Claimed(s.db, chosen, now);
      s.(db := db, claims := s.claims + ItemsOf(db, chosen))
    case Deliver(item) => s.(delivered := s.delivered + {item})
    case Complete(item) =>
      s.(db := Completed(s.db, item), removed := if Matches(s.db, item) then s.removed + {item} else s.removed)
    case Reschedule(item, visibleAfter) => s.(db := Rescheduled(s.db, item, visibleAfter))
    case Insert(id, relation, payloadDigest, now) =>
      s.(db := s.db[id := Row(relation, payloadDigest, false, 0, now, now, None, 0)], used := s.used + {id},
         inserted := s.inserted[id := Origin(relation, payloadDigest, false)])
    case QueueResync(id, relation, payloadDigest, now) =>
      s.(db := Upserted(s.db, id, relation, payloadDigest, now), used := s.used + {id},
         inserted := if HasResync(s.db, relation) then s.inserted else s.inserted[id := Origin(relation, payloadDigest, true)])
    case DropResync(relation) => s.(db := ResyncDropped(s.db, relation), dropped := s.dropped + {relation})
  }

  // ----- what every reachable state satisfies

  /**
   * No claim of a row is newer than the row's generation, and a row claimed before has a claim at that generation; no
   * claim is newer than the one that removed its row.
   */
  ghost predicate Inv(s: System) {
    && s.db.Keys <= s.used
    && (forall c :: c in s.claims ==> c.id in s.used)
    && (forall c :: c in s.claims && c.id in s.db ==> c.generation <= s.db[c.id].generation && c.relation == s.db[c.id].relation)
    && (forall id :: id in s.db && s.db[id].generation > 0 ==> ItemOf(id, s.db[id]) in s.claims)
    && s.delivered <= s.claims && s.removed <= s.delivered
    && (forall r :: r in s.removed ==> r.id !in s.db)
    && (forall r, c :: r in s.removed && c in s.claims && c.id == r.id ==> c.generation <= r.generation)
  }

  /** Rows kept by a step that claims nothing keep their generation and what they are about; rows added were never claimed. */
  predicate SameClaims(db: Db, later: Db) {
    forall id :: id in later ==> if id in db then ItemOf(id, later[id]) == ItemOf(id, db[id]) else later[id].generation == 0
  }

  lemma UnclaimingKeeps(s: System, db: Db, used: set<Id>)
    requires Inv(s) && SameClaims(s.db, db) && s.used <= used && db.Keys <= used
    requires forall id :: id in db && id !in s.db ==> id !in s.used
    ensures Inv(s.(db := db, used := used))
  {
  }

  lemma ClaimKeeps(s: System, chosen: set<Id>, now: int)
    requires Inv(s) && chosen <= s.db.Keys
    ensures var db := Claimed(s.db, chosen, now);
      && Inv(s.(db := db, claims := s.claims + ItemsOf(db, chosen)))
      && forall c, d :: c in ItemsOf(db, chosen) && d in s.claims && c.id == d.id ==> d.generation < c.generation
  {
    var db := Claimed(s.db, chosen, now);
    var items := ItemsOf(db, chosen);
    forall c | c in items ensures c.id in chosen && c == ItemOf(c.id, db[c.id]) && c.generation == s.db[c.id].generation + 1 {
    }
    assert db.Keys == s.db.Keys;
  }

  /** Every step of every worker, and of everything else, keeps the invariant. */
  lemma StepKeeps(s: System, step: Step)
    requires Inv(s) && Enabled(s, step)
    ensures Inv(Next(s, step))
  {
    hide Inv, SameClaims, Due, Before;
    match step
    case Claim(chosen, _, _, now) => ClaimKeeps(s, chosen, now);
    case Deliver(item) => DeliverKeeps(s, item);
    case Complete(item) => CompleteKeeps(s, item);
    case Reschedule(item, visibleAfter) => RescheduleKeeps(s, item, visibleAfter);
    case Insert(id, relation, payloadDigest, now) => InsertKeeps(s, id, relation, payloadDigest, now);
    case QueueResync(id, relation, payloadDigest, now) => QueueKeeps(s, id, relation, payloadDigest, now);
    case DropResync(relation) => DropKeeps(s, relation);
  }

  lemma DeliverKeeps(s: System, item: Item)
    requires Inv(s) && item in s.claims
    ensures Inv(s.(delivered := s.delivered + {item}))
  {
  }

  lemma CompleteKeeps(s: System, item: Item)
    requires Inv(s) && item in s.delivered
    ensures Inv(Next(s, Complete(item)))
  {
  }

  lemma RescheduleKeeps(s: System, item: Item, visibleAfter: int)
    requires Inv(s) && item in s.claims
    ensures Inv(Next(s, Reschedule(item, visibleAfter)))
  {
    var db := Rescheduled(s.db, item, visibleAfter);
    assert db.Keys == s.db.Keys;
    UnclaimingKeeps(s, db, s.used);
  }

  lemma InsertKeeps(s: System, id: Id, relation: Relation, payloadDigest: Bytes, now: int)
    requires Inv(s) && id !in s.used
    ensures Inv(Next(s, Insert(id, relation, payloadDigest, now)))
  {
    UnclaimingKeeps(s, s.db[id := Row(relation, payloadDigest, false, 0, now, now, None, 0)], s.used + {id});
  }

  lemma QueueKeeps(s: System, id: Id, relation: Relation, payloadDigest: Bytes, now: int)
    requires Inv(s) && id !in s.used
    ensures Inv(Next(s, QueueResync(id, relation, payloadDigest, now)))
  {
    UnclaimingKeeps(s, Upserted(s.db, id, relation, payloadDigest, now), s.used + {id});
  }

  lemma DropKeeps(s: System, relation: Relation)
    requires Inv(s)
    ensures Inv(Next(s, DropResync(relation)))
  {
    UnclaimingKeeps(s, ResyncDropped(s.db, relation), s.used);
  }

  // ----- whole runs

  predicate AllEnabled(s: System, steps: seq<Step>)
    decreases |steps|
  {
    steps == [] || (Enabled(s, steps[0]) && AllEnabled(Next(s, steps[0]), steps[1..]))
  }

  function Run(s: System, steps: seq<Step>): (t: System)
    requires AllEnabled(s, steps)
    decreases |steps|
  {
    if steps == [] then s else Run(Next(s, steps[0]), steps[1..])
  }

  const START: System := System(map[], {}, map[], {}, {}, {}, {})

  lemma {:induction false} RunKeeps(s: System, steps: seq<Step>)
    requires Inv(s) && AllEnabled(s, steps)
    ensures Inv(Run(s, steps))
    ensures s.claims <= Run(s, steps).claims && s.removed <= Run(s, steps).removed && s.delivered <= Run(s, steps).delivered
    decreases |steps|
  {
    hide Inv, Enabled;
    if steps != [] {
      StepKeeps(s, steps[0]);
      HistoryGrows(s, steps[0]);
      RunKeeps(Next(s, steps[0]), steps[1..]);
    }
  }

  /** Each row and generation belongs to at most one claim: a new claim of a row is above every claim it ever had. */
  lemma GenerationClaimedOnce(steps: seq<Step>, chosen: set<Id>, locked: set<Id>, limit: nat, now: int)
    requires AllEnabled(START, steps) && Enabled(Run(START, steps), Claim(chosen, locked, limit, now))
    ensures var s := Run(START, steps);
      forall c, d :: c in ItemsOf(Claimed(s.db, chosen, now), chosen) && d in s.claims && c.id == d.id ==> d.generation < c.generation
  {
    hide Run, AllEnabled;
    RunKeeps(START, steps);
    ClaimKeeps(Run(START, steps), chosen, now);
  }

  /** A completion or reschedule that takes effect was made under the newest claim of its row. */
  lemma EffectNeedsNewestClaim(steps: seq<Step>, item: Item, other: Item)
    requires AllEnabled(START, steps)
    requires var s := Run(START, steps); item in s.claims && other in s.claims && other.id == item.id && Matches(s.db, item)
    ensures other.generation <= item.generation
  {
    hide Run, AllEnabled;
    RunKeeps(START, steps);
  }

  /** Of the claims of a row that is still there, the newest can take effect, and no other. */
  lemma EffectExactlyForNewest(steps: seq<Step>, item: Item)
    requires AllEnabled(START, steps)
    requires var s := Run(START, steps); item in s.claims && item.id in s.db
    ensures var s := Run(START, steps);
      Matches(s.db, item) <==> forall other :: other in s.claims && other.id == item.id ==> other.generation <= item.generation
  {
    hide Run, AllEnabled;
    RunKeeps(START, steps);
    var s := Run(START, steps);
    if s.db[item.id].generation > 0 {
      assert ItemOf(item.id, s.db[item.id]) in s.claims;
    }
  }

  /** A row that a worker removed was delivered under its latest generation, then and forever. */
  lemma RemovedWasDelivered(steps: seq<Step>, more: seq<Step>, item: Item)
    requires AllEnabled(START, steps) && item in Run(START, steps).removed
    requires AllEnabled(Run(START, steps), more)
    ensures var t := Run(Run(START, steps), more);
      && item in t.delivered && item.id !in t.db
      && forall c :: c in t.claims && c.id == item.id ==> c.generation <= item.generation
  {
    hide Run, AllEnabled;
    RunKeeps(START, steps);
    RunKeeps(Run(START, steps), more);
  }

  // ----- leases and retry times

  /** While its lease runs and its visibility time stands, a claimed row is not due to anyone else. */
  lemma LeaseExcludes(row: Row, now: int, later: int)
    requires later < now + LEASE
    ensures !Due(Leased(row, now), later)
  {
  }

  /** A reschedule to another time frees the row exactly from that time on; to the same time, the lease still counts. */
  lemma RetryTimeRules(db: Db, item: Item, visibleAfter: int, later: int)
    requires Matches(db, item)
    ensures var row := Rescheduled(db, item, visibleAfter)[item.id];
      && row.attempts == db[item.id].attempts + 1 && row.generation == item.generation
      && (if visibleAfter != db[item.id].visibleAfter then Due(row, later) <==> later >= visibleAfter
          else Due(row, later) <==> Due(db[item.id], later))
  {
  }

  // ----- one worker's pass, among others

  /** How a row's turn ends; a completion that throws may have committed, and its row is rescheduled all the same. */
  datatype Outcome =
    | Settled
    | NotDelivered(retryAt: int)
    | Unanswered(committed: bool, retryAt: int)

  /** Rescheduling a row whose completion did commit changes nothing: a removed row stays removed. */
  lemma LateRescheduleIsHarmless(steps: seq<Step>, item: Item, visibleAfter: int)
    requires AllEnabled(START, steps) && item in Run(START, steps).removed
    ensures Rescheduled(Run(START, steps).db, item, visibleAfter) == Run(START, steps).db
  {
    hide Run, AllEnabled;
    RunKeeps(START, steps);
  }

  class Service {
    var s: System

    constructor ()
      ensures s == START
    {
      s := START;
    }

    method Do(step: Step)
      requires Inv(s) && Enabled(s, step)
      modifies this
      ensures s == Next(old(s), step) && Inv(s)
      ensures old(s).removed <= s.removed && old(s).claims <= s.claims && old(s).delivered <= s.delivered
    {
      hide Inv, Enabled;
      StepKeeps(s, step);
      HistoryGrows(s, step);
      s := Next(s, step);
    }

    /** Whatever the other workers and the service do in between. */
    method Others(steps: seq<Step>)
      requires Inv(s)
      modifies this
      ensures Inv(s)
      ensures old(s).removed <= s.removed && old(s).claims <= s.claims && old(s).delivered <= s.delivered
    {
      hide Inv, Enabled, Next;
      var n := 0;
      while n < |steps|
        invariant Inv(s)
        invariant old(s).removed <= s.removed && old(s).claims <= s.claims && old(s).delivered <= s.delivered
      {
        if Enabled(s, steps[n]) {
          Do(steps[n]);
        }
        n := n + 1;
      }
    }

    /**
     * Claims, then delivers and settles row after row; `outcome` says how each turns out, and `others` what runs
     * between any two of the worker's transactions. What the pass reports was delivered and removed under its claim.
     */
    method RunOnce(claim: Step, order: seq<Id>, outcome: Item -> Outcome, others: nat -> seq<Step>) returns (completed: seq<Id>)
      requires Inv(s) && claim.Claim? && Enabled(s, claim)
      requires forall id :: id in order <==> id in claim.chosen
      modifies this
      ensures Inv(s)
      ensures forall id :: id in completed ==> id in old(s).db && exists item ::
        item in s.removed && item.id == id && outcome(item).Settled? && item.generation == old(s).db[id].generation + 1
    {
      hide Inv, Enabled, Next;
      ChosenRows(s, claim);
      var db := Claimed(s.db, claim.chosen, claim.now);
      Do(claim);
      ClaimAdds(old(s), claim);
      completed := [];
      var n := 0;
      while n < |order|
        invariant Inv(s) && n <= |order| && ItemsOf(db, claim.chosen) <= s.claims
        invariant forall id :: id in completed ==> id in claim.chosen && exists item ::
          item in s.removed && item.id == id && outcome(item).Settled? && item.generation == db[id].generation
      {
        assert order[n] in order;
        var item := ItemOf(order[n], db[order[n]]);
        assert item in ItemsOf(db, claim.chosen);
        Others(others(3 * n));
        var how := outcome(item);
        var took := false;
        if !how.NotDelivered? {
          DeliverEnabled(s, item);
          Do(Deliver(item));
          Others(others(3 * n + 1));
          if how.Settled? || how.committed {
            took := how.Settled? && Matches(s.db, item);
            CompleteEnabled(s, item);
            Do(Complete(item));
          }
        }
        if took {
          completed := completed + [item.id];
        }
        if !how.Settled? {
          Others(others(3 * n + 2));
          RescheduleEnabled(s, item, how.retryAt);
          Do(Reschedule(item, how.retryAt));
        }
        n := n + 1;
      }
    }
  }

  lemma HistoryGrows(s: System, step: Step)
    requires Enabled(s, step)
    ensures var t := Next(s, step); s.removed <= t.removed && s.claims <= t.claims && s.delivered <= t.delivered
    ensures step.Deliver? ==> step.item in Next(s, step).delivered
    ensures step.Complete? && Matches(s.db, step.item) ==> step.item in Next(s, step).removed
  {
  }

  lemma ChosenRows(s: System, claim: Step)
    requires claim.Claim? && Enabled(s, claim)
    ensures claim.chosen <= s.db.Keys
  {
  }

  lemma ClaimAdds(s: System, claim: Step)
    requires claim.Claim? && Enabled(s, claim)
    ensures claim.chosen <= Claimed(s.db, claim.chosen, claim.now).Keys
    ensures ItemsOf(Claimed(s.db, claim.chosen, claim.now), claim.chosen) <= Next(s, claim).claims
  {
  }

  lemma DeliverEnabled(s: System, item: Item)
    requires item in s.claims
    ensures Enabled(s, Deliver(item)) && item in Next(s, Deliver(item)).delivered
  {
  }

  lemma CompleteEnabled(s: System, item: Item)
    requires item in s.delivered
    ensures Enabled(s, Complete(item))
    ensures Matches(s.db, item) ==> item in Next(s, Complete(item)).removed
  {
  }

  lemma RescheduleEnabled(s: System, item: Item, visibleAfter: int)
    requires item in s.claims
    ensures Enabled(s, Reschedule(item, visibleAfter))
  {
  }
}
