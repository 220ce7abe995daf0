/** The service's table of one request's lifecycle events, which counts from zero and links by digest. */
module ServiceProjection {
  import opened ByteStrings
  import opened Results

  const MAX_SAFE_INTEGER: nat := 0x1f_ffff_ffff_ffff

  datatype ServiceEvent = ServiceEvent(sequence: int, digest: Bytes, previous: Option<Bytes>, state: string)

  datatype ProjectionRow = ProjectionRow(digest: Bytes, state: string)

  datatype SyncState = SyncState(frozen: bool, lastVerified: int)

  /** The rows keyed by sequence, the sync row if there is one, and whether a resync is queued. */
  datatype Table = Table(rows: map<nat, ProjectionRow>, sync: Option<SyncState>, resyncQueued: bool)

  datatype ProjectionError = InvalidEvent | EmptyResync | BrokenChain | DigestTaken

  datatype ApplyResult = Applied | AlreadyApplied | FrozenForGap

  predicate KnownState(s: string) {
    s in {"awaiting_event", "pending", "approved", "executing", "succeeded", "failed", "cancelled", "expired", "stale", "recovery_required"}
  }

  predicate ValidEvent(e: ServiceEvent) {
    && 0 <= e.sequence <= MAX_SAFE_INTEGER
    && |e.digest| == 32 && (e.previous.Some? ==> |e.previous.value| == 32)
    && KnownState(e.state)
  }

  // ----- the table's queries

  predicate IsLast(rows: map<nat, ProjectionRow>, n: nat) {
    n in rows && forall m :: m in rows ==> m <= n
  }

  lemma {:induction false} LastExists(rows: map<nat, ProjectionRow>)
    requires rows != map[]
    ensures exists n :: IsLast(rows, n)
    decreases |rows|
  {
    var x :| x in rows;
    var rest := rows - {x};
    assert forall m :: m in rows && m != x ==> m in rest;
    if rest == map[] {
      assert IsLast(rows, x);
    } else {
      assert rest.Keys == rows.Keys - {x};
      LastExists(rest);
      var y :| IsLast(rest, y);
      assert IsLast(rows, if x < y then y else x);
    }
  }

  /** The row a descending scan returns first. */
  function Tail(rows: map<nat, ProjectionRow>): (n: nat)
    requires rows != map[]
    ensures IsLast(rows, n)
  {
    LastExists(rows);
    var n :| n in rows && IsLast(rows, n);
    n
  }

  predicate DigestUsed(rows: map<nat, ProjectionRow>, digest: Bytes) {
    exists n :: n in rows && rows[n].digest == digest
  }

  // ----- applying one event

  function Frozen(t: Table): (u: Table) {
    t.(sync := Some(if t.sync.Some? then t.sync.value.(frozen := true) else SyncState(true, -1)), resyncQueued := true)
  }

  predicate Continues(t: Table, e: ServiceEvent) {
    if t.rows == map[] then e.sequence == 0 && e.previous == None
    else e.sequence == Tail(t.rows) + 1 && e.previous == Some(t.rows[Tail(t.rows)].digest)
  }

  function Apply(t: Table, e: ServiceEvent): (r: Result<(Table, ApplyResult), ProjectionError>) {
    if !ValidEvent(e) then Err(InvalidEvent)
    else if e.sequence in t.rows then
      Ok(if t.rows[e.sequence].digest == e.digest then (t, AlreadyApplied) else (Frozen(t), FrozenForGap))
    else if !Continues(t, e) then Ok((Frozen(t), FrozenForGap))
    else if DigestUsed(t.rows, e.digest) then Err(DigestTaken)
    else Ok((t.(rows := t.rows[e.sequence := ProjectionRow(e.digest, e.state)], sync := Some(SyncState(false, e.sequence))), Applied))
  }

  function After(t: Table, e: ServiceEvent): (u: Table) {
    if Apply(t, e).Ok? then Apply(t, e).value.0 else t
  }

  // ----- replacing the table from a verified chain

  predicate LinkedAt(events: seq<ServiceEvent>, i: nat)
    requires i < |events|
  {
    events[i].sequence == i && events[i].previous == (if i == 0 then None else Some(events[i - 1].digest))
  }

  predicate Contiguous(events: seq<ServiceEvent>) {
    forall i :: 0 <= i < |events| ==> LinkedAt(events, i)
  }

  function RowsOf(events: seq<ServiceEvent>): (rows: map<nat, ProjectionRow>) {
    map i: nat | i < |events| :: ProjectionRow(events[i].digest, events[i].state)
  }

  predicate DigestsDiffer(events: seq<ServiceEvent>) {
    forall i, j :: 0 <= i < j < |events| ==> events[i].digest != events[j].digest
  }

  function Replace(t: Table, events: seq<ServiceEvent>): (r: Result<Table, ProjectionError>) {
    if events == [] then Err(EmptyResync)
    else if exists i :: 0 <= i < |events| && !ValidEvent(events[i]) then Err(InvalidEvent)
    else if !Contiguous(events) then Err(BrokenChain)
    else if !DigestsDiffer(events) then Err(DigestTaken)
    else Ok(Table(RowsOf(events), Some(SyncState(false, |events| - 1)), false))
  }

  // ----- the repository

  method ChainIsContiguous(events: seq<ServiceEvent>) returns (ok: bool)
    ensures ok == Contiguous(events)
  {
    var prior: Option<Bytes> := None;
    var index := 0;
    while index < |events|
      invariant index <= |events| && forall i :: 0 <= i < index ==> LinkedAt(events, i)
      invariant prior == (if index == 0 then None else Some(events[index - 1].digest))
    {
      var e := events[index];
      if e.sequence != index || e.previous != prior {
        assert !LinkedAt(events, index);
        return false;
      }
      prior := Some(e.digest);
      index := index + 1;
    }
    return true;
  }

  class Repository {
    var rows: map<nat, ProjectionRow>
    var sync: Option<SyncState>
    var resyncQueued: bool

    function Value(): (t: Table)
      reads this
    {
      Table(rows, sync, resyncQueued)
    }

    constructor ()
      ensures Value() == Table(map[], None, false)
    {
      rows, sync, resyncQueued := map[], None, false;
    }

    method FreezeAndQueueResync()
      modifies this
      ensures Value() == Frozen(old(Value()))
    {
      sync := Some(if sync.Some? then sync.value.(frozen := true) else SyncState(true, -1));
      resyncQueued := true;
    }

    method ApplyVerifiedEvent(e: ServiceEvent) returns (r: Result<ApplyResult, ProjectionError>)
      modifies this
      ensures match Apply(old(Value()), e)
        case Ok((t, a)) => Value() == t && r == Ok(a)
        case Err(error) => Value() == old(Value()) && r == Err(error)
    {
      hide KnownState;
      if !ValidEvent(e) {
        return Err(InvalidEvent);
      }
      if e.sequence in rows {
        if rows[e.sequence].digest == e.digest {
          return Ok(AlreadyApplied);
        }
        FreezeAndQueueResync();
        return Ok(FrozenForGap);
      }
      var expected, last := 0, None;
      if rows != map[] {
        var n := Tail(rows);
        expected, last := n + 1, Some(rows[n].digest);
      }
      if e.sequence != expected || e.previous != last {
        FreezeAndQueueResync();
        return Ok(FrozenForGap);
      }
      if DigestUsed(rows, e.digest) {
        return Err(DigestTaken);
      }
      rows := rows[e.sequence := ProjectionRow(e.digest, e.state)];
      sync := Some(SyncState(false, e.sequence));
      return Ok(Applied);
    }

    method ReplaceFromVerifiedResync(events: seq<ServiceEvent>) returns (r: Result<(), ProjectionError>)
      modifies this
      ensures match Replace(old(Value()), events)
        case Ok(t) => Value() == t && r == Ok(())
        case Err(error) => Value() == old(Value()) && r == Err(error)
    {
      hide ValidEvent;
      if events == [] {
        return Err(EmptyResync);
      }
      if exists i :: 0 <= i < |events| && !ValidEvent(events[i]) {
        return Err(InvalidEvent);
      }
      var contiguous := ChainIsContiguous(events);
      if !contiguous {
        return Err(BrokenChain);
      }
      var replacement: map<nat, ProjectionRow> := map[];
      var n := 0;
      while n < |events|
        invariant n <= |events| && unchanged(this)
        invariant replacement == RowsOf(events[..n]) && DigestsDiffer(events[..n])
      {
        if DigestUsed(replacement, events[n].digest) {
          RepeatedDigest(events, n);
          return Err(DigestTaken);
        }
        DigestsGrow(events, n);
        replacement := replacement[n := ProjectionRow(events[n].digest, events[n].state)];
        n := n + 1;
      }
      assert events[..n] == events;
      rows := replacement;
      sync := Some(SyncState(false, events[|events| - 1].sequence));
      resyncQueued := false;
      assert LinkedAt(events, |events| - 1);
      return Ok(());
    }
  }

  lemma RepeatedDigest(events: seq<ServiceEvent>, n: nat)
    requires n < |events| && DigestUsed(RowsOf(events[..n]), events[n].digest)
    ensures !DigestsDiffer(events)
  {
    var m :| m in RowsOf(events[..n]) && RowsOf(events[..n])[m].digest == events[n].digest;
    assert events[m].digest == events[n].digest;
  }

  lemma DigestsGrow(events: seq<ServiceEvent>, n: nat)
    requires n < |events| && DigestsDiffer(events[..n]) && !DigestUsed(RowsOf(events[..n]), events[n].digest)
    ensures DigestsDiffer(events[..n + 1])
    ensures RowsOf(events[..n + 1]) == RowsOf(events[..n])[n := ProjectionRow(events[n].digest, events[n].state)]
  {
    var rows := RowsOf(events[..n]);
    forall i | 0 <= i < n ensures events[i].digest != events[n].digest {
      assert rows[i].digest == events[i].digest;
    }
  }

  // ----- no gaps, whatever arrives

  /** Rows 0 to n-1 and nothing else, and a sync row that says so. */
  ghost predicate GapFree(t: Table, n: nat) {
    && (forall i: nat :: i in t.rows <==> i < n)
    && (if t.sync.Some? then t.sync.value.lastVerified == n - 1 else n == 0)
  }

  lemma TailOf(t: Table, n: nat)
    requires GapFree(t, n)
    ensures t.rows == map[] <==> n == 0
    ensures n > 0 ==> t.rows != map[] && Tail(t.rows) == n - 1
  {
    if n > 0 {
      assert n - 1 in t.rows;
    } else {
      assert t.rows.Keys == {};
    }
  }

  /** Any event at all keeps the table gap-free, and adds at most the next row. */
  lemma ApplyKeepsGapFree(t: Table, e: ServiceEvent, n: nat)
    requires GapFree(t, n)
    ensures if Apply(t, e).Ok? && Apply(t, e).value.1 == Applied then e.sequence == n && GapFree(After(t, e), n + 1) && !After(t, e).sync.value.frozen
            else GapFree(After(t, e), n) && After(t, e).rows == t.rows
  {
    hide ValidEvent, Tail, DigestUsed;
    TailOf(t, n);
  }

  /** The digest that the event after `n` rows must link to. */
  function LinkAfter(t: Table, n: nat): (d: Option<Bytes>)
    requires GapFree(t, n)
  {
    if n == 0 then None else Some(t.rows[n - 1].digest)
  }

  /** Frozen with a resync queued; the rows and the last verified number as they were. */
  predicate FrozenFrom(t: Table, u: Table) {
    && u.rows == t.rows && u.resyncQueued
    && u.sync == Some(SyncState(true, if t.sync.Some? then t.sync.value.lastVerified else -1))
  }

  /**
   * What an event does to a gap-free table, told from its number, digest and link alone: a stored number is a duplicate
   * under the stored digest and a conflict under another; a number past the next, or the next with a wrong link, is a gap;
   * the next with the right link is taken, and unfreezes, unless its digest is taken.
   */
  lemma ApplyExactly(t: Table, e: ServiceEvent, n: nat)
    requires GapFree(t, n)
    ensures var o := Apply(t, e);
      if !(0 <= e.sequence <= 0x1f_ffff_ffff_ffff && |e.digest| == 32 && (e.previous.Some? ==> |e.previous.value| == 32) && KnownState(e.state)) then
        o == Err(InvalidEvent)
      else if e.sequence < n && t.rows[e.sequence].digest == e.digest then o == Ok((t, AlreadyApplied))
      else if e.sequence != n || e.previous != LinkAfter(t, n) then
        o.Ok? && o.value.1 == FrozenForGap && FrozenFrom(t, o.value.0)
      else if exists i :: 0 <= i < n && t.rows[i].digest == e.digest then o == Err(DigestTaken)
      else
        && o.Ok? && o.value.1 == Applied && o.value.0.rows == t.rows[n := ProjectionRow(e.digest, e.state)]
        && o.value.0.sync == Some(SyncState(false, n)) && o.value.0.resyncQueued == t.resyncQueued
  {
    hide KnownState, Tail;
    TailOf(t, n);
  }

  /** A resync is taken exactly when it is a whole chain from zero of valid events with distinct digests; then it is all the table holds. */
  lemma ReplaceExactly(t: Table, events: seq<ServiceEvent>)
    ensures var o := Replace(t, events);
      && (o.Ok? <==>
            && events != [] && (forall e :: e in events ==> ValidEvent(e))
            && (forall i :: 0 <= i < |events| ==> events[i].sequence == i)
            && events[0].previous == None && (forall i :: 0 < i < |events| ==> LinksBack(events, i))
            && (forall i, j :: 0 <= i < j < |events| ==> events[i].digest != events[j].digest))
      && (o.Ok? ==>
            && (forall i: nat :: i in o.value.rows <==> i < |events|)
            && (forall i :: 0 <= i < |events| ==> o.value.rows[i] == ProjectionRow(events[i].digest, events[i].state))
            && o.value.sync == Some(SyncState(false, |events| - 1)) && !o.value.resyncQueued)
  {
    hide ValidEvent, Contiguous;
    ContiguousIs(events);
    assert (forall e :: e in events ==> ValidEvent(e)) <==> (forall i :: 0 <= i < |events| ==> ValidEvent(events[i]));
  }

  lemma ContiguousIs(events: seq<ServiceEvent>)
    ensures Contiguous(events) <==>
      && (forall i :: 0 <= i < |events| ==> events[i].sequence == i)
      && (events != [] ==> events[0].previous == None) && forall i :: 0 < i < |events| ==> LinksBack(events, i)
  {
    forall i | 0 <= i < |events| ensures LinkedAt(events, i) <==> events[i].sequence == i && (if i == 0 then events[0].previous == None else LinksBack(events, i)) {
    }
    if Contiguous(events) {
      forall i | 0 <= i < |events| ensures events[i].sequence == i {
        assert LinkedAt(events, i);
      }
      forall i | 0 < i < |events| ensures LinksBack(events, i) {
        assert LinkedAt(events, i);
      }
      assert events != [] ==> LinkedAt(events, 0);
    }
  }

  predicate LinksBack(events: seq<ServiceEvent>, i: nat)
    requires 0 < i < |events|
  {
    events[i].previous == Some(events[i - 1].digest)
  }

  lemma ReplaceInstalls(t: Table, events: seq<ServiceEvent>)
    requires Replace(t, events).Ok?
    ensures GapFree(Replace(t, events).value, |events|) && HoldsRows(Replace(t, events).value, events, |events|)
  {
    hide ValidEvent;
  }

  // ----- a prefix of one true chain

  predicate HoldsRows(t: Table, chain: seq<ServiceEvent>, n: nat) {
    n <= |chain| && forall i :: 0 <= i < n ==> i in t.rows && t.rows[i] == ProjectionRow(chain[i].digest, chain[i].state)
  }

  ghost predicate HoldsPrefixOf(t: Table, chain: seq<ServiceEvent>) {
    exists n: nat :: GapFree(t, n) && HoldsRows(t, chain, n)
  }

  /** What may reach the repository: events of the chain, and resyncs that are prefixes of it. */
  datatype Arrival = Event(e: ServiceEvent) | Resync(events: seq<ServiceEvent>)

  predicate FromChain(chain: seq<ServiceEvent>, a: Arrival) {
    match a
    case Event(e) => e in chain
    case Resync(events) => events <= chain
  }

  function Arrive(t: Table, a: Arrival): (u: Table) {
    match a
    case Event(e) => After(t, e)
    case Resync(events) => if Replace(t, events).Ok? then Replace(t, events).value else t
  }

  function ArriveAll(t: Table, arrivals: seq<Arrival>): (u: Table) {
    if arrivals == [] then t else Arrive(ArriveAll(t, arrivals[..|arrivals| - 1]), arrivals[|arrivals| - 1])
  }

  lemma ApplyKeepsPrefix(t: Table, chain: seq<ServiceEvent>, e: ServiceEvent, n: nat)
    requires Contiguous(chain) && GapFree(t, n) && HoldsRows(t, chain, n) && e in chain
    ensures HoldsPrefixOf(After(t, e), chain)
  {
    hide ValidEvent, Tail, DigestUsed, Apply;
    var i :| 0 <= i < |chain| && chain[i] == e;
    assert LinkedAt(chain, i);
    ApplyKeepsGapFree(t, e, n);
    AppliedRow(t, e);
    if Apply(t, e).Ok? && Apply(t, e).value.1 == Applied {
      assert HoldsRows(After(t, e), chain, n + 1);
    } else {
      assert HoldsRows(After(t, e), chain, n);
    }
  }

  lemma AppliedRow(t: Table, e: ServiceEvent)
    ensures Apply(t, e).Ok? && Apply(t, e).value.1 == Applied ==>
      e.sequence >= 0 && After(t, e).rows == t.rows[e.sequence := ProjectionRow(e.digest, e.state)]
  {
    hide KnownState, Tail, DigestUsed;
  }

  /** However one true chain arrives, and with whatever resyncs to it, the table holds exactly a gap-free prefix of it. */
  lemma {:induction false} TableHoldsPrefix(t: Table, chain: seq<ServiceEvent>, arrivals: seq<Arrival>)
    requires Contiguous(chain) && HoldsPrefixOf(t, chain)
    requires forall k :: 0 <= k < |arrivals| ==> FromChain(chain, arrivals[k])
    ensures HoldsPrefixOf(ArriveAll(t, arrivals), chain)
  {
    hide GapFree, HoldsRows, After, Replace, Contiguous;
    if arrivals != [] {
      var k := |arrivals| - 1;
      TableHoldsPrefix(t, chain, arrivals[..k]);
      var before := ArriveAll(t, arrivals[..k]);
      var n: nat :| GapFree(before, n) && HoldsRows(before, chain, n);
      assert FromChain(chain, arrivals[k]);
      match arrivals[k]
      case Event(e) => ApplyKeepsPrefix(before, chain, e, n);
      case Resync(events) =>
        if Replace(before, events).Ok? {
          ReplaceInstalls(before, events);
          RowsOfPrefix(Replace(before, events).value, events, chain);
        }
    }
  }

  lemma RowsOfPrefix(t: Table, events: seq<ServiceEvent>, chain: seq<ServiceEvent>)
    requires HoldsRows(t, events, |events|) && events <= chain
    ensures HoldsRows(t, chain, |events|)
  {
  }

  /** A true chain whose digests all differ is taken in whole when it arrives in order, and leaves nothing frozen. */
  lemma {:induction false} InOrderArrivesWhole(chain: seq<ServiceEvent>, n: nat)
    requires Contiguous(chain) && DigestsDiffer(chain) && n <= |chain| && forall i :: 0 <= i < |chain| ==> ValidEvent(chain[i])
    ensures var t := ArriveAll(Table(map[], None, false), seq(n, i requires 0 <= i < |chain| => Event(chain[i])));
      GapFree(t, n) && HoldsRows(t, chain, n) && (n > 0 ==> !t.sync.value.frozen)
  {
    hide ValidEvent, Tail, Contiguous;
    if n > 0 {
      var all := seq(n, i requires 0 <= i < |chain| => Event(chain[i]));
      var init := seq(n - 1, i requires 0 <= i < |chain| => Event(chain[i]));
      assert all[..n - 1] == init;
      InOrderArrivesWhole(chain, n - 1);
      NextArrives(ArriveAll(Table(map[], None, false), init), chain, n - 1);
    }
  }

  lemma NextArrives(t: Table, chain: seq<ServiceEvent>, n: nat)
    requires Contiguous(chain) && DigestsDiffer(chain) && n < |chain| && ValidEvent(chain[n])
    requires GapFree(t, n) && HoldsRows(t, chain, n)
    ensures GapFree(After(t, chain[n]), n + 1) && HoldsRows(After(t, chain[n]), chain, n + 1) && !After(t, chain[n]).sync.value.frozen
  {
    hide ValidEvent, Tail;
    TailOf(t, n);
    assert LinkedAt(chain, n);
    if n > 0 {
      assert LinkedAt(chain, n - 1);
    }
  }

  /** Unlike the relay's guard, a freeze ends as soon as the next event of the chain arrives. */
  lemma SuccessorUnfreezes(t: Table, e: ServiceEvent)
    requires ValidEvent(e) && e.sequence !in t.rows && Continues(t, e) && !DigestUsed(t.rows, e.digest)
    ensures Apply(Frozen(t), e).Ok? && Apply(Frozen(t), e).value.1 == Applied && !Apply(Frozen(t), e).value.0.sync.value.frozen
  {
    hide KnownState, Tail;
  }
}
