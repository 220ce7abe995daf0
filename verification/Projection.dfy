/** The hosted projections of one request's events: the relay's guard and the service's table. */
module Projection {
  import opened ByteStrings
  import opened Vocabulary
  import opened Results

  // ----- hostile delivery

  datatype Mutation = Deliver(index: nat) | Duplicate(index: nat) | Drop(index: nat)

  function Mutated<T>(input: seq<T>, m: Mutation): (r: seq<T>) {
    match m
    case Deliver(i) => if i < |input| then [input[i]] else []
    case Duplicate(i) => if i < |input| then [input[i], input[i]] else []
    case Drop(_) => []
  }

  function Delivery<T>(input: seq<T>, script: seq<Mutation>): (r: seq<T>)
    ensures forall x :: x in r ==> x in input
  {
    if script == [] then [] else Delivery(input, script[..|script| - 1]) + Mutated(input, script[|script| - 1])
  }

  method MutateDelivery<T>(input: seq<T>, script: seq<Mutation>) returns (output: seq<T>)
    ensures output == Delivery(input, script)
  {
    output := [];
    var n := 0;
    while n < |script|
      invariant n <= |script| && output == Delivery(input, script[..n])
    {
      assert script[..n + 1][..n] == script[..n];
      match script[n] {
        case Deliver(i) =>
          if i < |input| { output := output + [input[i]]; }
        case Duplicate(i) =>
          if i < |input| {
            output := output + [input[i]];
            output := output + [input[i]];
            assert output == Delivery(input, script[..n]) + [input[i], input[i]];
          }
        case Drop(_) =>
      }
      n := n + 1;
    }
    assert script[..n] == script;
  }

  // ----- the relay's guard, which counts from one

  datatype RelayEvent = RelayEvent(sequence: u64, digest: Digest)

  datatype IngestResult = Applied | Duplicated | FrozenGap

  /** `next` is zero until the first event, which stands for one. */
  datatype Guard = Guard(applied: map<u64, Digest>, next: u64, frozen: bool)

  const EMPTY: Guard := Guard(map[], 0, false)

  function NextSequence(g: Guard): (n: u64) {
    if g.next == 0 then 1 else g.next
  }

  function Ingest(g: Guard, e: RelayEvent): (r: (Guard, IngestResult)) {
    var expected := NextSequence(g);
    if g.frozen then (g, FrozenGap)
    else if e.sequence == expected then
      (Guard(g.applied[e.sequence := e.digest], if expected + 1 < U64_LIMIT then expected + 1 else U64_LIMIT - 1, false), Applied)
    else if e.sequence < expected && e.sequence in g.applied && g.applied[e.sequence] == e.digest then (g, Duplicated)
    else (g.(frozen := true), FrozenGap)
  }

  function IngestAll(g: Guard, events: seq<RelayEvent>): (r: Guard) {
    if events == [] then g else Ingest(IngestAll(g, events[..|events| - 1]), events[|events| - 1]).0
  }

  class ProjectionChain {
    var applied: map<u64, Digest>
    var nextSequence: u64
    var frozenGap: bool

    function Value(): (g: Guard)
      reads this
    {
      Guard(applied, nextSequence, frozenGap)
    }

    constructor ()
      ensures Value() == EMPTY
    {
      applied, nextSequence, frozenGap := map[], 0, false;
    }

    method IngestEvent(e: RelayEvent) returns (r: IngestResult)
      modifies this
      ensures (Value(), r) == Ingest(old(Value()), e)
    {
      if frozenGap {
        return FrozenGap;
      }
      var expected := NextSequence(Value());
      if e.sequence == expected {
        applied := applied[e.sequence := e.digest];
        nextSequence := if expected + 1 < U64_LIMIT then expected + 1 else U64_LIMIT - 1;
        return Applied;
      }
      if e.sequence < expected && e.sequence in applied && applied[e.sequence] == e.digest {
        return Duplicated;
      }
      frozenGap := true;
      return FrozenGap;
    }

    /** Builds a candidate from nothing and adopts it only if every event applied. */
    method RestoreContiguous(events: seq<RelayEvent>) returns (ok: bool)
      modifies this
      ensures ok <==> AppliesAll(events)
      ensures Value() == if ok then IngestAll(EMPTY, events) else old(Value())
    {
      var candidate := new ProjectionChain();
      var n := 0;
      while n < |events|
        invariant n <= |events| && fresh(candidate) && candidate != this && unchanged(this)
        invariant candidate.Value() == IngestAll(EMPTY, events[..n])
        invariant AppliesAll(events[..n])
      {
        assert events[..n + 1][..n] == events[..n];
        AppliesPrefix(events, n + 1);
        var r := candidate.IngestEvent(events[n]);
        if r != Applied {
          return false;
        }
        n := n + 1;
      }
      assert events[..n] == events;
      applied, nextSequence, frozenGap := candidate.applied, candidate.nextSequence, candidate.frozenGap;
      return true;
    }
  }

  /** Each event in turn is the next one expected. */
  ghost predicate AppliesAll(events: seq<RelayEvent>) {
    forall k :: 0 <= k < |events| ==> Ingest(IngestAll(EMPTY, events[..k]), events[k]).1 == Applied
  }

  lemma AppliesPrefix(events: seq<RelayEvent>, n: nat)
    requires n <= |events|
    ensures AppliesAll(events) ==> AppliesAll(events[..n])
    ensures 0 < n && AppliesAll(events[..n - 1]) && Ingest(IngestAll(EMPTY, events[..n - 1]), events[n - 1]).1 == Applied ==> AppliesAll(events[..n])
  {
    hide Ingest, IngestAll;
    forall k | 0 <= k <= n ensures events[..n][..k] == events[..k] {
    }
    if n > 0 {
      forall k | 0 <= k < n ensures events[..n - 1][..k] == events[..k] {
      }
    }
  }

  // ----- the guard holds a gap-free prefix

  /** A true chain in the relay's numbering: event `i` has sequence `i + 1`. */
  predicate RelayChain(chain: seq<RelayEvent>) {
    |chain| < U64_LIMIT - 1 && forall i :: 0 <= i < |chain| ==> chain[i].sequence == i + 1
  }

  /** `g` holds exactly the first `n` events of `chain`. */
  ghost predicate HoldsFirst(g: Guard, chain: seq<RelayEvent>, n: nat) {
    && n <= |chain| && NextSequence(g) == n + 1
    && (forall s: u64 :: s in g.applied <==> 1 <= s <= n)
    && forall i :: 0 <= i < n ==> i + 1 in g.applied && g.applied[i + 1] == chain[i].digest
  }

  lemma IngestTrueEvent(g: Guard, chain: seq<RelayEvent>, n: nat, i: nat)
    requires RelayChain(chain) && HoldsFirst(g, chain, n) && i < |chain|
    ensures var (h, r) := Ingest(g, chain[i]);
      if g.frozen then h == g && r == FrozenGap
      else if i == n then r == Applied && !h.frozen && HoldsFirst(h, chain, n + 1)
      else if i < n then r == Duplicated && h == g
      else r == FrozenGap && h.frozen && HoldsFirst(h, chain, n)
  {
  }

  /**
   * What any event at all does to a guard that holds the first `n` of a chain: the next number is applied, an applied
   * number with its own digest is a duplicate, and anything else freezes.
   */
  lemma IngestExactly(g: Guard, chain: seq<RelayEvent>, n: nat, e: RelayEvent)
    requires RelayChain(chain) && HoldsFirst(g, chain, n)
    ensures Ingest(g, e) ==
      if g.frozen then (g, FrozenGap)
      else if e.sequence == n + 1 then (Guard(g.applied[n + 1 := e.digest], if n + 2 < U64_LIMIT then n + 2 else U64_LIMIT - 1, false), Applied)
      else if 1 <= e.sequence <= n && chain[e.sequence - 1].digest == e.digest then (g, Duplicated)
      else (g.(frozen := true), FrozenGap)
  {
    if 1 <= e.sequence <= n {
      var i := e.sequence - 1;
      assert g.applied[i + 1] == chain[i].digest;
    }
  }

  ghost predicate HoldsPrefix(g: Guard, chain: seq<RelayEvent>) {
    exists n: nat :: HoldsFirst(g, chain, n)
  }

  /** However the events of one true chain are dropped, repeated or reordered, the guard holds a gap-free prefix of it. */
  lemma {:induction false} GuardHoldsPrefix(g: Guard, chain: seq<RelayEvent>, delivered: seq<RelayEvent>)
    requires RelayChain(chain) && HoldsPrefix(g, chain) && forall e :: e in delivered ==> e in chain
    ensures HoldsPrefix(IngestAll(g, delivered), chain)
    ensures g.frozen ==> IngestAll(g, delivered) == g
  {
    hide HoldsFirst, Ingest;
    if delivered != [] {
      var k := |delivered| - 1;
      GuardHoldsPrefix(g, chain, delivered[..k]);
      var before := IngestAll(g, delivered[..k]);
      var n: nat :| HoldsFirst(before, chain, n);
      assert delivered[k] in chain;
      var i :| 0 <= i < |chain| && chain[i] == delivered[k];
      IngestTrueEvent(before, chain, n, i);
      assert HoldsFirst(Ingest(before, delivered[k]).0, chain, n) || HoldsFirst(Ingest(before, delivered[k]).0, chain, n + 1);
    }
  }

  lemma EmptyHoldsNothing(chain: seq<RelayEvent>)
    ensures HoldsFirst(EMPTY, chain, 0)
  {
  }

  /** Any script of deliveries, duplicates and drops, from the start. */
  lemma AnyScriptLeavesPrefix(chain: seq<RelayEvent>, script: seq<Mutation>)
    requires RelayChain(chain)
    ensures HoldsPrefix(IngestAll(EMPTY, Delivery(chain, script)), chain)
  {
    hide HoldsFirst;
    EmptyHoldsNothing(chain);
    GuardHoldsPrefix(EMPTY, chain, Delivery(chain, script));
  }

  /** Frozen, whatever arrives, until a restore. */
  lemma {:induction false} FrozenStays(g: Guard, events: seq<RelayEvent>)
    requires g.frozen
    ensures IngestAll(g, events) == g
  {
    if events != [] {
      FrozenStays(g, events[..|events| - 1]);
    }
  }

  lemma AppliesLast(events: seq<RelayEvent>)
    requires events != []
    ensures var n := |events| - 1;
      AppliesAll(events) <==> AppliesAll(events[..n]) && Ingest(IngestAll(EMPTY, events[..n]), events[n]).1 == Applied
  {
    hide AppliesAll, Ingest;
    var n := |events| - 1;
    assert events[..n + 1] == events;
    AppliesPrefix(events, n);
    AppliesPrefix(events, n + 1);
    if AppliesAll(events) {
      LastOfAll(events);
    }
  }

  lemma LastOfAll(events: seq<RelayEvent>)
    requires events != [] && AppliesAll(events)
    ensures Ingest(IngestAll(EMPTY, events[..|events| - 1]), events[|events| - 1]).1 == Applied
  {
  }

  lemma ChainLast(events: seq<RelayEvent>)
    requires events != []
    ensures RelayChain(events) <==> |events| < U64_LIMIT - 1 && RelayChain(events[..|events| - 1]) && events[|events| - 1].sequence == |events|
  {
  }

  /** A restore succeeds exactly on lists numbered from one without a gap, and installs exactly the list. */
  lemma {:induction false} RestoresExactly(events: seq<RelayEvent>)
    requires |events| < U64_LIMIT - 1
    ensures AppliesAll(events) <==> RelayChain(events)
    ensures RelayChain(events) ==> HoldsFirst(IngestAll(EMPTY, events), events, |events|) && !IngestAll(EMPTY, events).frozen
  {
    if events == [] {
      EmptyHoldsNothing(events);
    } else {
      hide HoldsFirst, Ingest, AppliesAll, RelayChain;
      RestoresExactly(events[..|events| - 1]);
      AppliesLast(events);
      ChainLast(events);
      if RelayChain(events[..|events| - 1]) {
        LastApplies(events);
      }
    }
  }

  lemma LastApplies(events: seq<RelayEvent>)
    requires 0 < |events| < U64_LIMIT - 1
    requires var g := IngestAll(EMPTY, events[..|events| - 1]); HoldsFirst(g, events[..|events| - 1], |events| - 1) && !g.frozen
    ensures var (h, r) := Ingest(IngestAll(EMPTY, events[..|events| - 1]), events[|events| - 1]);
      && (r == Applied <==> events[|events| - 1].sequence == |events|)
      && (r == Applied ==> HoldsFirst(h, events, |events|) && !h.frozen)
  {
    hide IngestAll;
  }

  /** After a chain shorter than the counter is wide, another event under a number already applied freezes the guard. */
  lemma ConflictFreezes(chain: seq<RelayEvent>, e: RelayEvent)
    requires RelayChain(chain) && 1 <= e.sequence <= |chain| && chain[e.sequence - 1].digest != e.digest
    ensures var g := IngestAll(EMPTY, chain); Ingest(g, e) == (g.(frozen := true), FrozenGap)
  {
    hide IngestAll;
    RestoresExactly(chain);
    var i := e.sequence - 1;
    assert IngestAll(EMPTY, chain).applied[i + 1] == chain[i].digest;
  }

  /**
   * One event further the counter saturates, and the guarantee ends: once a delivered chain reaches the last number, a
   * different event under that number is applied again, in place of the first.
   */
  lemma SaturatedCounterReapplies(chain: seq<RelayEvent>, d: Digest, other: Digest)
    requires RelayChain(chain) && |chain| == U64_LIMIT - 2
    ensures var g := IngestAll(EMPTY, chain);
      var (h, r) := Ingest(g, RelayEvent(U64_LIMIT - 1, d));
      && r == Applied && h.applied == g.applied[U64_LIMIT - 1 := d]
      && Ingest(h, RelayEvent(U64_LIMIT - 1, other)) == (h.(applied := g.applied[U64_LIMIT - 1 := other]), Applied)
  {
    hide IngestAll;
    RestoresExactly(chain);
    var g := IngestAll(EMPTY, chain);
    assert NextSequence(g) == U64_LIMIT - 1;
    assert g.applied[U64_LIMIT - 1 := d][U64_LIMIT - 1 := other] == g.applied[U64_LIMIT - 1 := other];
  }
}
