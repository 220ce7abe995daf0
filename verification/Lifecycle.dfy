/** One request's lifecycle record: who wins each race, and what every reachable record satisfies. */
module Lifecycle {
  import opened ByteStrings
  import opened Vocabulary
  import opened EventChain
  import opened Results

  datatype PlanOutcome = PlanPending(plan: FrozenPlan) | PlanNoChange(reasonCode: nat) | PlanInvalid(reasonCode: nat)

  datatype VerifiedDecision = VerifiedDecision(requestDigest: Digest, generation: u64, decision: Decision, assertionDigest: Digest)

  datatype LifecycleError =
    | InvalidState(state: RequestState)
    | DecisionContextMismatch
    | DecisionGenerationStale
    | AlreadyTerminal
    | PlannerPackageMismatch

  type Outcome = Result<RequestState, LifecycleError>

  /** The value of a lifecycle record at one moment. */
  datatype Record = Record(
    requestId: PublicId,
    receiptId: PublicId,
    requestedPackage: Bytes,
    requestDigest: Digest,
    generation: u64,
    deadline: u64,
    state: RequestState,
    plan: Option<FrozenPlan>,
    log: seq<Event>,
    receipt: Option<Receipt>)

  /** The record's public operations, with the clock and the live generation they are called with. */
  datatype Call =
    | ApplyPlan(outcome: PlanOutcome)
    | Decide(now: u64, active: u64, decision: VerifiedDecision)
    | Cancel(now: u64, active: u64)
    | BeginExecution(now: u64, active: u64)
    | FinishExecution(succeeded: bool, recoveryRequired: bool)
    | Reconcile(succeeded: bool)

  // ----- the operations as functions

  function Start(hash: Hash, requestId: PublicId, receiptId: PublicId, package: Bytes, requestDigest: Digest,
                 generation: u64, deadline: u64): (r: Record) {
    Record(requestId, receiptId, package, requestDigest, generation, deadline, Planning, None,
           [NextEvent(hash, requestId, [], Planning, Created)], None)
  }

  /** The plan digest a receipt binds; all zeros counts as no plan. */
  function BoundPlan(r: Record): (d: Option<Digest>) {
    if r.plan.Some? && r.plan.value.planDigest != ZERO_DIGEST then Some(r.plan.value.planDigest) else None
  }

  function ReceiptFor(hash: Hash, r: Record): (receipt: Receipt) {
    var last := if r.log == [] then ZERO_DIGEST else r.log[|r.log| - 1].digest;
    var draft := Receipt(r.receiptId, r.requestId, r.requestDigest, BoundPlan(r), r.state, last, ZERO_DIGEST);
    draft.(receiptDigest := hash(ReceiptPreimage(draft)))
  }

  /** Enters `next`: one more event, and the receipt if that closes the request. */
  function Won(hash: Hash, r: Record, next: RequestState, reason: Reason): (w: Record) {
    var moved := r.(state := next, log := r.log + [NextEvent(hash, r.requestId, r.log, next, reason)]);
    if IsTerminal(next) then moved.(receipt := Some(ReceiptFor(hash, moved))) else moved
  }

  function StateError(r: Record): (e: LifecycleError) {
    if IsTerminal(r.state) then AlreadyTerminal else InvalidState(r.state)
  }

  predicate AwaitsExecution(s: RequestState) {
    s.Pending? || s.Approved?
  }

  /** What a call finds out before it is looked at: a closed request, then an expired one, then a stale one. */
  function Guard(hash: Hash, r: Record, now: u64, active: u64): (loser: Option<Record>) {
    if IsTerminal(r.state) then Some(r)
    else if AwaitsExecution(r.state) && now >= r.deadline then Some(Won(hash, r, Expired, ByExpiry))
    else if AwaitsExecution(r.state) && active != r.generation then Some(Won(hash, r, Stale, GenerationStale))
    else None
  }

  function Entered(hash: Hash, r: Record, next: RequestState, reason: Reason): (o: (Record, Outcome)) {
    (Won(hash, r, next, reason), Ok(next))
  }

  function Planned(hash: Hash, r: Record, outcome: PlanOutcome): (o: (Record, Outcome)) {
    if r.state != Planning then (r, Err(StateError(r)))
    else match outcome
      case PlanPending(plan) =>
        if plan.packageName != r.requestedPackage then (r, Err(PlannerPackageMismatch))
        else Entered(hash, r.(plan := Some(plan)), Pending, PlannerPending)
      case PlanNoChange(_) => Entered(hash, r, NoChange, PlannerNoChange)
      case PlanInvalid(_) => Entered(hash, r, Invalid, PlannerInvalid)
  }

  function Decided(hash: Hash, r: Record, decision: VerifiedDecision): (o: (Record, Outcome)) {
    if r.state != Pending then (r, Err(StateError(r)))
    else if decision.requestDigest != r.requestDigest then (r, Err(DecisionContextMismatch))
    else if decision.generation != r.generation then (r, Err(DecisionGenerationStale))
    else if decision.decision == Approve then Entered(hash, r, Approved, ByApproval)
    else Entered(hash, r, Denied, ByDenial)
  }

  function Finished(hash: Hash, r: Record, succeeded: bool, recoveryRequired: bool): (o: (Record, Outcome)) {
    if r.state != Executing then (r, Err(StateError(r)))
    else if succeeded && recoveryRequired then (r, Err(InvalidState(r.state)))
    else if succeeded then Entered(hash, r, Succeeded, ExecutionSucceeded)
    else if recoveryRequired then Entered(hash, r, RecoveryRequired, NeedsRecovery)
    else Entered(hash, r, Failed, ExecutionFailed)
  }

  function Reconciled(hash: Hash, r: Record, succeeded: bool): (o: (Record, Outcome)) {
    if r.state != RecoveryRequired then (r, Err(StateError(r)))
    else if succeeded then Entered(hash, r, Succeeded, ReconciledSucceeded)
    else Entered(hash, r, Failed, ReconciledFailed)
  }

  function Cancelling(hash: Hash, r: Record): (o: (Record, Outcome)) {
    if AwaitsExecution(r.state) then Entered(hash, r, Cancelled, ByCancellation) else (r, Err(StateError(r)))
  }

  function Beginning(hash: Hash, r: Record): (o: (Record, Outcome)) {
    if r.state == Approved then Entered(hash, r, Executing, ExecutionStarted) else (r, Err(StateError(r)))
  }

  predicate IsGuarded(c: Call) {
    c.Decide? || c.Cancel? || c.BeginExecution?
  }

  function Unguarded(hash: Hash, r: Record, c: Call): (o: (Record, Outcome)) {
    match c
    case ApplyPlan(outcome) => Planned(hash, r, outcome)
    case Decide(_, _, decision) => Decided(hash, r, decision)
    case Cancel(_, _) => Cancelling(hash, r)
    case BeginExecution(_, _) => Beginning(hash, r)
    case FinishExecution(succeeded, recoveryRequired) => Finished(hash, r, succeeded, recoveryRequired)
    case Reconcile(succeeded) => Reconciled(hash, r, succeeded)
  }

  function Step(hash: Hash, r: Record, c: Call): (o: (Record, Outcome)) {
    if IsGuarded(c) && Guard(hash, r, c.now, c.active).Some? then
      (Guard(hash, r, c.now, c.active).value, Err(AlreadyTerminal))
    else
      Unguarded(hash, r, c)
  }

  function Run(hash: Hash, r: Record, calls: seq<Call>): (end: Record) {
    if calls == [] then r
    else Step(hash, Run(hash, r, calls[..|calls| - 1]), calls[|calls| - 1]).0
  }

  // ----- the record updated in place

  class LifecycleRecord {
    const hash: Hash
    const requestId: PublicId
    const receiptId: PublicId
    const requestedPackage: Bytes
    const requestDigest: Digest
    const generation: u64
    const deadline: u64
    var state: RequestState
    var plan: Option<FrozenPlan>
    var log: seq<Event>
    var receipt: Option<Receipt>

    function Value(): (r: Record)
      reads this
    {
      Record(requestId, receiptId, requestedPackage, requestDigest, generation, deadline, state, plan, log, receipt)
    }

    constructor (hash: Hash, requestId: PublicId, receiptId: PublicId, package: Bytes, requestDigest: Digest,
                 generation: u64, deadline: u64)
      ensures this.hash == hash
      ensures Value() == Start(hash, requestId, receiptId, package, requestDigest, generation, deadline)
    {
      this.hash := hash;
      this.requestId, this.receiptId, this.requestedPackage := requestId, receiptId, package;
      this.requestDigest, this.generation, this.deadline := requestDigest, generation, deadline;
      state, plan, log, receipt := Planning, None, [], None;
      new;
      Append(Planning, Created);
    }

    method Append(next: RequestState, reason: Reason)
      modifies this`log
      ensures log == old(log) + [NextEvent(hash, requestId, old(log), next, reason)]
    {
      var sequence := if |log| + 1 < U64_LIMIT then |log| + 1 else U64_LIMIT - 1;
      var previous := if log == [] then None else Some(log[|log| - 1].digest);
      var digest := hash(EventPreimage(requestId, sequence, previous, next, reason));
      log := log + [Event(sequence, previous, next, reason, digest)];
    }

    method Winner(next: RequestState, reason: Reason)
      modifies this
      ensures Value() == Won(hash, old(Value()), next, reason) && state == next
    {
      hide NextEvent, ReceiptFor;
      state := next;
      Append(next, reason);
      if IsTerminal(next) {
        receipt := Some(ReceiptFor(hash, Value()));
      }
    }

    method PreExecutionGuard(now: u64, active: u64) returns (lost: bool)
      modifies this
      ensures lost == Guard(hash, old(Value()), now, active).Some?
      ensures Value() == if lost then Guard(hash, old(Value()), now, active).value else old(Value())
    {
      hide Won;
      if IsTerminal(state) {
        return true;
      }
      if AwaitsExecution(state) && now >= deadline {
        Winner(Expired, ByExpiry);
        return true;
      }
      if AwaitsExecution(state) && active != generation {
        Winner(Stale, GenerationStale);
        return true;
      }
      return false;
    }

    method DoApplyPlan(outcome: PlanOutcome) returns (o: Outcome)
      modifies this
      ensures (Value(), o) == Step(hash, old(Value()), ApplyPlan(outcome))
    {
      hide Won;
      if state != Planning {
        return Err(StateError(Value()));
      }
      match outcome {
        case PlanPending(frozen) =>
          if frozen.packageName != requestedPackage {
            return Err(PlannerPackageMismatch);
          }
          plan := Some(frozen);
          Winner(Pending, PlannerPending);
          return Ok(Pending);
        case PlanNoChange(_) =>
          Winner(NoChange, PlannerNoChange);
          return Ok(NoChange);
        case PlanInvalid(_) =>
          Winner(Invalid, PlannerInvalid);
          return Ok(Invalid);
      }
    }

    method DoDecide(now: u64, active: u64, decision: VerifiedDecision) returns (o: Outcome)
      modifies this
      ensures (Value(), o) == Step(hash, old(Value()), Decide(now, active, decision))
    {
      hide Won;
      var lost := PreExecutionGuard(now, active);
      if lost {
        return Err(AlreadyTerminal);
      }
      if state != Pending {
        return Err(StateError(Value()));
      }
      if decision.requestDigest != requestDigest {
        return Err(DecisionContextMismatch);
      }
      if decision.generation != generation {
        return Err(DecisionGenerationStale);
      }
      match decision.decision {
        case Approve =>
          Winner(Approved, ByApproval);
          return Ok(Approved);
        case Deny =>
          Winner(Denied, ByDenial);
          return Ok(Denied);
      }
    }

    method DoCancel(now: u64, active: u64) returns (o: Outcome)
      modifies this
      ensures (Value(), o) == Step(hash, old(Value()), Cancel(now, active))
    {
      hide Won;
      var lost := PreExecutionGuard(now, active);
      if lost {
        return Err(AlreadyTerminal);
      }
      if !AwaitsExecution(state) {
        return Err(StateError(Value()));
      }
      Winner(Cancelled, ByCancellation);
      return Ok(Cancelled);
    }

    method DoBeginExecution(now: u64, active: u64) returns (o: Outcome)
      modifies this
      ensures (Value(), o) == Step(hash, old(Value()), BeginExecution(now, active))
    {
      hide Won;
      var lost := PreExecutionGuard(now, active);
      if lost {
        return Err(AlreadyTerminal);
      }
      if state != Approved {
        return Err(StateError(Value()));
      }
      Winner(Executing, ExecutionStarted);
      return Ok(Executing);
    }

    method DoFinishExecution(succeeded: bool, recoveryRequired: bool) returns (o: Outcome)
      modifies this
      ensures (Value(), o) == Step(hash, old(Value()), FinishExecution(succeeded, recoveryRequired))
    {
      hide Won;
      if state != Executing {
        return Err(StateError(Value()));
      }
      if succeeded && recoveryRequired {
        return Err(InvalidState(state));
      }
      if succeeded {
        Winner(Succeeded, ExecutionSucceeded);
      } else if recoveryRequired {
        Winner(RecoveryRequired, NeedsRecovery);
      } else {
        Winner(Failed, ExecutionFailed);
      }
      return Ok(state);
    }

    method DoReconcile(succeeded: bool) returns (o: Outcome)
      modifies this
      ensures (Value(), o) == Step(hash, old(Value()), Reconcile(succeeded))
    {
      hide Won;
      if state != RecoveryRequired {
        return Err(StateError(Value()));
      }
      if succeeded {
        Winner(Succeeded, ReconciledSucceeded);
      } else {
        Winner(Failed, ReconciledFailed);
      }
      return Ok(state);
    }
  }

  // ----- what every reachable record satisfies

  function EdgeReason(previous: RequestState, next: RequestState): (r: Reason) {
    if previous.RecoveryRequired? && next.Succeeded? then ReconciledSucceeded
    else if previous.RecoveryRequired? && next.Failed? then ReconciledFailed
    else DefaultReason(next)
  }

  predicate EdgeAt(log: seq<Event>, i: nat)
    requires i < |log|
  {
    if i == 0 then log[i].state == Planning && log[i].reason == Created
    else Permits(log[i - 1].state, log[i].state) && log[i].reason == EdgeReason(log[i - 1].state, log[i].state)
  }

  /** A history of permitted edges from planning, each with its reason. */
  ghost predicate IsHistory(log: seq<Event>) {
    log != [] && forall i :: 0 <= i < |log| ==> EdgeAt(log, i)
  }

  /** How many more events a state leaves room for. */
  function Rank(s: RequestState): (n: nat)
    ensures n == 0 <==> IsTerminal(s)
  {
    match s
    case Planning => 5
    case Pending => 4
    case Approved => 3
    case Executing => 2
    case RecoveryRequired => 1
    case _ => 0
  }

  ghost predicate ReceiptMatches(hash: Hash, r: Record) {
    && r.receipt.Some?
    && ReceiptOver(hash, r.receipt.value, r.log)
    && r.receipt.value.receiptId == r.receiptId
    && r.receipt.value.requestId == r.requestId
    && r.receipt.value.requestDigest == r.requestDigest
    && r.receipt.value.planDigest
       == (if r.plan.Some? && r.plan.value.planDigest != ZERO_DIGEST then Some(r.plan.value.planDigest) else None)
  }

  ghost predicate WellFormed(hash: Hash, r: Record) {
    && Chained(hash, r.requestId, r.log)
    && IsHistory(r.log)
    && r.log[|r.log| - 1].state == r.state
    && |r.log| + Rank(r.state) <= 6
    && (if IsTerminal(r.state) then ReceiptMatches(hash, r) else r.receipt == None)
    && (r.plan == None <==> r.state in {Planning, NoChange, Invalid})
    && (r.plan.Some? ==> r.plan.value.packageName == r.requestedPackage)
  }

  /** Edges go down in rank, so a history has at most six events. */
  lemma EdgesDescend(s: RequestState, next: RequestState)
    requires Permits(s, next)
    ensures Rank(next) < Rank(s)
  {
  }

  lemma StartWellFormed(hash: Hash, requestId: PublicId, receiptId: PublicId, package: Bytes, requestDigest: Digest,
                        generation: u64, deadline: u64)
    ensures WellFormed(hash, Start(hash, requestId, receiptId, package, requestDigest, generation, deadline))
  {
    hide EventPreimage;
    ChainGrows(hash, requestId, [], Planning, Created);
    assert [] + [NextEvent(hash, requestId, [], Planning, Created)] == [NextEvent(hash, requestId, [], Planning, Created)];
  }

  lemma ReceiptForMatches(hash: Hash, r: Record)
    requires Chained(hash, r.requestId, r.log) && r.log != [] && r.log[|r.log| - 1].state == r.state
    ensures ReceiptMatches(hash, r.(receipt := Some(ReceiptFor(hash, r))))
  {
    hide Chained, Zeros, Ascii, AsDb, LinkBytes;
    var receipt := ReceiptFor(hash, r);
    assert ReceiptPreimage(receipt) == ReceiptPreimage(receipt.(receiptDigest := ZERO_DIGEST));
  }

  lemma HistoryGrows(log: seq<Event>, e: Event)
    requires IsHistory(log) && Permits(log[|log| - 1].state, e.state)
    requires e.reason == EdgeReason(log[|log| - 1].state, e.state)
    ensures IsHistory(log + [e])
  {
    hide Permits, EdgeReason;
    forall i | 0 <= i < |log| ensures EdgeAt(log + [e], i) {
      assert EdgeAt(log, i);
    }
  }

  /** Every permitted edge, taken with its reason, keeps a record well formed. */
  lemma WonWellFormed(hash: Hash, r: Record, next: RequestState, plan: Option<FrozenPlan>)
    requires WellFormed(hash, r) && Permits(r.state, next)
    requires plan == r.plan || (r.state == Planning && next == Pending && plan.Some?)
    requires plan.Some? ==> plan.value.packageName == r.requestedPackage
    requires next == Pending ==> plan.Some?
    ensures WellFormed(hash, Won(hash, r.(plan := plan), next, EdgeReason(r.state, next)))
  {
    hide Chained, ReceiptFor, ReceiptMatches, Permits, IsHistory, NextEvent;
    var reason := EdgeReason(r.state, next);
    var w := Won(hash, r.(plan := plan), next, reason);
    EdgesDescend(r.state, next);
    ChainGrows(hash, r.requestId, r.log, next, reason);
    HistoryGrows(r.log, NextEvent(hash, r.requestId, r.log, next, reason));
    PlanAfterEdge(r.state, next);
    if IsTerminal(next) {
      ReceiptForMatches(hash, w.(receipt := r.receipt));
    }
  }

  lemma PlanAfterEdge(s: RequestState, next: RequestState)
    requires Permits(s, next)
    ensures next in {Planning, NoChange, Invalid} ==> s == Planning
    ensures s == Planning ==> next in {Pending, NoChange, Invalid}
    ensures s in {NoChange, Invalid} ==> false
  {
  }

  /** Every operation, whatever it returns, keeps a record well formed. */
  lemma StepWellFormed(hash: Hash, r: Record, c: Call)
    requires WellFormed(hash, r)
    ensures WellFormed(hash, Step(hash, r, c).0)
  {
    hide WellFormed, Won;
    StepIsAnEdge(hash, r, c);
    var w := Step(hash, r, c).0;
    if w != r {
      var next, plan :| TakesEdge(hash, r, w, next, plan);
      PlanKnown(hash, r);
      WonWellFormed(hash, r, next, plan);
    }
  }

  lemma PlanKnown(hash: Hash, r: Record)
    requires WellFormed(hash, r)
    ensures r.plan == None <==> r.state in {Planning, NoChange, Invalid}
    ensures r.plan.Some? ==> r.plan.value.packageName == r.requestedPackage
  {
  }

  ghost predicate TakesEdge(hash: Hash, r: Record, w: Record, next: RequestState, plan: Option<FrozenPlan>) {
    && Permits(r.state, next)
    && w == Won(hash, r.(plan := plan), next, EdgeReason(r.state, next))
    && (plan == r.plan || (r.state == Planning && next == Pending && plan.Some?))
    && (next == Pending ==> plan.Some? && plan.value.packageName == r.requestedPackage)
  }

  /** A step changes nothing or takes one permitted edge. */
  lemma StepIsAnEdge(hash: Hash, r: Record, c: Call)
    ensures var w := Step(hash, r, c).0; w == r || exists next, plan :: TakesEdge(hash, r, w, next, plan)
  {
    hide Won;
    var w := Step(hash, r, c).0;
    if w != r {
      if IsGuarded(c) && Guard(hash, r, c.now, c.active).Some? {
        assert TakesEdge(hash, r, w, if c.now >= r.deadline then Expired else Stale, r.plan);
      } else {
        var next := Step(hash, r, c).1.value;
        assert TakesEdge(hash, r, w, next, if next == Pending then Some(c.outcome.plan) else r.plan);
      }
    }
  }

  lemma {:induction false} RunWellFormed(hash: Hash, r: Record, calls: seq<Call>)
    requires WellFormed(hash, r)
    ensures WellFormed(hash, Run(hash, r, calls))
  {
    hide WellFormed, Step;
    if calls != [] {
      var n := |calls| - 1;
      RunWellFormed(hash, r, calls[..n]);
      StepWellFormed(hash, Run(hash, r, calls[..n]), calls[n]);
    }
  }

  // ----- races

  /** Closed requests stay as they are, receipt included, and every operation says so. */
  lemma TerminalAbsorbs(hash: Hash, r: Record, c: Call)
    requires IsTerminal(r.state)
    ensures Step(hash, r, c) == (r, Err(AlreadyTerminal))
  {
  }

  lemma {:induction false} TerminalForever(hash: Hash, r: Record, calls: seq<Call>)
    requires IsTerminal(r.state)
    ensures Run(hash, r, calls) == r
  {
    if calls != [] {
      TerminalForever(hash, r, calls[..|calls| - 1]);
      TerminalAbsorbs(hash, r, calls[|calls| - 1]);
    }
  }

  /** Before execution, expiry beats staleness and staleness beats any decision, cancellation or start. */
  lemma RaceOrder(hash: Hash, r: Record, c: Call)
    requires AwaitsExecution(r.state) && IsGuarded(c)
    ensures c.now >= r.deadline <==> Step(hash, r, c).0.state == Expired
    ensures c.now < r.deadline && c.active != r.generation <==> Step(hash, r, c).0.state == Stale
    ensures (c.now >= r.deadline || c.active != r.generation) ==> Step(hash, r, c).1 == Err(AlreadyTerminal)
  {
    hide NextEvent, ReceiptFor;
  }

  /** An operation that returns an error changed nothing, unless expiry or staleness closed the request under it. */
  lemma ErrorsChangeNothing(hash: Hash, r: Record, c: Call)
    requires Step(hash, r, c).1.Err?
    ensures Step(hash, r, c).0 == r
         || (AwaitsExecution(r.state) && IsGuarded(c) && Step(hash, r, c).0.state in {Expired, Stale})
  {
    hide NextEvent, ReceiptFor;
  }

  // ----- execution authorisation

  predicate PlannedBy(r: Record, c: Call) {
    && c.ApplyPlan? && c.outcome.PlanPending?
    && r.plan == Some(c.outcome.plan) && c.outcome.plan.packageName == r.requestedPackage
  }

  predicate LiveAt(r: Record, now: u64, active: u64) {
    now < r.deadline && active == r.generation
  }

  predicate ApprovedBy(r: Record, c: Call) {
    && c.Decide? && LiveAt(r, c.now, c.active)
    && c.decision.decision == Approve
    && c.decision.requestDigest == r.requestDigest && c.decision.generation == r.generation
  }

  predicate StartedBy(r: Record, c: Call) {
    c.BeginExecution? && LiveAt(r, c.now, c.active)
  }

  /** Call `i` of the run was answered with success, in this state. */
  predicate Answered(hash: Hash, first: Record, calls: seq<Call>, i: nat, state: RequestState)
    requires i < |calls|
  {
    Step(hash, Run(hash, first, calls[..i]), calls[i]).1 == Ok(state)
  }

  predicate PlannedAt(hash: Hash, first: Record, calls: seq<Call>, i: nat, r: Record) {
    i < |calls| && PlannedBy(r, calls[i]) && Answered(hash, first, calls, i, Pending)
  }

  predicate ApprovedAt(hash: Hash, first: Record, calls: seq<Call>, i: nat, r: Record) {
    i < |calls| && ApprovedBy(r, calls[i]) && Answered(hash, first, calls, i, Approved)
  }

  predicate StartedAt(hash: Hash, first: Record, calls: seq<Call>, i: nat, r: Record) {
    i < |calls| && StartedBy(r, calls[i]) && Answered(hash, first, calls, i, Executing)
  }

  /** The calls that took a record as far as executing, in order, each answered with the state it led to. */
  predicate AuthorisedBy(hash: Hash, first: Record, calls: seq<Call>, r: Record, plan: nat, approval: nat, start: nat) {
    && plan < approval < start
    && PlannedAt(hash, first, calls, plan, r) && ApprovedAt(hash, first, calls, approval, r) && StartedAt(hash, first, calls, start, r)
  }

  predicate Been(r: Record, n: nat, s: RequestState) {
    n < |r.log| && r.log[n].state == s
  }

  ghost predicate HasPlan(hash: Hash, first: Record, calls: seq<Call>, r: Record) {
    exists i :: PlannedAt(hash, first, calls, i, r)
  }

  ghost predicate HasApproval(hash: Hash, first: Record, calls: seq<Call>, r: Record) {
    exists i, j :: i < j && PlannedAt(hash, first, calls, i, r) && ApprovedAt(hash, first, calls, j, r)
  }

  ghost predicate HasStart(hash: Hash, first: Record, calls: seq<Call>, r: Record) {
    exists i, j, k :: AuthorisedBy(hash, first, calls, r, i, j, k)
  }

  /** Each stage a record has passed was passed by a call that may pass it. */
  ghost predicate Evidence(hash: Hash, first: Record, calls: seq<Call>, r: Record) {
    && (Been(r, 1, Pending) ==> HasPlan(hash, first, calls, r))
    && (Been(r, 2, Approved) ==> HasApproval(hash, first, calls, r))
    && (Been(r, 3, Executing) ==> HasStart(hash, first, calls, r))
  }

  predicate SameRequest(r: Record, w: Record) {
    && w.requestedPackage == r.requestedPackage && w.requestDigest == r.requestDigest
    && w.generation == r.generation && w.deadline == r.deadline
  }

  /** What a step that changed the record must have been. */
  lemma CallBehindEdge(hash: Hash, r: Record, c: Call)
    requires Step(hash, r, c).0 != r
    ensures var w := Step(hash, r, c).0;
      && SameRequest(r, w) && Permits(r.state, w.state)
      && |w.log| == |r.log| + 1 && w.log[..|r.log|] == r.log && w.log[|r.log|].state == w.state
      && (w.state == Pending ==> PlannedBy(w, c))
      && (w.state != Pending ==> w.plan == r.plan)
      && (w.state == Approved ==> ApprovedBy(w, c))
      && (w.state == Executing ==> StartedBy(w, c))
  {
    hide NextEvent, ReceiptFor, Rank;
  }

  /** A call that takes a record towards execution is answered with the state it led to. */
  lemma AnswerBehindEdge(hash: Hash, r: Record, c: Call)
    requires Step(hash, r, c).0 != r
    ensures var (w, answer) := Step(hash, r, c); w.state in {Pending, Approved, Executing} ==> answer == Ok(w.state)
  {
    hide NextEvent, ReceiptFor, Rank;
  }

  lemma {:induction false} StatesByPlace(log: seq<Event>, n: nat)
    requires IsHistory(log) && n < |log|
    ensures log[n].state == Planning ==> n == 0
    ensures log[n].state == Pending ==> n == 1
    ensures log[n].state == Approved ==> n == 2 && log[1].state == Pending
    ensures log[n].state == Executing ==> n == 3 && log[2].state == Approved && log[1].state == Pending
  {
    assert EdgeAt(log, n);
    if n > 0 {
      StatesByPlace(log, n - 1);
    }
  }

  /** A call's answer stays what it was as the run goes on. */
  lemma AnswersStay(hash: Hash, first: Record, calls: seq<Call>, c: Call, i: nat, r: Record, w: Record)
    requires SameRequest(r, w) && w.plan == r.plan
    ensures PlannedAt(hash, first, calls, i, r) ==> PlannedAt(hash, first, calls + [c], i, w)
    ensures ApprovedAt(hash, first, calls, i, r) ==> ApprovedAt(hash, first, calls + [c], i, w)
    ensures StartedAt(hash, first, calls, i, r) ==> StartedAt(hash, first, calls + [c], i, w)
  {
    hide Step, Run;
    if i < |calls| {
      assert (calls + [c])[..i] == calls[..i];
    }
  }

  /** Evidence outlives further calls as long as the plan stays. */
  lemma EvidenceStays(hash: Hash, first: Record, calls: seq<Call>, c: Call, r: Record, w: Record)
    requires SameRequest(r, w) && w.plan == r.plan
    ensures HasPlan(hash, first, calls, r) ==> HasPlan(hash, first, calls + [c], w)
    ensures HasApproval(hash, first, calls, r) ==> HasApproval(hash, first, calls + [c], w)
    ensures HasStart(hash, first, calls, r) ==> HasStart(hash, first, calls + [c], w)
  {
    hide PlannedAt, ApprovedAt, StartedAt;
    forall i
      ensures PlannedAt(hash, first, calls, i, r) ==> PlannedAt(hash, first, calls + [c], i, w)
      ensures ApprovedAt(hash, first, calls, i, r) ==> ApprovedAt(hash, first, calls + [c], i, w)
      ensures StartedAt(hash, first, calls, i, r) ==> StartedAt(hash, first, calls + [c], i, w)
    {
      AnswersStay(hash, first, calls, c, i, r, w);
    }
    if HasStart(hash, first, calls, r) {
      var i, j, k :| AuthorisedBy(hash, first, calls, r, i, j, k);
      assert AuthorisedBy(hash, first, calls + [c], w, i, j, k);
    }
  }

  /** Approval follows planning, and execution follows approval. */
  lemma NewEvidence(hash: Hash, first: Record, calls: seq<Call>, c: Call, r: Record, w: Record)
    requires SameRequest(r, w) && w.plan == r.plan
    ensures HasPlan(hash, first, calls, r) && ApprovedAt(hash, first, calls + [c], |calls|, w) ==> HasApproval(hash, first, calls + [c], w)
    ensures HasApproval(hash, first, calls, r) && StartedAt(hash, first, calls + [c], |calls|, w) ==> HasStart(hash, first, calls + [c], w)
  {
    hide Answered, PlannedBy, ApprovedBy, StartedBy;
    var all := calls + [c];
    if HasPlan(hash, first, calls, r) && ApprovedAt(hash, first, all, |calls|, w) {
      var i :| PlannedAt(hash, first, calls, i, r);
      AnswersStay(hash, first, calls, c, i, r, w);
      assert PlannedAt(hash, first, all, i, w) && ApprovedAt(hash, first, all, |calls|, w);
    }
    if HasApproval(hash, first, calls, r) && StartedAt(hash, first, all, |calls|, w) {
      var i, j :| i < j && PlannedAt(hash, first, calls, i, r) && ApprovedAt(hash, first, calls, j, r);
      AnswersStay(hash, first, calls, c, i, r, w);
      AnswersStay(hash, first, calls, c, j, r, w);
      assert AuthorisedBy(hash, first, all, w, i, j, |calls|);
    }
  }

  lemma StepEvidence(hash: Hash, first: Record, calls: seq<Call>, c: Call)
    requires var r := Run(hash, first, calls);
      IsHistory(r.log) && r.log[|r.log| - 1].state == r.state && Evidence(hash, first, calls, r)
    ensures Evidence(hash, first, calls + [c], Step(hash, Run(hash, first, calls), c).0)
  {
    hide Step, Run, PlannedBy, ApprovedBy, StartedBy, HasPlan, HasApproval, HasStart;
    var r, all := Run(hash, first, calls), calls + [c];
    var w, n := Step(hash, r, c).0, |r.log|;
    assert all[..|calls|] == calls;
    if w == r {
      EvidenceStays(hash, first, calls, c, r, r);
    } else {
      CallBehindEdge(hash, r, c);
      AnswerBehindEdge(hash, r, c);
      StatesByPlace(r.log, n - 1);
      assert forall k :: 0 <= k < n ==> w.log[k] == r.log[k];
      if w.state == Pending {
        PlanFound(hash, first, all, |calls|, w);
      } else {
        EvidenceStays(hash, first, calls, c, r, w);
        NewEvidence(hash, first, calls, c, r, w);
      }
    }
  }

  lemma PlanFound(hash: Hash, first: Record, calls: seq<Call>, i: nat, r: Record)
    requires PlannedAt(hash, first, calls, i, r)
    ensures HasPlan(hash, first, calls, r)
  {
  }

  lemma {:induction false} RunEvidence(hash: Hash, first: Record, calls: seq<Call>)
    requires WellFormed(hash, first) && |first.log| == 1
    ensures Evidence(hash, first, calls, Run(hash, first, calls))
  {
    hide Step, Chained, ReceiptMatches, IsHistory, HasPlan, HasApproval, HasStart;
    if calls != [] {
      var n := |calls| - 1;
      RunEvidence(hash, first, calls[..n]);
      RunWellFormed(hash, first, calls[..n]);
      StepEvidence(hash, first, calls[..n], calls[n]);
      assert calls[..n] + [calls[n]] == calls;
    }
  }

  /**
   * Execution authorisation: a record that was ever executing began planning, pending, approved, executing, and some
   * three calls in that order planned the requested package, approved this request and started it in time, each
   * answered with success in that state.
   */
  lemma ExecutionAuthorised(hash: Hash, requestId: PublicId, receiptId: PublicId, package: Bytes, requestDigest: Digest,
                            generation: u64, deadline: u64, calls: seq<Call>, n: nat)
    requires var r := Run(hash, Start(hash, requestId, receiptId, package, requestDigest, generation, deadline), calls);
      n < |r.log| && r.log[n].state == Executing
    ensures var first := Start(hash, requestId, receiptId, package, requestDigest, generation, deadline);
      var r := Run(hash, first, calls);
      && n == 3 && |r.log| <= 6
      && r.log[0].state == Planning && r.log[1].state == Pending && r.log[2].state == Approved
      && r.requestedPackage == package && r.requestDigest == requestDigest && r.generation == generation && r.deadline == deadline
      && exists i, j, k :: AuthorisedBy(hash, first, calls, r, i, j, k)
  {
    hide Step, Chained, ReceiptMatches, AuthorisedBy;
    var first := Start(hash, requestId, receiptId, package, requestDigest, generation, deadline);
    var r := Run(hash, first, calls);
    StartWellFormed(hash, requestId, receiptId, package, requestDigest, generation, deadline);
    RunWellFormed(hash, first, calls);
    RunEvidence(hash, first, calls);
    StatesByPlace(r.log, n);
    assert EdgeAt(r.log, 0);
    RunKeepsRequest(hash, first, calls);
  }

  lemma {:induction false} RunKeepsRequest(hash: Hash, r: Record, calls: seq<Call>)
    ensures SameRequest(r, Run(hash, r, calls))
  {
    hide Step;
    if calls != [] {
      var n := |calls| - 1;
      RunKeepsRequest(hash, r, calls[..n]);
      var before := Run(hash, r, calls[..n]);
      if Step(hash, before, calls[n]).0 != before {
        CallBehindEdge(hash, before, calls[n]);
      }
    }
  }

  /** The calls that a record answered with `Executing` number at most one. */
  lemma StartsAtMostOnce(hash: Hash, r: Record, calls: seq<Call>, c: Call)
    requires WellFormed(hash, r) && Step(hash, Run(hash, r, calls), c).1 == Ok(Executing)
    ensures forall k :: 0 <= k < |calls| ==> Step(hash, Run(hash, r, calls[..k]), calls[k]).1 != Ok(Executing)
  {
    hide Step, WellFormed;
    forall k | 0 <= k < |calls| ensures Step(hash, Run(hash, r, calls[..k]), calls[k]).1 != Ok(Executing) {
      assert calls == calls[..k + 1] + calls[k + 1..];
      RunWellFormed(hash, r, calls[..k]);
      RunWellFormed(hash, r, calls);
      StartAppends(hash, Run(hash, r, calls[..k]), calls[k]);
      StartAppends(hash, Run(hash, r, calls), c);
      assert calls[..k + 1][..k] == calls[..k];
      LogGrows(hash, r, calls[..k + 1], calls[k + 1..]);
    }
  }

  lemma StartAppends(hash: Hash, r: Record, c: Call)
    requires WellFormed(hash, r)
    ensures Step(hash, r, c).1 == Ok(Executing) ==> |r.log| == 3 && |Step(hash, r, c).0.log| == 4
  {
    hide EventPreimage, ReceiptFor;
    StatesByPlace(r.log, |r.log| - 1);
  }

  lemma {:induction false} LogGrows(hash: Hash, r: Record, calls: seq<Call>, more: seq<Call>)
    ensures |Run(hash, r, calls).log| <= |Run(hash, r, calls + more).log|
    decreases |more|
  {
    hide Step;
    if more == [] {
      assert calls + more == calls;
    } else {
      var n := |more| - 1;
      LogGrows(hash, r, calls, more[..n]);
      assert calls + more == (calls + more[..n]) + [more[n]];
      assert (calls + more)[..|calls + more| - 1] == calls + more[..n];
      var before := Run(hash, r, calls + more[..n]);
      if Step(hash, before, more[n]).0 != before {
        CallBehindEdge(hash, before, more[n]);
      }
    }
  }
}
