/** What each lifecycle call does, told from the record and the call, and what that makes of whole runs. */
module LifecycleOutcomes {
  import opened ByteStrings
  import opened Vocabulary
  import opened EventChain
  import opened Results
  import opened Lifecycle

  // ----- which call leads where

  /** Someone decided on this very request while it could still be decided. */
  predicate DecidedInTime(r: Record, c: Call, decision: Decision) {
    && c.Decide? && c.now < r.deadline && c.active == r.generation
    && c.decision.requestDigest == r.requestDigest && c.decision.generation == r.generation
    && c.decision.decision == decision
  }

  predicate Waiting(r: Record) {
    r.state.Pending? || r.state.Approved?
  }

  predicate AsksTheClock(c: Call) {
    c.Decide? || c.Cancel? || c.BeginExecution?
  }

  /** The call takes the record into state `next`. */
  predicate LeadsTo(r: Record, c: Call, next: RequestState) {
    match next
    case Planning => false
    case Pending => r.state.Planning? && c.ApplyPlan? && c.outcome.PlanPending? && c.outcome.plan.packageName == r.requestedPackage
    case NoChange => r.state.Planning? && c.ApplyPlan? && c.outcome.PlanNoChange?
    case Invalid => r.state.Planning? && c.ApplyPlan? && c.outcome.PlanInvalid?
    case Approved => r.state.Pending? && DecidedInTime(r, c, Approve)
    case Denied => r.state.Pending? && DecidedInTime(r, c, Deny)
    case Expired => Waiting(r) && AsksTheClock(c) && c.now >= r.deadline
    case Stale => Waiting(r) && AsksTheClock(c) && c.now < r.deadline && c.active != r.generation
    case Cancelled => Waiting(r) && c.Cancel? && c.now < r.deadline && c.active == r.generation
    case Executing => r.state.Approved? && c.BeginExecution? && c.now < r.deadline && c.active == r.generation
    case RecoveryRequired => r.state.Executing? && c == FinishExecution(false, true)
    case Succeeded => (r.state.Executing? && c == FinishExecution(true, false)) || (r.state.RecoveryRequired? && c == Reconcile(true))
    case Failed => (r.state.Executing? && c == FinishExecution(false, false)) || (r.state.RecoveryRequired? && c == Reconcile(false))
  }

  predicate LeadsSomewhere(r: Record, c: Call) {
    exists next :: LeadsTo(r, c, next)
  }

  /** One event more, and all else about the request as before, but for the plan that planning brings. */
  predicate Advances(r: Record, w: Record, c: Call) {
    && w.requestId == r.requestId && w.receiptId == r.receiptId && w.requestedPackage == r.requestedPackage
    && w.requestDigest == r.requestDigest && w.generation == r.generation && w.deadline == r.deadline
    && w.plan == (if w.state.Pending? && c.ApplyPlan? && c.outcome.PlanPending? then Some(c.outcome.plan) else r.plan)
    && |w.log| == |r.log| + 1 && w.log[..|r.log|] == r.log && w.log[|r.log|].state == w.state
  }

  /** Why a call that leads nowhere is refused. */
  function Refusal(r: Record, c: Call): (e: LifecycleError) {
    if IsTerminal(r.state) then AlreadyTerminal
    else if r.state.Planning? && c.ApplyPlan? then PlannerPackageMismatch
    else if r.state.Pending? && c.Decide? && c.decision.requestDigest != r.requestDigest then DecisionContextMismatch
    else if r.state.Pending? && c.Decide? then DecisionGenerationStale
    else InvalidState(r.state)
  }

  lemma LeadsToOne(r: Record, c: Call, s: RequestState, t: RequestState)
    requires LeadsTo(r, c, s) && LeadsTo(r, c, t)
    ensures s == t
  {
  }

  /** A call that leads somewhere takes the record there; expiry and staleness are answered as a lost race, the rest with the state. */
  lemma StepLeads(hash: Hash, r: Record, c: Call, next: RequestState)
    requires LeadsTo(r, c, next)
    ensures var (w, answer) := Step(hash, r, c);
      && w.state == next && Advances(r, w, c)
      && answer == if next.Expired? || next.Stale? then Err(AlreadyTerminal) else Ok(next)
  {
    hide Won;
    forall m: Record, reason ensures Entering(m, Won(hash, m, next, reason), next) {
      WonEnters(hash, m, next, reason);
    }
  }

  /** One event more, into `next`, and nothing else but a receipt. */
  predicate Entering(m: Record, w: Record, next: RequestState) {
    && w.state == next && w == m.(state := next, log := w.log, receipt := w.receipt)
    && |w.log| == |m.log| + 1 && w.log[..|m.log|] == m.log && w.log[|m.log|].state == next
  }

  lemma WonEnters(hash: Hash, m: Record, next: RequestState, reason: Reason)
    ensures Entering(m, Won(hash, m, next, reason), next)
  {
    hide NextEvent, ReceiptFor;
  }

  /** Any other call leaves the record alone, and says why. */
  lemma StepStays(hash: Hash, r: Record, c: Call)
    requires !LeadsSomewhere(r, c)
    ensures Step(hash, r, c) == (r, Err(Refusal(r, c)))
  {
    hide Won;
    assert !LeadsTo(r, c, Pending) && !LeadsTo(r, c, NoChange) && !LeadsTo(r, c, Invalid) && !LeadsTo(r, c, Approved);
    assert !LeadsTo(r, c, Denied) && !LeadsTo(r, c, Expired) && !LeadsTo(r, c, Stale) && !LeadsTo(r, c, Cancelled);
    assert !LeadsTo(r, c, Executing) && !LeadsTo(r, c, RecoveryRequired) && !LeadsTo(r, c, Succeeded) && !LeadsTo(r, c, Failed);
  }

  /** The permitted edges are exactly those that some call takes, and the terminal states exactly those that none leaves. */
  lemma EdgesAreTaken(s: RequestState, next: RequestState)
    ensures Permits(s, next) <==> exists r: Record, c: Call :: r.state == s && LeadsTo(r, c, next)
    ensures IsTerminal(s) <==> forall t :: !Permits(s, t)
  {
    if Permits(s, next) {
      var r, c := Taker(s, next);
    }
    if !IsTerminal(s) {
      assert Permits(s, if s.Planning? then Pending else if s.Pending? then Approved else if s.Approved? then Executing else Failed);
    }
  }

  /** A record in state `s` and a call that takes it to `next`. */
  lemma Taker(s: RequestState, next: RequestState) returns (r: Record, c: Call)
    requires Permits(s, next)
    ensures r.state == s && LeadsTo(r, c, next)
  {
    var plan := FrozenPlan([], ZERO_DIGEST, ZERO_DIGEST, 0);
    var id: PublicId := seq(22, _ => 'A' as int);
    r := Record(id, id, [], ZERO_DIGEST, 0, 1, s, None, [], None);
    c := match next
      case Pending => ApplyPlan(PlanPending(plan))
      case NoChange => ApplyPlan(PlanNoChange(0))
      case Invalid => ApplyPlan(PlanInvalid(0))
      case Approved => Decide(0, 0, VerifiedDecision(ZERO_DIGEST, 0, Approve, ZERO_DIGEST))
      case Denied => Decide(0, 0, VerifiedDecision(ZERO_DIGEST, 0, Deny, ZERO_DIGEST))
      case Expired => Cancel(1, 0)
      case Stale => Cancel(0, 1)
      case Cancelled => Cancel(0, 0)
      case Executing => BeginExecution(0, 0)
      case RecoveryRequired => FinishExecution(false, true)
      case Succeeded => if s.Executing? then FinishExecution(true, false) else Reconcile(true)
      case _ => if s.Executing? then FinishExecution(false, false) else Reconcile(false);
  }

  // ----- whole runs

  predicate LogShows(r: Record, state: RequestState) {
    exists m :: 0 <= m < |r.log| && r.log[m].state == state
  }

  /** The record stood where call `i` leads to `next`. */
  predicate LedBy(hash: Hash, first: Record, calls: seq<Call>, i: nat, next: RequestState) {
    i < |calls| && LeadsTo(Run(hash, first, calls[..i]), calls[i], next)
  }

  lemma StepShows(hash: Hash, r: Record, c: Call, state: RequestState)
    ensures LogShows(Step(hash, r, c).0, state) <==> LogShows(r, state) || LeadsTo(r, c, state)
  {
    hide Step, LeadsTo;
    var w := Step(hash, r, c).0;
    if LeadsSomewhere(r, c) {
      var next :| LeadsTo(r, c, next);
      StepLeads(hash, r, c, next);
      if LeadsTo(r, c, state) {
        LeadsToOne(r, c, state, next);
      }
      var n := |r.log|;
      assert w.log[n].state == next;
      assert forall m :: 0 <= m < n ==> w.log[m] == r.log[m];
    } else {
      StepStays(hash, r, c);
    }
  }

  /**
   * Over any run of a new record, its history shows a state other than planning exactly when some call of the run led
   * there from where the record stood.
   */
  lemma {:induction false} HistoryExactly(hash: Hash, first: Record, calls: seq<Call>, state: RequestState)
    requires |first.log| == 1 && first.log[0].state.Planning? && !state.Planning?
    ensures LogShows(Run(hash, first, calls), state) <==> exists i :: 0 <= i < |calls| && LedBy(hash, first, calls, i, state)
  {
    hide Step, LeadsTo, LogShows;
    if calls == [] {
      OnlyPlanning(first, state);
    } else {
      var n := |calls| - 1;
      HistoryExactly(hash, first, calls[..n], state);
      StepShows(hash, Run(hash, first, calls[..n]), calls[n], state);
      forall i | 0 <= i < n ensures LedBy(hash, first, calls, i, state) <==> LedBy(hash, first, calls[..n], i, state) {
        assert calls[..n][..i] == calls[..i];
      }
      assert LedBy(hash, first, calls, n, state) <==> LeadsTo(Run(hash, first, calls[..n]), calls[n], state);
    }
  }

  lemma OnlyPlanning(r: Record, state: RequestState)
    requires |r.log| == 1 && r.log[0].state.Planning? && !state.Planning?
    ensures !LogShows(r, state)
  {
  }

  /**
   * How a request ended is what the call that ended it reported: over any run of a new record, the record is in a closed
   * state exactly when some call of the run led there.
   */
  lemma OutcomeExactly(hash: Hash, requestId: PublicId, receiptId: PublicId, package: Bytes, requestDigest: Digest,
                       generation: u64, deadline: u64, calls: seq<Call>, state: RequestState)
    requires IsTerminal(state)
    ensures var first := Start(hash, requestId, receiptId, package, requestDigest, generation, deadline);
      Run(hash, first, calls).state == state <==> exists i :: 0 <= i < |calls| && LedBy(hash, first, calls, i, state)
  {
    hide Step, Run, LeadsTo, NextEvent, WellFormed;
    var first := Start(hash, requestId, receiptId, package, requestDigest, generation, deadline);
    StartWellFormed(hash, requestId, receiptId, package, requestDigest, generation, deadline);
    RunWellFormed(hash, first, calls);
    HistoryExactly(hash, first, calls, state);
    ClosedShowsLast(hash, Run(hash, first, calls), state);
  }

  /** A closed state can only stand last in a history, and what stands last is the record's state. */
  lemma ClosedShowsLast(hash: Hash, r: Record, state: RequestState)
    requires WellFormed(hash, r) && IsTerminal(state)
    ensures LogShows(r, state) <==> r.state == state
  {
    hide Chained, ReceiptMatches;
    if LogShows(r, state) {
      var m :| 0 <= m < |r.log| && r.log[m].state == state;
      assert m + 1 < |r.log| ==> EdgeAt(r.log, m + 1);
    }
  }
}
