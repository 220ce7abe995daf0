/** Which transactions put a request into the approved or the denied state, over single steps and over whole runs. */
module BrokerDecisions {
  import opened ByteStrings
  import opened Vocabulary
  import opened EventChain
  import opened Results
  import opened BrokerStore
  import opened BrokerRuns

  // ----- what one transaction does to the table

  /** One edge of one request, with the event that records it. */
  predicate Moved(e: Entry, l: Entry) {
    && StoreEdge(e.row.state, l.row.state) && l.id == e.id
    && |l.log| == |e.log| + 1 && l.log[..|e.log|] == e.log && l.log[|e.log|].state == l.row.state
  }

  /** Exactly the request with this identifier moved, into this state. */
  predicate OneMoved(rows: seq<Entry>, later: seq<Entry>, id: PublicId, next: RequestState) {
    && |later| == |rows|
    && exists i :: 0 <= i < |rows| && rows[i].id == id && Moved(rows[i], later[i])
                   && later[i].row.state == next && later == rows[i := later[i]]
  }

  lemma IsOneMoved(rows: seq<Entry>, later: seq<Entry>, i: nat, id: PublicId, next: RequestState)
    requires i < |rows| == |later| && rows[i].id == id && Moved(rows[i], later[i])
    requires later[i].row.state == next && later == rows[i := later[i]]
    ensures OneMoved(rows, later, id, next)
  {
  }

  lemma AppendMoves(k: Crypto, db: Db, id: PublicId, expected: RequestState, next: RequestState, reason: Reason)
    requires AppendTransition(k, db, id, Some(expected), next, reason).Ok? && StoreEdge(expected, next)
    ensures OneMoved(db.requests, AppendTransition(k, db, id, Some(expected), next, reason).value.requests, id, next)
    ensures Find(db.requests, ById(id)).Some? && db.requests[Find(db.requests, ById(id)).value].row.state == expected
  {
    hide Find, NextEvent, AppendTransition, StoreEdge, OneMoved;
    Appended(k, db, id, Some(expected), next, reason);
    var i := Find(db.requests, ById(id)).value;
    assert ById(id)(db.requests[i]);
    IsOneMoved(db.requests, AppendTransition(k, db, id, Some(expected), next, reason).value.requests, i, id, next);
  }

  lemma CloseMoves(k: Crypto, db: Db, id: PublicId, expected: RequestState, next: RequestState, reason: Reason,
                   signer: Signer, now: i64, receiptId: PublicId, evidence: seq<Bytes>)
    requires Close(k, db, id, Some(expected), next, reason, signer, now, receiptId, evidence).Ok?
    requires IsTerminal(next) && StoreEdge(expected, next) && StoreReason(expected, next, reason)
    ensures OneMoved(db.requests, Close(k, db, id, Some(expected), next, reason, signer, now, receiptId, evidence).value.0.requests, id, next)
  {
    hide Find, NextEvent, Close, StoreEdge, StoreReason, Closed, Signs, OneMoved;
    CloseIsAStep(k, db, id, Some(expected), next, reason, signer, now, receiptId, evidence);
    var d := Close(k, db, id, Some(expected), next, reason, signer, now, receiptId, evidence).value.0;
    var i := Find(db.requests, ById(id)).value;
    assert ById(id)(db.requests[i]);
    IsOneMoved(db.requests, d.requests, i, id, next);
  }

  lemma PrepareMoves(k: Crypto, s: Store, id: PublicId, plan: FrozenPlan, context: PendingContext, signer: Signer)
    requires PrepareForDecision(k, s, id, plan, context, signer).Ok?
    ensures OneMoved(s.db.requests, PrepareForDecision(k, s, id, plan, context, signer).value.0.requests, id, Pending)
  {
    hide Find, NextEvent, AppendTransition, SchemaName, OneMoved, RequestFactsOf;
    Appended(k, s.db, id, Some(Planning), Pending, PlannerPending);
    var i := Find(s.db.requests, ById(id)).value;
    assert ById(id)(s.db.requests[i]);
    IsOneMoved(s.db.requests, PrepareForDecision(k, s, id, plan, context, signer).value.0.requests, i, id, Pending);
  }

  lemma ReconcileMoves(k: Crypto, db: Db, id: PublicId, succeeded: bool, evidence: Bytes, signer: Signer, now: i64, receiptId: PublicId)
    requires ReconcileRecovery(k, db, id, succeeded, evidence, signer, now, receiptId).Ok?
    ensures OneMoved(db.requests, ReconcileRecovery(k, db, id, succeeded, evidence, signer, now, receiptId).value.0.requests, id,
                     if succeeded then Succeeded else Failed)
  {
    hide Find, AppendTransition, CreateReceipt, NextEvent, Closed, FactsForReceipt, OneMoved;
    var next := if succeeded then Succeeded else Failed;
    var reason := if succeeded then ReconciledSucceeded else ReconciledFailed;
    var moved := AppendTransition(k, db, id, Some(RecoveryRequired), next, reason).value;
    Appended(k, db, id, Some(RecoveryRequired), next, reason);
    var i := Find(db.requests, ById(id)).value;
    assert ById(id)(db.requests[i]);
    var noted := NoteEvidence(moved, id, evidence);
    FindSameIds(moved.requests, noted.requests, id);
    ReceiptCreated(k, noted, id, next, signer, now, receiptId, []);
    IsOneMoved(db.requests, ReconcileRecovery(k, db, id, succeeded, evidence, signer, now, receiptId).value.0.requests, i, id, next);
  }

  lemma CommitMoves(k: Crypto, db: Db, id: PublicId, v: Verified, evidence: Bytes, signer: Signer, now: i64, receiptId: PublicId)
    requires CommitDecision(k, db, id, v, evidence, signer, now, receiptId).Ok?
    ensures var (d, reply) := CommitDecision(k, db, id, v, evidence, signer, now, receiptId).value;
      reply.DecidedAs? && OneMoved(db.requests, d.requests, id, reply.state)
  {
    hide Find, AppendTransition, CreateReceipt, NextEvent, Counted, OneMoved;
    if db.generation != v.context.generation {
      CloseMoves(k, db, id, Pending, Stale, GenerationStale, signer, now, receiptId, []);
    } else if v.context.decision == Approve {
      AppendMoves(k, db, id, Pending, Approved, ByApproval);
    } else {
      var moved := AppendTransition(k, db, id, Some(Pending), Denied, ByDenial).value;
      ReceiptIgnoresCredentials(k, moved, Counted(moved.credentials, v.credentialId, v.signCount), id, Denied, signer, now, receiptId, [evidence]);
      CloseMoves(k, db, id, Pending, Denied, ByDenial, signer, now, receiptId, [evidence]);
    }
  }

  /** The request a transaction moved, and where to; boots, which move any number, and the rest aim at none. */
  function Aim(op: Op, reply: Reply): (a: Option<(PublicId, RequestState)>) {
    match op
    case OpNonterminal(id, _, next) => Some((id, next))
    case OpPrepare(id, _, _, _) => Some((id, Pending))
    case OpTerminal(id, _, next, _, _, _) => Some((id, next))
    case OpReconcile(id, succeeded, _, _, _, _) => Some((id, if succeeded then Succeeded else Failed))
    case OpCommitDecision(id, _, _, _, _, _) => if reply.DecidedAs? then Some((id, reply.state)) else None
    case _ => None
  }

  predicate Aims(op: Op) {
    op.OpNonterminal? || op.OpPrepare? || op.OpTerminal? || op.OpReconcile? || op.OpCommitDecision?
  }

  /** A successful transaction aimed at a request moves it and nothing else. */
  lemma AimedMoves(k: Crypto, s: Store, op: Op)
    requires Step(k, s, op).1.Ok? && Aims(op)
    ensures var (t, answer) := Step(k, s, op);
      Aim(op, answer.value).Some? && OneMoved(s.db.requests, t.db.requests, Aim(op, answer.value).value.0, Aim(op, answer.value).value.1)
  {
    hide TransitionNonterminal, PrepareForDecision, TransitionTerminal, ReconcileRecovery, CommitDecision, OneMoved;
    match op
    case OpNonterminal(id, expected, next) => NonterminalMoves(k, s.db, id, expected, next);
    case OpPrepare(id, plan, context, signer) => PrepareMoves(k, s, id, plan, context, signer);
    case OpTerminal(id, expected, next, signer, now, receiptId) => TerminalMoves(k, s.db, id, expected, next, signer, now, receiptId);
    case OpReconcile(id, succeeded, evidence, signer, now, receiptId) => ReconcileMoves(k, s.db, id, succeeded, evidence, signer, now, receiptId);
    case OpCommitDecision(id, v, evidence, signer, now, receiptId) => CommitMoves(k, s.db, id, v, evidence, signer, now, receiptId);
  }

  lemma NonterminalMoves(k: Crypto, db: Db, id: PublicId, expected: RequestState, next: RequestState)
    requires TransitionNonterminal(k, db, id, expected, next).Ok?
    ensures OneMoved(db.requests, TransitionNonterminal(k, db, id, expected, next).value.0.requests, id, next)
    ensures TransitionNonterminal(k, db, id, expected, next).value.1 == Reply.Moved(next)
    ensures Permits(expected, next) && !IsTerminal(next)
  {
    hide Find, AppendTransition, OneMoved, DefaultReason;
    AppendMoves(k, db, id, expected, next, DefaultReason(next));
  }

  lemma TerminalMoves(k: Crypto, db: Db, id: PublicId, expected: RequestState, next: RequestState, signer: Signer, now: i64, receiptId: PublicId)
    requires TransitionTerminal(k, db, id, expected, next, signer, now, receiptId).Ok?
    ensures OneMoved(db.requests, TransitionTerminal(k, db, id, expected, next, signer, now, receiptId).value.0.requests, id, next)
    ensures Permits(expected, next) && IsTerminal(next)
  {
    hide Find, Close, OneMoved, DefaultReason;
    CloseMoves(k, db, id, expected, next, DefaultReason(next), signer, now, receiptId, []);
  }

  /** The other transactions keep every row or expire it; rows they add are in planning. */
  predicate OnlyExpires(rows: seq<Entry>, later: seq<Entry>) {
    && |rows| <= |later|
    && (forall i :: 0 <= i < |rows| ==> later[i] == rows[i] || (Moved(rows[i], later[i]) && later[i].row.state == RequestState.Expired))
    && (forall i :: |rows| <= i < |later| ==> later[i].row.state == Planning && |later[i].log| == 1 && later[i].log[0].state == Planning)
  }

  lemma BootOnlyExpires(k: Crypto, db: Db, epoch: u64, signer: Signer, now: i64, draw: nat -> PublicId)
    requires Inv(k, db.requests) && StartBoot(k, db, epoch, signer, now, draw).Ok?
    ensures OnlyExpires(db.requests, StartBoot(k, db, epoch, signer, now, draw).value.0.requests)
  {
    hide Inv, DueIds, ExpireFirst, RowsExtend, Moved, Decodes;
    if db.bootEpoch != epoch {
      var rows, ids := db.requests, DueIds(db.requests, epoch);
      ExpireFirstKeeps(k, db, epoch, |ids|, signer, now, draw);
      assert ids[..|ids|] == ids;
      var later := StartBoot(k, db, epoch, signer, now, draw).value.0.requests;
      forall i | 0 <= i < |rows| && rows[i].id in ids ensures Moved(rows[i], later[i]) {
        DueRow(k, rows, epoch, i, rows[i].id);
        ExpiryMoves(k, rows, later, i);
      }
    }
  }

  lemma ExpiryMoves(k: Crypto, rows: seq<Entry>, later: seq<Entry>, i: nat)
    requires Inv(k, later) && RowsExtend(rows, later) && i < |rows| && ExpiresAtBoot(rows[i].row.state)
    requires later[i].row.state == RequestState.Expired && |later[i].log| == |rows[i].log| + 1
    ensures Moved(rows[i], later[i])
  {
    hide Chained, StoreHistory, Signs, Closed, Separate;
    BootEdge(rows[i].row.state);
    assert EntryOk(k, later[i]) && Extends(rows[i], later[i]);
  }

  lemma SubmitOnlyAdds(k: Crypto, s: Store, r: PackageInstall, allowed: bool)
    requires Submit(k, s, r, allowed).Ok?
    ensures OnlyExpires(s.db.requests, Submit(k, s, r, allowed).value.0.requests)
  {
    hide Find, Moved;
  }

  lemma UnaimedOnlyExpires(k: Crypto, s: Store, op: Op)
    requires Inv(k, s.db.requests)
    requires Step(k, s, op).1.Err? || !Aims(op)
    ensures OnlyExpires(s.db.requests, Step(k, s, op).0.db.requests)
  {
    hide Inv, Moved, PinAll, Submit, StartBoot, TransitionNonterminal, PrepareForDecision, TransitionTerminal, ReconcileRecovery, CommitDecision;
    if Step(k, s, op).1.Ok? {
      match op
      case OpStartBoot(epoch, signer, now, draw) => BootOnlyExpires(k, s.db, epoch, signer, now, draw);
      case OpSubmit(r, allowed) => SubmitOnlyAdds(k, s, r, allowed);
      case _ =>
    }
  }

  function AimOf(op: Op, answer: Result<Reply, BrokerError>): (a: Option<(PublicId, RequestState)>) {
    if answer.Ok? then Aim(op, answer.value) else None
  }

  /** What any transaction does to any row: the one aimed at moves there, every other stays or expires. */
  lemma RowAfter(k: Crypto, s: Store, op: Op, i: nat)
    requires Inv(k, s.db.requests) && i < |s.db.requests|
    ensures var (t, answer) := Step(k, s, op);
      var (e, aim) := (s.db.requests[i], AimOf(op, answer));
      && i < |t.db.requests|
      && (if aim.Some? && aim.value.0 == e.id then Moved(e, t.db.requests[i]) && t.db.requests[i].row.state == aim.value.1
          else t.db.requests[i] == e || (Moved(e, t.db.requests[i]) && t.db.requests[i].row.state == RequestState.Expired))
  {
    hide Inv, Step, Moved;
    var (t, answer) := Step(k, s, op);
    if answer.Ok? && Aims(op) {
      AimedMoves(k, s, op);
      var aim := Aim(op, answer.value).value;
      var j :| 0 <= j < |s.db.requests| && s.db.requests[j].id == aim.0 && Moved(s.db.requests[j], t.db.requests[j])
               && t.db.requests[j].row.state == aim.1 && t.db.requests == s.db.requests[j := t.db.requests[j]];
      if j != i {
        IdsDiffer(k, s.db.requests, i, j);
      }
    } else {
      UnaimedOnlyExpires(k, s, op);
    }
  }

  // ----- single steps

  /** A decision that committed in this state, on this request. */
  predicate DecidedBy(op: Op, answer: Result<Reply, BrokerError>, id: PublicId, state: RequestState) {
    op.OpCommitDecision? && op.id == id && answer.Ok? && answer.value.DecidedAs? && answer.value.state == state
  }

  /** A caller that moved this pending request straight into the approved or the denied state. */
  predicate MovedBy(op: Op, answer: Result<Reply, BrokerError>, id: PublicId, state: RequestState) {
    && answer.Ok?
    && (if state.Approved? then op.OpNonterminal? && op.id == id && op.expected.Pending? && op.next.Approved?
        else state.Denied? && op.OpTerminal? && op.id == id && op.expected.Pending? && op.next.Denied?)
  }

  predicate IsVerdict(state: RequestState) {
    state.Approved? || state.Denied?
  }

  lemma AimAtVerdict(k: Crypto, s: Store, op: Op, id: PublicId, state: RequestState)
    requires Step(k, s, op).1.Ok? && IsVerdict(state)
    ensures var answer := Step(k, s, op).1;
      Aim(op, answer.value) == Some((id, state)) <==> DecidedBy(op, answer, id, state) || MovedBy(op, answer, id, state)
  {
    hide TransitionNonterminal, TransitionTerminal, PrepareForDecision, CommitDecision, ReconcileRecovery, OneMoved;
    match op
    case OpNonterminal(id', expected, next) => NonterminalMoves(k, s.db, id', expected, next);
    case OpTerminal(id', expected, next, signer, now, receiptId) => TerminalMoves(k, s.db, id', expected, next, signer, now, receiptId);
    case _ =>
  }

  /**
   * A row enters the approved or the denied state exactly when a decision on it commits with that outcome, or a caller
   * moves it there from pending; no other transaction does it.
   */
  lemma VerdictExactly(k: Crypto, s: Store, op: Op, i: nat, state: RequestState)
    requires Inv(k, s.db.requests) && i < |s.db.requests| && IsVerdict(state) && s.db.requests[i].row.state != state
    ensures var (t, answer) := Step(k, s, op);
      && i < |t.db.requests| && t.db.requests[i].id == s.db.requests[i].id
      && (t.db.requests[i].row.state == state
          <==> DecidedBy(op, answer, s.db.requests[i].id, state) || MovedBy(op, answer, s.db.requests[i].id, state))
  {
    hide Inv, Step, DecidedBy, MovedBy, Aim, StoreEdge;
    RowAfter(k, s, op, i);
    if Step(k, s, op).1.Ok? {
      AimAtVerdict(k, s, op, s.db.requests[i].id, state);
    } else {
      NoAnswerNoVerdict(op, Step(k, s, op).1, s.db.requests[i].id, state);
    }
  }

  lemma NoAnswerNoVerdict(op: Op, answer: Result<Reply, BrokerError>, id: PublicId, state: RequestState)
    requires answer.Err?
    ensures !DecidedBy(op, answer, id, state) && !MovedBy(op, answer, id, state)
  {
  }

  // ----- whole runs

  /** The request's history passes through this state. */
  predicate LogShows(e: Entry, state: RequestState) {
    exists m :: 0 <= m < |e.log| && e.log[m].state == state
  }

  lemma MoveShows(e: Entry, l: Entry, state: RequestState)
    requires Moved(e, l)
    ensures LogShows(l, state) <==> LogShows(e, state) || l.row.state == state
  {
    hide StoreEdge;
    var n := |e.log|;
    assert l.log[n].state == l.row.state;
    assert forall m :: 0 <= m < n ==> l.log[m] == e.log[m];
  }

  /** One step makes a history show a verdict exactly when the step is that verdict. */
  lemma StepShows(k: Crypto, s: Store, op: Op, i: nat, state: RequestState)
    requires Inv(k, s.db.requests) && i < |s.db.requests| && IsVerdict(state)
    ensures var (t, answer) := Step(k, s, op);
      var id := s.db.requests[i].id;
      && i < |t.db.requests| && t.db.requests[i].id == id
      && (LogShows(t.db.requests[i], state)
          <==> LogShows(s.db.requests[i], state) || DecidedBy(op, answer, id, state) || MovedBy(op, answer, id, state))
  {
    hide Inv, Step, DecidedBy, MovedBy, Aim, LogShows, StoreEdge;
    var (t, answer) := Step(k, s, op);
    RowAfter(k, s, op, i);
    if t.db.requests[i] != s.db.requests[i] {
      MoveShows(s.db.requests[i], t.db.requests[i], state);
    }
    if answer.Ok? {
      AimAtVerdict(k, s, op, s.db.requests[i].id, state);
      if AimOf(op, answer) == Some((s.db.requests[i].id, state)) {
        MoveShows(s.db.requests[i], t.db.requests[i], state);
      }
    } else {
      NoAnswerNoVerdict(op, answer, s.db.requests[i].id, state);
    }
  }

  /** Step `n` of the run is this verdict on this request. */
  predicate VerdictAt(k: Crypto, s: Store, ops: seq<Op>, n: nat, id: PublicId, state: RequestState)
    requires n < |ops|
  {
    var answer := Step(k, Run(k, s, ops[..n]), ops[n]).1;
    DecidedBy(ops[n], answer, id, state) || MovedBy(ops[n], answer, id, state)
  }

  lemma VerdictHasRow(k: Crypto, s: Store, op: Op, id: PublicId, state: RequestState) returns (i: nat)
    requires IsVerdict(state) && (DecidedBy(op, Step(k, s, op).1, id, state) || MovedBy(op, Step(k, s, op).1, id, state))
    ensures i < |s.db.requests| && s.db.requests[i].id == id
  {
    hide Step, Moved;
    AimAtVerdict(k, s, op, id, state);
    AimedMoves(k, s, op);
    var later := Step(k, s, op).0.db.requests;
    i :| 0 <= i < |s.db.requests| && s.db.requests[i].id == id && Moved(s.db.requests[i], later[i])
         && later[i].row.state == state && later == s.db.requests[i := later[i]];
  }

  lemma NewRowsShowNothing(k: Crypto, s: Store, op: Op, i: nat, state: RequestState)
    requires Inv(k, s.db.requests) && IsVerdict(state) && |s.db.requests| <= i < |Step(k, s, op).0.db.requests|
    ensures !LogShows(Step(k, s, op).0.db.requests[i], state)
  {
    hide Inv, Step, Moved;
    if Step(k, s, op).1.Ok? && Aims(op) {
      AimedMoves(k, s, op);
    } else {
      UnaimedOnlyExpires(k, s, op);
    }
  }

  /**
   * From a new store on, a request's history shows the approved or the denied state exactly when some step of the run
   * was a committed decision with that outcome on it, or a caller's move into that state.
   */
  lemma {:induction false} VerdictsOfRun(k: Crypto, s: Store, ops: seq<Op>, id: PublicId, state: RequestState)
    requires s.db.requests == [] && IsVerdict(state)
    ensures (exists n :: 0 <= n < |ops| && VerdictAt(k, s, ops, n, id, state))
       <==> (exists i :: 0 <= i < |Run(k, s, ops).db.requests| && Run(k, s, ops).db.requests[i].id == id
                         && LogShows(Run(k, s, ops).db.requests[i], state))
  {
    hide Step, LogShows, DecidedBy, MovedBy, Inv;
    if ops != [] {
      var last := |ops| - 1;
      var t := Run(k, s, ops[..last]);
      var rows, later := t.db.requests, Run(k, s, ops).db.requests;
      EmptyKeeps(k, s, ops[..last]);
      VerdictsOfRun(k, s, ops[..last], id, state);
      assert forall n :: 0 <= n < last ==> ops[..last][..n] == ops[..n];
      assert forall n :: 0 <= n < last ==> (VerdictAt(k, s, ops, n, id, state) <==> VerdictAt(k, s, ops[..last], n, id, state));
      forall i | 0 <= i < |rows|
        ensures i < |later| && later[i].id == rows[i].id
        ensures LogShows(later[i], state) <==> LogShows(rows[i], state) || VerdictAt(k, s, ops, last, rows[i].id, state)
      {
        StepShows(k, t, ops[last], i, state);
      }
      forall i | |rows| <= i < |later| ensures !LogShows(later[i], state) {
        NewRowsShowNothing(k, t, ops[last], i, state);
      }
      if VerdictAt(k, s, ops, last, id, state) {
        var i := VerdictHasRow(k, t, ops[last], id, state);
        assert LogShows(later[i], state);
      }
    }
  }

  // ----- when an approved request was decided

  /** No caller moves a pending request straight into this state. */
  predicate NoShortcut(ops: seq<Op>, state: RequestState) {
    forall n :: 0 <= n < |ops| ==>
      if state.Approved? then !(ops[n].OpNonterminal? && ops[n].next.Approved?)
      else !(ops[n].OpTerminal? && ops[n].expected.Pending? && ops[n].next.Denied?)
  }

  /** What a decision was read and verified from, at some step of the run. */
  datatype Reading = Reading(step: nat, submission: DecisionSubmission, party: RelyingParty, nowMono: u64)

  predicate ReadAt(k: Crypto, s: Store, ops: seq<Op>, read: Reading, id: PublicId, now: i64, v: Verified) {
    && read.step <= |ops|
    && ReadPhase(Run(k, s, ops[..read.step]), id, read.submission, read.party, read.nowMono, now) == Ok(Proceed(v))
  }

  /** The callers of the write transaction read and verify first, with whatever running in between. */
  ghost predicate CommitsRead(k: Crypto, s: Store, ops: seq<Op>) {
    forall n :: 0 <= n < |ops| && ops[n].OpCommitDecision? ==>
      exists read: Reading :: read.step <= n && ReadAt(k, s, ops, read, ops[n].id, ops[n].now, ops[n].verified)
  }

  /** A genuine submission with this verdict, under a credential pinned when it was read, on what the request itself binds. */
  predicate GenuineVerdict(k: Crypto, s: Store, ops: seq<Op>, read: Reading, e: Entry, state: RequestState) {
    && read.step <= |ops| && e.row.binding.Some?
    && var (b, c) := (e.row.binding.value, read.submission.context);
      && PinnedAndGenuine(Run(k, s, ops[..read.step]).db, read.submission, e.row.generation)
      && c.requestId == e.id && c.requestDigest == b.requestDigest && c.generation == e.row.generation
      && c.nonce == b.context.nonce && c.expiresUtc == b.context.expiresUtc
      && (c.decision == Approve <==> state.Approved?)
  }

  lemma {:induction false} RunAppends(k: Crypto, s: Store, ops: seq<Op>, more: seq<Op>)
    ensures Run(k, s, ops + more) == Run(k, Run(k, s, ops), more)
    decreases |more|
  {
    hide Step;
    if more == [] {
      assert ops + more == ops;
    } else {
      var n := |more| - 1;
      RunAppends(k, s, ops, more[..n]);
      assert (ops + more)[..|ops + more| - 1] == ops + more[..n];
    }
  }

  lemma SameId(rows: seq<Entry>, later: seq<Entry>, i: nat)
    requires RowsExtend(rows, later) && i < |rows|
    ensures i < |later| && later[i].id == rows[i].id
  {
    assert Extends(rows[i], later[i]);
  }

  /** A request named by its identifier in the middle of a run is the one with that identifier at its end. */
  lemma SameRequest(k: Crypto, s: Store, ops: seq<Op>, n: nat, j: nat, i: nat)
    requires s.db.requests == [] && n <= |ops|
    requires j < |Run(k, s, ops[..n]).db.requests| && i < |Run(k, s, ops).db.requests|
    requires Run(k, s, ops[..n]).db.requests[j].id == Run(k, s, ops).db.requests[i].id
    ensures Extends(Run(k, s, ops[..n]).db.requests[j], Run(k, s, ops).db.requests[i])
  {
    hide Run, Inv, Extends;
    EmptyKeeps(k, s, ops[..n]);
    RunAppends(k, s, ops[..n], ops[n..]);
    assert ops[..n] + ops[n..] == ops;
    RunKeeps(k, Run(k, s, ops[..n]), ops[n..]);
    SameId(Run(k, s, ops[..n]).db.requests, Run(k, s, ops).db.requests, j);
    if i != j {
      IdsDiffer(k, Run(k, s, ops).db.requests, i, j);
    }
  }

  lemma CommitIsGenuine(k: Crypto, s: Store, ops: seq<Op>, n: nat, read: Reading, i: nat, state: RequestState)
    requires s.db.requests == [] && IsVerdict(state) && n < |ops| && read.step <= n && ops[n].OpCommitDecision?
    requires i < |Run(k, s, ops).db.requests| && ops[n].id == Run(k, s, ops).db.requests[i].id
    requires DecidedBy(ops[n], Step(k, Run(k, s, ops[..n]), ops[n]).1, ops[n].id, state)
    requires ReadAt(k, s, ops, read, ops[n].id, ops[n].now, ops[n].verified)
    ensures GenuineVerdict(k, s, ops, read, Run(k, s, ops).db.requests[i], state)
  {
    hide Run, Inv, Find, CommitDecision, ReadPhase;
    var op := ops[n];
    var (at, t) := (Run(k, s, ops[..read.step]), Run(k, s, ops[..n]));
    EmptyKeeps(k, s, ops[..read.step]);
    RunAppends(k, s, ops[..read.step], ops[read.step..n]);
    assert ops[..read.step] + ops[read.step..n] == ops[..n];
    DecisionStillBound(k, at, op.id, read.submission, read.party, read.nowMono, op.now, ops[read.step..n], op.evidence, op.signer, op.receiptId);
    SubmittedContext(at, op.id, read.submission, read.party, read.nowMono, op.now);
    ReadContext(at, op.id, read.submission, read.party, read.nowMono, op.now);
    var j := Find(at.db.requests, ById(op.id)).value;
    SameRequest(k, s, ops, n, j, i);
  }

  /**
   * Approved means approved by a person: from a new store on, if no caller moves a request there directly and every
   * decision is read and verified before it commits, then a history that shows a verdict has behind it a committed
   * decision with that outcome, on a genuine submission that names this very request, its digest, nonce and expiry.
   */
  lemma VerdictMeansDecision(k: Crypto, s: Store, ops: seq<Op>, i: nat, state: RequestState) returns (n: nat, read: Reading)
    requires s.db.requests == [] && IsVerdict(state) && NoShortcut(ops, state) && CommitsRead(k, s, ops)
    requires i < |Run(k, s, ops).db.requests| && LogShows(Run(k, s, ops).db.requests[i], state)
    ensures n < |ops| && read.step <= n
    ensures DecidedBy(ops[n], Step(k, Run(k, s, ops[..n]), ops[n]).1, Run(k, s, ops).db.requests[i].id, state)
    ensures GenuineVerdict(k, s, ops, read, Run(k, s, ops).db.requests[i], state)
  {
    hide Run, Step, LogShows, GenuineVerdict, ReadAt;
    var e := Run(k, s, ops).db.requests[i];
    VerdictsOfRun(k, s, ops, e.id, state);
    n :| 0 <= n < |ops| && VerdictAt(k, s, ops, n, e.id, state);
    read :| read.step <= n && ReadAt(k, s, ops, read, ops[n].id, ops[n].now, ops[n].verified);
    CommitIsGenuine(k, s, ops, n, read, i, state);
  }

  predicate PastApproval(state: RequestState) {
    state.Approved? || state.Executing? || state.RecoveryRequired? || state.Succeeded? || state.Failed?
  }

  lemma {:induction false} ApprovedFirst(log: seq<Event>, n: nat)
    requires StoreHistory(log) && n < |log| && PastApproval(log[n].state)
    ensures exists m :: 0 <= m < |log| && log[m].state == Approved
  {
    assert EdgeAt(log, n);
    if log[n].state != Approved {
      ApprovedFirst(log, n - 1);
    }
  }

  /** Nothing was executed that was not approved by such a decision. */
  lemma ExecutedMeansApproved(k: Crypto, s: Store, ops: seq<Op>, i: nat) returns (n: nat, read: Reading)
    requires s.db.requests == [] && NoShortcut(ops, Approved) && CommitsRead(k, s, ops)
    requires i < |Run(k, s, ops).db.requests| && PastApproval(Run(k, s, ops).db.requests[i].row.state)
    ensures n < |ops| && read.step <= n
    ensures DecidedBy(ops[n], Step(k, Run(k, s, ops[..n]), ops[n]).1, Run(k, s, ops).db.requests[i].id, Approved)
    ensures GenuineVerdict(k, s, ops, read, Run(k, s, ops).db.requests[i], Approved)
  {
    hide Run, Step, NoShortcut, CommitsRead, GenuineVerdict, DecidedBy, StoreHistory, PastApproval;
    EmptyKeeps(k, s, ops);
    var e := Run(k, s, ops).db.requests[i];
    EndOfHistory(k, Run(k, s, ops).db.requests, i);
    ApprovedFirst(e.log, |e.log| - 1);
    n, read := VerdictMeansDecision(k, s, ops, i, Approved);
  }

  lemma EndOfHistory(k: Crypto, rows: seq<Entry>, i: nat)
    requires Inv(k, rows) && i < |rows|
    ensures StoreHistory(rows[i].log) && rows[i].log != [] && rows[i].log[|rows[i].log| - 1].state == rows[i].row.state
  {
    hide Chained, Separate, Signs, Closed;
    assert EntryOk(k, rows[i]);
  }

  // ----- the moves that are not decisions

  /** The condition is needed: three calls approve a request that was never frozen, shown or decided. */
  lemma ApprovedWithoutDecision(k: Crypto, s: Store, r: PackageInstall)
    requires s.db.requests == [] && r.generation <= I64_MAX
    ensures var ops := [OpSubmit(r, true), OpNonterminal(r.requestId, Planning, Pending), OpNonterminal(r.requestId, Pending, Approved)];
      var rows := Run(k, s, ops).db.requests;
      |rows| == 1 && rows[0].id == r.requestId && rows[0].row.state == Approved && rows[0].row.binding.None?
  {
    hide Step, Run;
    var submit, first, second := OpSubmit(r, true), OpNonterminal(r.requestId, Planning, Pending), OpNonterminal(r.requestId, Pending, Approved);
    RunOneMore(k, s, [], submit);
    RunOneMore(k, s, [submit], first);
    RunOneMore(k, s, [submit, first], second);
    assert [] + [submit] == [submit] && [submit] + [first] == [submit, first] && [submit, first] + [second] == [submit, first, second];
    FirstSubmission(k, s, r);
    MoveOnly(k, Run(k, s, [submit]), Planning, Pending);
    MoveOnly(k, Run(k, s, [submit, first]), Pending, Approved);
  }

  lemma RunOneMore(k: Crypto, s: Store, ops: seq<Op>, op: Op)
    ensures Run(k, s, []) == s && Run(k, s, ops + [op]) == Step(k, Run(k, s, ops), op).0
  {
    hide Step;
    assert (ops + [op])[..|ops|] == ops;
  }

  lemma FirstSubmission(k: Crypto, s: Store, r: PackageInstall)
    requires s.db.requests == [] && r.generation <= I64_MAX
    ensures Step(k, s, OpSubmit(r, true)).0 == s.(db := s.db.(requests := [FreshEntry(k, s.device, r)]))
  {
    hide FreshEntry;
  }

  lemma MoveOnly(k: Crypto, s: Store, expected: RequestState, next: RequestState)
    requires |s.db.requests| == 1 && s.db.requests[0].row.state == expected && 0 < |s.db.requests[0].log| <= 6
    requires Permits(expected, next) && !IsTerminal(next)
    ensures Step(k, s, OpNonterminal(s.db.requests[0].id, expected, next)).0
         == s.(db := s.db.(requests := [Advanced(k, s.db.requests[0], next, DefaultReason(next))]))
  {
    hide Advanced, DefaultReason;
    assert s.db.requests == [s.db.requests[0]];
  }

  /** Nor can the table tell later: a direct move leaves the same rows and events, reasons included, as a committed approval. */
  lemma ApprovalsLookAlike(k: Crypto, db: Db, id: PublicId, v: Verified, evidence: Bytes, signer: Signer, now: i64, receiptId: PublicId)
    requires CommitDecision(k, db, id, v, evidence, signer, now, receiptId).Ok?
    requires CommitDecision(k, db, id, v, evidence, signer, now, receiptId).value.1 == DecidedAs(Approved, None)
    ensures TransitionNonterminal(k, db, id, Pending, Approved).Ok?
    ensures TransitionNonterminal(k, db, id, Pending, Approved).value.0.requests
         == CommitDecision(k, db, id, v, evidence, signer, now, receiptId).value.0.requests
  {
    hide Find, AppendTransition, CreateReceipt, Counted;
  }

  /** A direct denial leaves the same state and events as a committed one; only the evidence in the receipt differs. */
  lemma DenialsLookAlike(k: Crypto, db: Db, id: PublicId, v: Verified, evidence: Bytes, signer: Signer, now: i64, receiptId: PublicId)
    requires CommitDecision(k, db, id, v, evidence, signer, now, receiptId).Ok?
    requires CommitDecision(k, db, id, v, evidence, signer, now, receiptId).value.1.DecidedAs?
    requires CommitDecision(k, db, id, v, evidence, signer, now, receiptId).value.1.state == Denied
    requires TransitionTerminal(k, db, id, Pending, Denied, signer, now, receiptId).Ok?
    ensures Find(db.requests, ById(id)).Some?
    ensures var decided, direct := CommitDecision(k, db, id, v, evidence, signer, now, receiptId).value.0,
                                   TransitionTerminal(k, db, id, Pending, Denied, signer, now, receiptId).value.0;
      var i := Find(db.requests, ById(id)).value;
      && |decided.requests| == |direct.requests| == |db.requests|
      && decided.requests == direct.requests[i := decided.requests[i]]
      && decided.requests[i].log == direct.requests[i].log && decided.requests[i].row.state == direct.requests[i].row.state == Denied
  {
    hide Find, AppendTransition, CreateReceipt, NextEvent, Counted, Closed, Signs, FactsForReceipt;
    var moved := AppendTransition(k, db, id, Some(Pending), Denied, ByDenial).value;
    Appended(k, db, id, Some(Pending), Denied, ByDenial);
    ReceiptIgnoresCredentials(k, moved, Counted(moved.credentials, v.credentialId, v.signCount), id, Denied, signer, now, receiptId, [evidence]);
    ReceiptCreated(k, moved, id, Denied, signer, now, receiptId, [evidence]);
    ReceiptCreated(k, moved, id, Denied, signer, now, receiptId, []);
  }
}
