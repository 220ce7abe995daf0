/** What the broker's database keeps over any run of its transactions. */
module BrokerRuns {
  import opened ByteStrings
  import opened Vocabulary
  import opened EventChain
  import opened Results
  import opened BrokerStore
  import Lifecycle

  // ----- runs

  datatype Op =
    | OpInitialize(signer: Signer, newDevice: DeviceId)
    | OpStartBoot(epoch: u64, signer: Signer, now: i64, draw: nat -> PublicId)
    | OpSubmit(submission: PackageInstall, allowed: bool)
    | OpNonterminal(id: PublicId, expected: RequestState, next: RequestState)
    | OpPrepare(id: PublicId, plan: FrozenPlan, context: PendingContext, signer: Signer)
    | OpReplaceCredentials(generation: u64, pins: seq<CredentialPin>)
    | OpTerminal(id: PublicId, expected: RequestState, next: RequestState, signer: Signer, now: i64, receiptId: PublicId)
    | OpReconcile(id: PublicId, succeeded: bool, evidence: Bytes, signer: Signer, now: i64, receiptId: PublicId)
    | OpCommitDecision(id: PublicId, verified: Verified, evidence: Bytes, signer: Signer, now: i64, receiptId: PublicId)

  function Step(k: Crypto, s: Store, op: Op): (r: (Store, Result<Reply, BrokerError>)) {
    match op
    case OpInitialize(signer, newDevice) =>
      (match InitializeIdentity(s, signer, newDevice)
       case Ok((db, device)) => (Store(db, device), Ok(Done))
       case Err(error) => (s, Err(error)))
    case OpStartBoot(epoch, signer, now, draw) => Commit(s, StartBoot(k, s.db, epoch, signer, now, draw))
    case OpSubmit(submission, allowed) => Commit(s, Submit(k, s, submission, allowed))
    case OpNonterminal(id, expected, next) => Commit(s, TransitionNonterminal(k, s.db, id, expected, next))
    case OpPrepare(id, plan, context, signer) => Commit(s, PrepareForDecision(k, s, id, plan, context, signer))
    case OpReplaceCredentials(generation, pins) => Commit(s, ReplaceCredentials(s.db, generation, pins))
    case OpTerminal(id, expected, next, signer, now, receiptId) =>
      Commit(s, TransitionTerminal(k, s.db, id, expected, next, signer, now, receiptId))
    case OpReconcile(id, succeeded, evidence, signer, now, receiptId) =>
      Commit(s, ReconcileRecovery(k, s.db, id, succeeded, evidence, signer, now, receiptId))
    case OpCommitDecision(id, verified, evidence, signer, now, receiptId) =>
      Commit(s, CommitDecision(k, s.db, id, verified, evidence, signer, now, receiptId))
  }

  function Run(k: Crypto, s: Store, ops: seq<Op>): (end: Store) {
    if ops == [] then s else Step(k, Run(k, s, ops[..|ops| - 1]), ops[|ops| - 1]).0
  }

  // ----- one request

  /** The store's edges: the lifecycle's, and planning to expired at a new boot. */
  predicate StoreEdge(s: RequestState, next: RequestState) {
    Permits(s, next) || (s.Planning? && next.Expired?)
  }

  predicate StoreReason(s: RequestState, next: RequestState, reason: Reason) {
    || reason == DefaultReason(next)
    || (s.RecoveryRequired? && next.Succeeded? && reason == ReconciledSucceeded)
    || (s.RecoveryRequired? && next.Failed? && reason == ReconciledFailed)
  }

  predicate EdgeAt(log: seq<Event>, i: nat)
    requires i < |log|
  {
    if i == 0 then log[i].state.Planning? && log[i].reason == Reason.Created
    else StoreEdge(log[i - 1].state, log[i].state) && StoreReason(log[i - 1].state, log[i].state, log[i].reason)
  }

  ghost predicate StoreHistory(log: seq<Event>) {
    log != [] && forall i :: 0 <= i < |log| ==> EdgeAt(log, i)
  }

  /** The stored binding is what was signed, for this request and these values. */
  ghost predicate Signs(k: Crypto, signer: Signer, f: RequestFacts, e: Entry)
    requires e.row.binding.Some?
  {
    var b := e.row.binding.value;
    && k.sealRequest(signer, f) == Some(SealedRequest(b.requestDigest, b.requestCose, b.frozenPlan))
    && f.requestId == e.id && f.uid == e.row.uid && f.packageName == e.row.packageName && f.generation == e.row.generation
    && f.planDigest == b.planDigest && f.context == b.context
    && b.context.createdUtc <= b.context.expiresUtc && SchemaName(e.row.packageName)
  }

  /**
   * The stored receipt is what was signed: for this request in its final state, over the digests its row holds, or the
   * input digest and zeros if it was never frozen.
   */
  ghost predicate ReceiptSigns(k: Crypto, signer: Signer, f: ReceiptFacts, e: Entry)
    requires e.receipt.Some?
  {
    var r := e.receipt.value;
    && k.sealReceipt(signer, f) == Some(r.cose)
    && f.receiptId == r.receiptId && f.requestId == e.id && f.terminalState == e.row.state
    && (match e.row.binding
        case Some(b) => f.requestDigest == b.requestDigest && f.planDigest == b.planDigest && f.createdUtc == b.context.createdUtc
        case None => f.requestDigest == e.row.inputDigest && f.planDigest == ZERO_DIGEST && f.createdUtc == 0)
    && f.recoveryEvidence == e.row.recoveryEvidence
    && f.createdUtc == r.createdUtc <= f.completedUtc == r.completedUtc
    && r.terminalState == e.row.state && r.uid == e.row.uid
    && e.row.receiptBytes == Some(r.cose)
    && Decodes(e.id) && Decodes(r.receiptId)
  }

  ghost predicate Closed(k: Crypto, e: Entry) {
    e.receipt.Some? && exists signer, f :: ReceiptSigns(k, signer, f, e)
  }

  ghost predicate EntryOk(k: Crypto, e: Entry) {
    && Chained(k.hash, e.id, e.log)
    && StoreHistory(e.log)
    && e.log[|e.log| - 1].state == e.row.state
    && |e.log| + Lifecycle.Rank(e.row.state) <= 6
    && e.row.inputDigest == k.inputDigest(e.row.packageName)
    && e.row.bootEpoch == 0 && IntakeName(e.row.packageName)
    && (e.row.state.Planning? ==> e.row.binding.None?)
    && (e.row.binding.Some? ==> exists signer, f :: Signs(k, signer, f, e))
    && (if IsTerminal(e.row.state) then Closed(k, e)
        else e.receipt.None? && e.row.receiptBytes.None? && e.row.recoveryEvidence.None?)
  }

  /** What later steps leave of a request: who asked for what, its past, and everything once it is closed. */
  ghost predicate Extends(e: Entry, l: Entry) {
    && l.id == e.id
    && l.row == e.row.(state := l.row.state, binding := l.row.binding, receiptBytes := l.row.receiptBytes,
                       recoveryEvidence := l.row.recoveryEvidence)
    && e.log <= l.log
    && (!e.row.state.Planning? ==> l.row.binding == e.row.binding)
    && (IsTerminal(e.row.state) ==> l == e)
  }

  // ----- the whole table

  /** Two rows that the unique indexes allow together. */
  predicate Separate(a: Entry, b: Entry) {
    && a.id != b.id
    && !(a.row.uid == b.row.uid && a.row.operationKey == b.row.operationKey)
    && !(a.row.device == b.row.device && HoldsSlot(a.row.state) && HoldsSlot(b.row.state))
    && !(a.receipt.Some? && b.receipt.Some? && a.receipt.value.receiptId == b.receipt.value.receiptId)
  }

  ghost predicate Inv(k: Crypto, rows: seq<Entry>) {
    && (forall i :: 0 <= i < |rows| ==> EntryOk(k, rows[i]))
    && (forall i, j :: 0 <= i < j < |rows| ==> Separate(rows[i], rows[j]))
  }

  ghost predicate RowsExtend(rows: seq<Entry>, later: seq<Entry>) {
    |rows| <= |later| && forall i :: 0 <= i < |rows| ==> Extends(rows[i], later[i])
  }

  lemma ExtendsTransitive(a: Entry, b: Entry, c: Entry)
    requires Extends(a, b) && Extends(b, c)
    requires !a.row.state.Planning? ==> !b.row.state.Planning?
    ensures Extends(a, c)
  {
  }

  /** Planning is never entered again. */
  lemma PastPlanning(k: Crypto, a: Entry, b: Entry)
    requires Extends(a, b) && EntryOk(k, a) && EntryOk(k, b) && !a.row.state.Planning?
    ensures !b.row.state.Planning?
  {
    hide Chained;
    var n := |b.log| - 1;
    assert EdgeAt(b.log, n);
    assert EdgeAt(a.log, |a.log| - 1);
  }

  lemma RowsExtendTransitive(k: Crypto, a: seq<Entry>, b: seq<Entry>, c: seq<Entry>)
    requires Inv(k, a) && Inv(k, b) && RowsExtend(a, b) && RowsExtend(b, c)
    ensures RowsExtend(a, c)
  {
    hide EntryOk, Separate, Extends;
    forall i | 0 <= i < |a| ensures Extends(a[i], c[i]) {
      if !a[i].row.state.Planning? {
        PastPlanning(k, a[i], b[i]);
      }
      ExtendsTransitive(a[i], b[i], c[i]);
    }
  }

  // ----- one step of one request

  /** A permitted move of one request, receipt included when it closes. */
  ghost predicate EntryStep(k: Crypto, e: Entry, l: Entry, reason: Reason) {
    && StoreEdge(e.row.state, l.row.state) && StoreReason(e.row.state, l.row.state, reason)
    && l.id == e.id
    && l.log == e.log + [NextEvent(k.hash, e.id, e.log, l.row.state, reason)]
    && l.row == e.row.(state := l.row.state, binding := l.row.binding, receiptBytes := l.row.receiptBytes,
                       recoveryEvidence := l.row.recoveryEvidence)
    && (|| l.row.binding == e.row.binding
        || (e.row.state.Planning? && l.row.binding.Some? && exists signer, f :: Signs(k, signer, f, l)))
    && (if IsTerminal(l.row.state) then Closed(k, l)
        else l.receipt == e.receipt && l.row.receiptBytes == e.row.receiptBytes && l.row.recoveryEvidence == e.row.recoveryEvidence)
  }

  lemma EdgeFacts(s: RequestState, next: RequestState)
    requires StoreEdge(s, next)
    ensures !IsTerminal(s) && HoldsSlot(s) && !next.Planning? && Lifecycle.Rank(next) < Lifecycle.Rank(s)
  {
  }

  lemma HistoryGrows(log: seq<Event>, e: Event)
    requires StoreHistory(log) && StoreEdge(log[|log| - 1].state, e.state) && StoreReason(log[|log| - 1].state, e.state, e.reason)
    ensures StoreHistory(log + [e])
  {
    hide StoreEdge, StoreReason;
    forall i | 0 <= i < |log| ensures EdgeAt(log + [e], i) {
      assert EdgeAt(log, i);
    }
  }

  lemma SignsStays(k: Crypto, signer: Signer, f: RequestFacts, e: Entry, l: Entry)
    requires e.row.binding.Some? && Signs(k, signer, f, e) && l.id == e.id
    requires l.row.binding == e.row.binding && l.row.uid == e.row.uid && l.row.packageName == e.row.packageName && l.row.generation == e.row.generation
    ensures Signs(k, signer, f, l)
  {
  }

  lemma EntryStepKeeps(k: Crypto, e: Entry, l: Entry, reason: Reason)
    requires EntryOk(k, e) && EntryStep(k, e, l, reason)
    ensures EntryOk(k, l) && Extends(e, l) && HoldsSlot(e.row.state) && e.receipt.None?
  {
    hide Chained, StoreHistory, StoreEdge, StoreReason, Signs, NextEvent, Closed, IsTerminal, HoldsSlot;
    EdgeFacts(e.row.state, l.row.state);
    HistoryGrows(e.log, NextEvent(k.hash, e.id, e.log, l.row.state, reason));
    ChainGrows(k.hash, e.id, e.log, l.row.state, reason);
    if l.row.binding == e.row.binding && e.row.binding.Some? {
      var signer, f :| Signs(k, signer, f, e);
      SignsStays(k, signer, f, e, l);
    }
  }

  lemma UpdateKeeps(k: Crypto, rows: seq<Entry>, i: nat, l: Entry, reason: Reason)
    requires Inv(k, rows) && i < |rows| && EntryStep(k, rows[i], l, reason)
    requires l.receipt.Some? ==> Find(rows, ByReceiptId(l.receipt.value.receiptId)).None?
    ensures Inv(k, rows[i := l]) && RowsExtend(rows, rows[i := l])
  {
    hide EntryOk, EntryStep, HoldsSlot;
    EntryStepKeeps(k, rows[i], l, reason);
    var later := rows[i := l];
    forall a, b | 0 <= a < b < |rows| ensures Separate(later[a], later[b]) {
      assert Separate(rows[a], rows[b]);
      assert l.receipt.Some? ==> !ByReceiptId(l.receipt.value.receiptId)(rows[a]) && !ByReceiptId(l.receipt.value.receiptId)(rows[b]);
    }
  }

  // ----- what the shared statements do to the table

  lemma {:induction false} FindSameIds(rows: seq<Entry>, others: seq<Entry>, id: PublicId)
    requires |rows| == |others| && forall i :: 0 <= i < |rows| ==> rows[i].id == others[i].id
    ensures Find(rows, ById(id)) == Find(others, ById(id))
  {
    if rows != [] {
      FindSameIds(rows[1..], others[1..], id);
    }
  }

  lemma {:induction false} FindSameReceipts(rows: seq<Entry>, others: seq<Entry>, receiptId: PublicId)
    requires |rows| == |others| && forall i :: 0 <= i < |rows| ==> rows[i].receipt == others[i].receipt
    ensures Find(rows, ByReceiptId(receiptId)) == Find(others, ByReceiptId(receiptId))
  {
    if rows != [] {
      FindSameReceipts(rows[1..], others[1..], receiptId);
    }
  }

  lemma Appended(k: Crypto, db: Db, id: PublicId, expected: Option<RequestState>, next: RequestState, reason: Reason)
    requires AppendTransition(k, db, id, expected, next, reason).Ok?
    ensures Find(db.requests, ById(id)).Some?
    ensures var d := AppendTransition(k, db, id, expected, next, reason).value;
      var i := Find(db.requests, ById(id)).value;
      && d == db.(requests := db.requests[i := Advanced(k, db.requests[i], next, reason)])
      && (expected.Some? ==> db.requests[i].row.state == expected.value)
      && Find(d.requests, ById(id)) == Some(i)
  {
    hide Find, NextEvent;
    var i := Find(db.requests, ById(id)).value;
    FindSameIds(db.requests, db.requests[i := Advanced(k, db.requests[i], next, reason)], id);
  }

  /** The receipt was sealed in this transaction: by this signer, at this time, under this identifier and boot epoch, over this evidence. */
  ghost predicate SealedAs(k: Crypto, db: Db, l: Entry, signer: Signer, now: i64, receiptId: PublicId, evidence: seq<Bytes>) {
    && l.receipt.Some?
    && exists f :: ReceiptSigns(k, signer, f, l) && f.receiptId == receiptId && f.completedUtc == now
                   && f.bootEpoch == db.bootEpoch && f.evidence == evidence
  }

  lemma ReceiptCreated(k: Crypto, db: Db, id: PublicId, state: RequestState, signer: Signer, now: i64, receiptId: PublicId, evidence: seq<Bytes>)
    requires CreateReceipt(k, db, id, state, signer, now, receiptId, evidence).Ok?
    ensures Find(db.requests, ById(id)).Some? && Decodes(id)
    ensures var (d, cose) := CreateReceipt(k, db, id, state, signer, now, receiptId, evidence).value;
      var i := Find(db.requests, ById(id)).value;
      var e := db.requests[i];
      && d == db.(requests := db.requests[i := WithReceipt(e, FactsForReceipt(e, db.bootEpoch, receiptId, state, now, evidence), cose)])
      && Find(db.requests, ByReceiptId(receiptId)).None?
      && (e.row.state == state ==>
            Closed(k, d.requests[i]) && SealedAs(k, db, d.requests[i], signer, now, receiptId, evidence) && d.requests[i].receipt.value.cose == cose)
  {
    hide Find;
    var (d, cose) := CreateReceipt(k, db, id, state, signer, now, receiptId, evidence).value;
    var i := Find(db.requests, ById(id)).value;
    var e := db.requests[i];
    if e.row.state == state {
      assert ReceiptSigns(k, signer, FactsForReceipt(e, db.bootEpoch, receiptId, state, now, evidence), d.requests[i]);
    }
  }

  /** Closing a request is one step of that request. */
  lemma CloseIsAStep(k: Crypto, db: Db, id: PublicId, expected: Option<RequestState>, next: RequestState, reason: Reason,
                     signer: Signer, now: i64, receiptId: PublicId, evidence: seq<Bytes>)
    requires Close(k, db, id, expected, next, reason, signer, now, receiptId, evidence).Ok? && IsTerminal(next)
    ensures Find(db.requests, ById(id)).Some? && Decodes(id)
    ensures var d := Close(k, db, id, expected, next, reason, signer, now, receiptId, evidence).value.0;
      var i := Find(db.requests, ById(id)).value;
      && (expected.Some? ==> db.requests[i].row.state == expected.value)
      && |d.requests| == |db.requests|
      && d == db.(requests := db.requests[i := d.requests[i]])
      && d.requests[i].row.state == next && d.requests[i].id == db.requests[i].id
      && |d.requests[i].log| == |db.requests[i].log| + 1
      && (StoreEdge(db.requests[i].row.state, next) && StoreReason(db.requests[i].row.state, next, reason)
          ==> EntryStep(k, db.requests[i], d.requests[i], reason))
      && d.requests[i].receipt.Some? && d.requests[i].receipt.value.receiptId == receiptId
      && SealedAs(k, db, d.requests[i], signer, now, receiptId, evidence)
      && d.requests[i].row == db.requests[i].row.(state := next, receiptBytes := Some(d.requests[i].receipt.value.cose))
      && Close(k, db, id, expected, next, reason, signer, now, receiptId, evidence).value.1 == d.requests[i].receipt.value.cose
      && d.requests[i].log[..|db.requests[i].log|] == db.requests[i].log
      && d.requests[i].log[|db.requests[i].log|] == NextEvent(k.hash, id, db.requests[i].log, next, reason)
      && Find(db.requests, ByReceiptId(receiptId)).None?
  {
    hide Find, NextEvent, AppendTransition, CreateReceipt, StoreEdge, StoreReason, Closed, FactsForReceipt;
    var moved := AppendTransition(k, db, id, expected, next, reason).value;
    Appended(k, db, id, expected, next, reason);
    ReceiptCreated(k, moved, id, next, signer, now, receiptId, evidence);
    FindSameReceipts(db.requests, moved.requests, receiptId);
  }

  lemma CloseKeeps(k: Crypto, db: Db, id: PublicId, expected: Option<RequestState>, next: RequestState, reason: Reason,
                   signer: Signer, now: i64, receiptId: PublicId, evidence: seq<Bytes>)
    requires Inv(k, db.requests) && IsTerminal(next)
    requires Close(k, db, id, expected, next, reason, signer, now, receiptId, evidence).Ok?
    requires Find(db.requests, ById(id)).Some? ==>
      var s := db.requests[Find(db.requests, ById(id)).value].row.state; StoreEdge(s, next) && StoreReason(s, next, reason)
    ensures var d := Close(k, db, id, expected, next, reason, signer, now, receiptId, evidence).value.0;
      Inv(k, d.requests) && RowsExtend(db.requests, d.requests)
  {
    hide Find, Close, EntryStep, Inv, RowsExtend, StoreEdge, StoreReason;
    CloseIsAStep(k, db, id, expected, next, reason, signer, now, receiptId, evidence);
    var d := Close(k, db, id, expected, next, reason, signer, now, receiptId, evidence).value.0;
    var i := Find(db.requests, ById(id)).value;
    UpdateKeeps(k, db.requests, i, d.requests[i], reason);
  }

  /** An edge that does not close the request, with whatever binding it brings. */
  lemma OpenMoveKeeps(k: Crypto, rows: seq<Entry>, i: nat, next: RequestState, binding: Option<Binding>)
    requires Inv(k, rows) && i < |rows| && !IsTerminal(next) && Permits(rows[i].row.state, next)
    requires var l := WithBinding(Advanced(k, rows[i], next, DefaultReason(next)), binding);
      || binding == rows[i].row.binding
      || (rows[i].row.state.Planning? && binding.Some? && exists signer, f :: Signs(k, signer, f, l))
    ensures var l := WithBinding(Advanced(k, rows[i], next, DefaultReason(next)), binding);
      Inv(k, rows[i := l]) && RowsExtend(rows, rows[i := l])
  {
    hide Inv, RowsExtend, Permits, NextEvent, IsTerminal, Signs, DefaultReason;
    var l := WithBinding(Advanced(k, rows[i], next, DefaultReason(next)), binding);
    NotClosed(k, rows, i, next);
    UpdateKeeps(k, rows, i, l, DefaultReason(next));
  }

  lemma NotClosed(k: Crypto, rows: seq<Entry>, i: nat, next: RequestState)
    requires Inv(k, rows) && i < |rows| && Permits(rows[i].row.state, next)
    ensures rows[i].receipt.None? && !IsTerminal(rows[i].row.state)
  {
    hide Chained, StoreHistory, Separate, Signs;
    assert EntryOk(k, rows[i]);
  }

  function WithBinding(e: Entry, binding: Option<Binding>): (l: Entry) {
    e.(row := e.row.(binding := binding))
  }

  // ----- each transaction

  lemma SubmitKeeps(k: Crypto, s: Store, r: PackageInstall, allowed: bool)
    requires Inv(k, s.db.requests) && Submit(k, s, r, allowed).Ok?
    ensures var d := Submit(k, s, r, allowed).value.0; Inv(k, d.requests) && RowsExtend(s.db.requests, d.requests)
  {
    hide EntryOk, Find;
    var rows := s.db.requests;
    var d := Submit(k, s, r, allowed).value.0;
    if |d.requests| > |rows| {
      var e := FreshEntry(k, s.device, r);
      FreshIsOk(k, s.device, r);
      forall i | 0 <= i < |rows| ensures Separate(rows[i], e) {
        assert !ByOperation(r.uid, r.operationKey)(rows[i]);
        assert !ByActiveDevice(s.device)(rows[i]);
        assert !ById(r.requestId)(rows[i]);
      }
    }
  }

  lemma FreshIsOk(k: Crypto, device: DeviceId, r: PackageInstall)
    requires r.generation <= I64_MAX
    ensures EntryOk(k, FreshEntry(k, device, r))
  {
    hide EventPreimage;
    ChainGrows(k.hash, r.requestId, [], Planning, Reason.Created);
    assert [] + [NextEvent(k.hash, r.requestId, [], Planning, Reason.Created)] == FreshEntry(k, device, r).log;
  }

  lemma NonterminalKeeps(k: Crypto, db: Db, id: PublicId, expected: RequestState, next: RequestState)
    requires Inv(k, db.requests) && TransitionNonterminal(k, db, id, expected, next).Ok?
    ensures var d := TransitionNonterminal(k, db, id, expected, next).value.0;
      Inv(k, d.requests) && RowsExtend(db.requests, d.requests)
  {
    hide Find, AppendTransition, Inv, RowsExtend, Permits, NextEvent, IsTerminal;
    Appended(k, db, id, Some(expected), next, DefaultReason(next));
    var i := Find(db.requests, ById(id)).value;
    OpenMoveKeeps(k, db.requests, i, next, db.requests[i].row.binding);
  }

  lemma TerminalKeeps(k: Crypto, db: Db, id: PublicId, expected: RequestState, next: RequestState,
                      signer: Signer, now: i64, receiptId: PublicId)
    requires Inv(k, db.requests) && TransitionTerminal(k, db, id, expected, next, signer, now, receiptId).Ok?
    ensures var d := TransitionTerminal(k, db, id, expected, next, signer, now, receiptId).value.0;
      Inv(k, d.requests) && RowsExtend(db.requests, d.requests)
  {
    hide Find, Close, Inv, RowsExtend;
    CloseIsAStep(k, db, id, Some(expected), next, DefaultReason(next), signer, now, receiptId, []);
    CloseKeeps(k, db, id, Some(expected), next, DefaultReason(next), signer, now, receiptId, []);
  }

  /** Reconciling is one step of one entry, under a new receipt. */
  lemma ReconcileIsAStep(k: Crypto, db: Db, id: PublicId, next: RequestState, reason: Reason, evidence: Bytes,
                         signer: Signer, now: i64, receiptId: PublicId)
    requires AppendTransition(k, db, id, Some(RecoveryRequired), next, reason).Ok?
    requires var noted := NoteEvidence(AppendTransition(k, db, id, Some(RecoveryRequired), next, reason).value, id, evidence);
      CreateReceipt(k, noted, id, next, signer, now, receiptId, []).Ok?
    requires (next == Succeeded && reason == ReconciledSucceeded) || (next == Failed && reason == ReconciledFailed)
    ensures var noted := NoteEvidence(AppendTransition(k, db, id, Some(RecoveryRequired), next, reason).value, id, evidence);
      var d := CreateReceipt(k, noted, id, next, signer, now, receiptId, []).value.0;
      && Find(db.requests, ById(id)).Some?
      && var i := Find(db.requests, ById(id)).value;
      && |d.requests| == |db.requests| && d.requests == db.requests[i := d.requests[i]]
      && EntryStep(k, db.requests[i], d.requests[i], reason)
      && d.requests[i].receipt.Some? && Find(db.requests, ByReceiptId(d.requests[i].receipt.value.receiptId)).None?
  {
    hide Find, AppendTransition, CreateReceipt, NextEvent, Closed, FactsForReceipt;
    var moved := AppendTransition(k, db, id, Some(RecoveryRequired), next, reason).value;
    Appended(k, db, id, Some(RecoveryRequired), next, reason);
    var noted := NoteEvidence(moved, id, evidence);
    FindSameIds(moved.requests, noted.requests, id);
    ReceiptCreated(k, noted, id, next, signer, now, receiptId, []);
    FindSameReceipts(db.requests, noted.requests, receiptId);
  }

  lemma ReconcileKeeps(k: Crypto, db: Db, id: PublicId, succeeded: bool, evidence: Bytes,
                       signer: Signer, now: i64, receiptId: PublicId)
    requires Inv(k, db.requests) && ReconcileRecovery(k, db, id, succeeded, evidence, signer, now, receiptId).Ok?
    ensures var d := ReconcileRecovery(k, db, id, succeeded, evidence, signer, now, receiptId).value.0;
      Inv(k, d.requests) && RowsExtend(db.requests, d.requests)
  {
    hide Find, Inv, RowsExtend, AppendTransition, CreateReceipt, NoteEvidence, EntryStep;
    var next := if succeeded then Succeeded else Failed;
    var reason := if succeeded then ReconciledSucceeded else ReconciledFailed;
    ReconcileIsAStep(k, db, id, next, reason, evidence, signer, now, receiptId);
    var i := Find(db.requests, ById(id)).value;
    var d := ReconcileRecovery(k, db, id, succeeded, evidence, signer, now, receiptId).value.0;
    UpdateKeeps(k, db.requests, i, d.requests[i], reason);
  }

  lemma PrepareKeeps(k: Crypto, s: Store, id: PublicId, plan: FrozenPlan, context: PendingContext, signer: Signer)
    requires Inv(k, s.db.requests) && PrepareForDecision(k, s, id, plan, context, signer).Ok?
    ensures var d := PrepareForDecision(k, s, id, plan, context, signer).value.0;
      Inv(k, d.requests) && RowsExtend(s.db.requests, d.requests)
  {
    hide Find, Inv, RowsExtend, AppendTransition, NextEvent, SchemaName;
    Appended(k, s.db, id, Some(Planning), Pending, PlannerPending);
    var i := Find(s.db.requests, ById(id)).value;
    var e := s.db.requests[i];
    var facts := RequestFactsOf(s, e, plan, context);
    var sealed := k.sealRequest(signer, facts).value;
    var binding := Some(Binding(plan.planDigest, sealed.requestDigest, sealed.requestCose, sealed.frozenPlan, context));
    var l := WithBinding(Advanced(k, e, Pending, PlannerPending), binding);
    assert Signs(k, signer, facts, l);
    OpenMoveKeeps(k, s.db.requests, i, Pending, binding);
    assert s.db.requests[i := Advanced(k, e, Pending, PlannerPending)][i := l] == s.db.requests[i := l];
  }

  lemma CommitKeeps(k: Crypto, db: Db, id: PublicId, v: Verified, evidence: Bytes, signer: Signer, now: i64, receiptId: PublicId)
    requires Inv(k, db.requests) && CommitDecision(k, db, id, v, evidence, signer, now, receiptId).Ok?
    ensures var d := CommitDecision(k, db, id, v, evidence, signer, now, receiptId).value.0;
      Inv(k, d.requests) && RowsExtend(db.requests, d.requests)
  {
    hide Find, Inv, RowsExtend, AppendTransition, CreateReceipt, NextEvent, Counted;
    if db.generation != v.context.generation {
      CloseKeeps(k, db, id, Some(Pending), Stale, GenerationStale, signer, now, receiptId, []);
    } else if v.context.decision == Approve {
      Appended(k, db, id, Some(Pending), Approved, ByApproval);
      var i := Find(db.requests, ById(id)).value;
      OpenMoveKeeps(k, db.requests, i, Approved, db.requests[i].row.binding);
    } else {
      DenyKeeps(k, db, id, v, evidence, signer, now, receiptId);
    }
  }

  lemma ReceiptIgnoresCredentials(k: Crypto, db: Db, c: map<Bytes, Credential>, id: PublicId, state: RequestState,
                                  signer: Signer, now: i64, receiptId: PublicId, evidence: seq<Bytes>)
    ensures var a, b := CreateReceipt(k, db.(credentials := c), id, state, signer, now, receiptId, evidence),
                        CreateReceipt(k, db, id, state, signer, now, receiptId, evidence);
      (a.Ok? <==> b.Ok?) && (a.Ok? ==> a.value.0.requests == b.value.0.requests)
  {
  }

  /** A denial closes the request, and counts the credential's use in between. */
  lemma DenyKeeps(k: Crypto, db: Db, id: PublicId, v: Verified, evidence: Bytes, signer: Signer, now: i64, receiptId: PublicId)
    requires Inv(k, db.requests) && AppendTransition(k, db, id, Some(Pending), Denied, ByDenial).Ok?
    requires var moved := AppendTransition(k, db, id, Some(Pending), Denied, ByDenial).value;
      CreateReceipt(k, moved.(credentials := Counted(moved.credentials, v.credentialId, v.signCount)), id, Denied, signer, now, receiptId, [evidence]).Ok?
    ensures var moved := AppendTransition(k, db, id, Some(Pending), Denied, ByDenial).value;
      var d := CreateReceipt(k, moved.(credentials := Counted(moved.credentials, v.credentialId, v.signCount)), id, Denied, signer, now, receiptId, [evidence]).value.0;
      Inv(k, d.requests) && RowsExtend(db.requests, d.requests)
  {
    hide Find, Inv, RowsExtend, AppendTransition, CreateReceipt, NextEvent, Counted;
    var moved := AppendTransition(k, db, id, Some(Pending), Denied, ByDenial).value;
    Appended(k, db, id, Some(Pending), Denied, ByDenial);
    ReceiptIgnoresCredentials(k, moved, Counted(moved.credentials, v.credentialId, v.signCount), id, Denied, signer, now, receiptId, [evidence]);
    CloseKeeps(k, db, id, Some(Pending), Denied, ByDenial, signer, now, receiptId, [evidence]);
  }

  // ----- a new boot

  lemma {:induction false} DueIdsAre(rows: seq<Entry>, epoch: i64, id: PublicId)
    ensures id in DueIds(rows, epoch) <==> exists i :: 0 <= i < |rows| && rows[i].id == id && DueAtBoot(rows[i], epoch)
  {
    if rows != [] {
      DueIdsAre(rows[..|rows| - 1], epoch, id);
    }
  }

  lemma {:induction false} DueIdsDiffer(k: Crypto, rows: seq<Entry>, epoch: i64)
    requires Inv(k, rows)
    ensures forall i, j :: 0 <= i < j < |DueIds(rows, epoch)| ==> DueIds(rows, epoch)[i] != DueIds(rows, epoch)[j]
  {
    hide EntryOk;
    if rows != [] {
      var n := |rows| - 1;
      DueIdsDiffer(k, rows[..n], epoch);
      DueIdsAre(rows[..n], epoch, rows[n].id);
      assert forall i :: 0 <= i < n ==> Separate(rows[i], rows[n]);
    }
  }

  /** Expiring some rows leaves the others as they were, and puts those into the expired state. */
  ghost predicate ExpiredOnly(rows: seq<Entry>, later: seq<Entry>, ids: seq<PublicId>) {
    && |later| == |rows|
    && forall i :: 0 <= i < |rows| ==>
         && later[i].id == rows[i].id
         && (if rows[i].id in ids then later[i].row.state == RequestState.Expired && |later[i].log| == |rows[i].log| + 1
             else later[i] == rows[i])
  }

  lemma {:induction false} ExpireFirstKeeps(k: Crypto, db: Db, epoch: i64, n: nat, signer: Signer, now: i64, draw: nat -> PublicId)
    requires Inv(k, db.requests) && n <= |DueIds(db.requests, epoch)|
    requires ExpireFirst(k, db, DueIds(db.requests, epoch), n, signer, now, draw).Ok?
    ensures var d := ExpireFirst(k, db, DueIds(db.requests, epoch), n, signer, now, draw).value;
      && Inv(k, d.requests) && RowsExtend(db.requests, d.requests)
      && ExpiredOnly(db.requests, d.requests, DueIds(db.requests, epoch)[..n])
      && (forall i :: 0 <= i < n ==> Decodes(DueIds(db.requests, epoch)[i]))
      && d == db.(requests := d.requests)
  {
    hide Find, Inv, Extends, DueIds, Close, Decodes;
    var ids := DueIds(db.requests, epoch);
    if n == 0 {
      ExtendsItself(db.requests);
    } else {
      ExpireFirstKeeps(k, db, epoch, n - 1, signer, now, draw);
      var earlier := ExpireFirst(k, db, ids, n - 1, signer, now, draw).value;
      ExpireOneMore(k, db, epoch, n, earlier, signer, now, draw(n - 1));
    }
  }

  lemma ExtendsItself(rows: seq<Entry>)
    ensures RowsExtend(rows, rows)
  {
  }

  lemma ExpireOneMore(k: Crypto, db: Db, epoch: i64, n: nat, earlier: Db, signer: Signer, now: i64, receiptId: PublicId)
    requires Inv(k, db.requests) && 0 < n <= |DueIds(db.requests, epoch)|
    requires Inv(k, earlier.requests) && RowsExtend(db.requests, earlier.requests)
    requires ExpiredOnly(db.requests, earlier.requests, DueIds(db.requests, epoch)[..n - 1])
    requires Close(k, earlier, DueIds(db.requests, epoch)[n - 1], None, RequestState.Expired, ByExpiry, signer, now, receiptId, []).Ok?
    ensures var id := DueIds(db.requests, epoch)[n - 1];
      var d := Close(k, earlier, id, None, RequestState.Expired, ByExpiry, signer, now, receiptId, []).value.0;
      && Inv(k, d.requests) && RowsExtend(db.requests, d.requests)
      && ExpiredOnly(db.requests, d.requests, DueIds(db.requests, epoch)[..n])
      && Decodes(id) && d == earlier.(requests := d.requests)
  {
    hide Find, Inv, RowsExtend, Close, DueIds, EntryStep, Decodes, StoreEdge, StoreReason;
    var ids := DueIds(db.requests, epoch);
    var id := ids[n - 1];
    var rows := db.requests;
    CloseIsAStep(k, earlier, id, None, RequestState.Expired, ByExpiry, signer, now, receiptId, []);
    var i := Find(earlier.requests, ById(id)).value;
    DueIdsDiffer(k, rows, epoch);
    assert id !in ids[..n - 1];
    DueRow(k, rows, epoch, i, id);
    var d := Close(k, earlier, id, None, RequestState.Expired, ByExpiry, signer, now, receiptId, []).value.0;
    BootEdge(rows[i].row.state);
    CloseKeeps(k, earlier, id, None, RequestState.Expired, ByExpiry, signer, now, receiptId, []);
    RowsExtendTransitive(k, rows, earlier.requests, d.requests);
    assert ids[..n] == ids[..n - 1] + [id];
    forall j | 0 <= j < |rows|
      ensures d.requests[j].id == rows[j].id
      ensures if rows[j].id in ids[..n] then d.requests[j].row.state == RequestState.Expired && |d.requests[j].log| == |rows[j].log| + 1
              else d.requests[j] == rows[j]
    {
      if j != i {
        IdsDiffer(k, rows, i, j);
      }
    }
  }

  lemma BootEdge(s: RequestState)
    requires ExpiresAtBoot(s)
    ensures StoreEdge(s, RequestState.Expired) && StoreReason(s, RequestState.Expired, ByExpiry)
  {
  }

  lemma IdsDiffer(k: Crypto, rows: seq<Entry>, i: nat, j: nat)
    requires Inv(k, rows) && i < |rows| && j < |rows| && i != j
    ensures rows[i].id != rows[j].id
  {
    hide EntryOk;
    assert if i < j then Separate(rows[i], rows[j]) else Separate(rows[j], rows[i]);
  }

  /** The row a due id names is due. */
  lemma DueRow(k: Crypto, rows: seq<Entry>, epoch: i64, i: nat, id: PublicId)
    requires Inv(k, rows) && i < |rows| && rows[i].id == id && id in DueIds(rows, epoch)
    ensures ExpiresAtBoot(rows[i].row.state)
  {
    hide Inv;
    DueIdsAre(rows, epoch, id);
    var j :| 0 <= j < |rows| && rows[j].id == id && DueAtBoot(rows[j], epoch);
    if i != j {
      IdsDiffer(k, rows, i, j);
    }
  }

  lemma BootKeeps(k: Crypto, db: Db, epoch: u64, signer: Signer, now: i64, draw: nat -> PublicId)
    requires Inv(k, db.requests) && StartBoot(k, db, epoch, signer, now, draw).Ok?
    ensures var d := StartBoot(k, db, epoch, signer, now, draw).value.0; Inv(k, d.requests) && RowsExtend(db.requests, d.requests)
  {
    hide Inv, RowsExtend, DueIds, ExpireFirst, ExpiredOnly;
    ExtendsItself(db.requests);
    if db.bootEpoch != epoch {
      ExpireFirstKeeps(k, db, epoch, |DueIds(db.requests, epoch)|, signer, now, draw);
    }
  }

  // ----- whole runs

  lemma StepKeeps(k: Crypto, s: Store, op: Op)
    requires Inv(k, s.db.requests)
    ensures Inv(k, Step(k, s, op).0.db.requests) && RowsExtend(s.db.requests, Step(k, s, op).0.db.requests)
  {
    hide Inv, RowsExtend, StartBoot, Submit, TransitionNonterminal, PrepareForDecision, TransitionTerminal, ReconcileRecovery, CommitDecision;
    ExtendsItself(s.db.requests);
    if Step(k, s, op).1.Ok? {
      match op
      case OpInitialize(_, _) =>
      case OpStartBoot(epoch, signer, now, draw) => BootKeeps(k, s.db, epoch, signer, now, draw);
      case OpSubmit(submission, allowed) => SubmitKeeps(k, s, submission, allowed);
      case OpNonterminal(id, expected, next) => NonterminalKeeps(k, s.db, id, expected, next);
      case OpPrepare(id, plan, context, signer) => PrepareKeeps(k, s, id, plan, context, signer);
      case OpReplaceCredentials(_, _) =>
      case OpTerminal(id, expected, next, signer, now, receiptId) => TerminalKeeps(k, s.db, id, expected, next, signer, now, receiptId);
      case OpReconcile(id, succeeded, evidence, signer, now, receiptId) => ReconcileKeeps(k, s.db, id, succeeded, evidence, signer, now, receiptId);
      case OpCommitDecision(id, verified, evidence, signer, now, receiptId) => CommitKeeps(k, s.db, id, verified, evidence, signer, now, receiptId);
    }
  }

  /** Whole-run invariant: whatever transactions run, in whatever order, whether they succeed or not. */
  lemma {:induction false} RunKeeps(k: Crypto, s: Store, ops: seq<Op>)
    requires Inv(k, s.db.requests)
    ensures Inv(k, Run(k, s, ops).db.requests) && RowsExtend(s.db.requests, Run(k, s, ops).db.requests)
  {
    hide Inv, RowsExtend, Step;
    if ops == [] {
      ExtendsItself(s.db.requests);
    } else {
      var n := |ops| - 1;
      var before := Run(k, s, ops[..n]);
      RunKeeps(k, s, ops[..n]);
      StepKeeps(k, before, ops[n]);
      RowsExtendTransitive(k, s.db.requests, before.db.requests, Step(k, before, ops[n]).0.db.requests);
    }
  }

  /** A store nothing has been submitted to satisfies the invariant, and so does every store reached from one. */
  lemma EmptyKeeps(k: Crypto, s: Store, ops: seq<Op>)
    requires s.db.requests == []
    ensures Inv(k, Run(k, s, ops).db.requests)
  {
    hide Run;
    assert Inv(k, s.db.requests);
    RunKeeps(k, s, ops);
  }

  /** A transaction that returns an error left the database, and the handle, as they were. */
  lemma ErrorsChangeNothing(k: Crypto, s: Store, op: Op)
    requires Step(k, s, op).1.Err?
    ensures Step(k, s, op).0 == s
  {
    hide StartBoot, Submit, TransitionNonterminal, PrepareForDecision, TransitionTerminal, ReconcileRecovery, CommitDecision, ReplaceCredentials, InitializeIdentity;
  }

  // ----- idempotent intake

  lemma OperationIndex(k: Crypto, rows: seq<Entry>, i: nat)
    requires Inv(k, rows) && i < |rows|
    ensures Find(rows, ByOperation(rows[i].row.uid, rows[i].row.operationKey)) == Some(i)
  {
    hide EntryOk, Find;
    var test := ByOperation(rows[i].row.uid, rows[i].row.operationKey);
    assert test(rows[i]);
    var j := Find(rows, test).value;
    assert test(rows[j]);
    if i != j {
      OperationsDiffer(k, rows, i, j);
    }
  }

  lemma OperationsDiffer(k: Crypto, rows: seq<Entry>, i: nat, j: nat)
    requires Inv(k, rows) && i < |rows| && j < |rows| && i != j
    ensures !(rows[i].row.uid == rows[j].row.uid && rows[i].row.operationKey == rows[j].row.operationKey)
  {
    hide EntryOk;
    assert if i < j then Separate(rows[i], rows[j]) else Separate(rows[j], rows[i]);
  }

  /**
   * A caller's operation key names one request forever: whatever ran in between, submitting it again changes nothing,
   * and returns that request if the input hashes alike and a conflict otherwise.
   */
  lemma OperationNamesOneRequest(k: Crypto, s: Store, i: nat, ops: seq<Op>, again: PackageInstall)
    requires Inv(k, s.db.requests) && i < |s.db.requests|
    requires again.uid == s.db.requests[i].row.uid && again.operationKey == s.db.requests[i].row.operationKey
    ensures var later := Run(k, s, ops);
      && i < |later.db.requests| && later.db.requests[i].id == s.db.requests[i].id
      && Submit(k, later, again, true) ==
         if k.inputDigest(again.packageName) == k.inputDigest(s.db.requests[i].row.packageName)
         then Ok((later.db, Existing(SummaryOf(later.db.requests[i])))) else Err(IdempotencyConflict)
  {
    hide Find, Run, Chained, StoreHistory, Separate, Signs, Closed;
    RunKeeps(k, s, ops);
    var later := Run(k, s, ops);
    assert Extends(s.db.requests[i], later.db.requests[i]) && EntryOk(k, later.db.requests[i]);
    OperationIndex(k, later.db.requests, i);
  }

  /** Two requests of one device are never both open. */
  lemma OneActivePerDevice(k: Crypto, s: Store, ops: seq<Op>, i: nat, j: nat)
    requires Inv(k, s.db.requests)
    requires var rows := Run(k, s, ops).db.requests;
      i < j < |rows| && rows[i].row.device == rows[j].row.device && !IsTerminal(rows[i].row.state)
    ensures IsTerminal(Run(k, s, ops).db.requests[j].row.state)
  {
    hide Run, EntryOk;
    RunKeeps(k, s, ops);
    var rows := Run(k, s, ops).db.requests;
    assert Separate(rows[i], rows[j]);
  }

  /** A closed request, with its receipt and history, is the same after any run. */
  lemma ClosedForever(k: Crypto, s: Store, ops: seq<Op>, i: nat)
    requires Inv(k, s.db.requests) && i < |s.db.requests| && IsTerminal(s.db.requests[i].row.state)
    ensures i < |Run(k, s, ops).db.requests| && Run(k, s, ops).db.requests[i] == s.db.requests[i]
    ensures s.db.requests[i].receipt.Some?
  {
    hide Run, Chained, StoreHistory, Separate, Signs;
    RunKeeps(k, s, ops);
    assert EntryOk(k, s.db.requests[i]) && Extends(s.db.requests[i], Run(k, s, ops).db.requests[i]);
  }

  // ----- one winner

  /** Pending comes second in a history, if at all. */
  lemma {:induction false} PendingIsSecond(log: seq<Event>, n: nat)
    requires StoreHistory(log) && n < |log|
    ensures log[n].state.Planning? ==> n == 0
    ensures log[n].state.Pending? ==> n == 1
  {
    assert EdgeAt(log, n);
    if n > 0 {
      PendingIsSecond(log, n - 1);
    }
  }

  lemma PendingLeftIsLeft(k: Crypto, e: Entry, l: Entry, m: Entry)
    requires EntryOk(k, e) && EntryOk(k, l) && EntryOk(k, m) && Extends(e, l) && Extends(l, m)
    requires e.row.state.Pending? && !l.row.state.Pending?
    ensures !m.row.state.Pending?
  {
    hide Chained, Signs, Closed;
    PendingIsSecond(e.log, |e.log| - 1);
    PendingIsSecond(m.log, |m.log| - 1);
    assert |l.log| > |e.log|;
  }

  /** A request leaves pending at most once, whoever else is running. */
  lemma LeavesPendingOnce(k: Crypto, s: Store, ops: seq<Op>, more: seq<Op>, i: nat)
    requires Inv(k, s.db.requests) && i < |s.db.requests|
    requires s.db.requests[i].row.state.Pending?
    requires var mid := Run(k, s, ops).db.requests; i < |mid| && !mid[i].row.state.Pending?
    ensures var end := Run(k, Run(k, s, ops), more).db.requests; i < |end| && !end[i].row.state.Pending?
  {
    hide Run, EntryOk, Separate, Extends;
    var mid := Run(k, s, ops);
    RunKeeps(k, s, ops);
    RunKeeps(k, mid, more);
    PendingLeftIsLeft(k, s.db.requests[i], mid.db.requests[i], Run(k, mid, more).db.requests[i]);
  }

  lemma IdIndex(k: Crypto, rows: seq<Entry>, i: nat)
    requires Inv(k, rows) && i < |rows|
    ensures Find(rows, ById(rows[i].id)) == Some(i)
  {
    hide Inv, Find;
    assert ById(rows[i].id)(rows[i]);
    var j := Find(rows, ById(rows[i].id)).value;
    assert ById(rows[i].id)(rows[j]);
    if i != j {
      IdsDiffer(k, rows, i, j);
    }
  }

  lemma ReadContext(s: Store, id: PublicId, submission: DecisionSubmission, party: RelyingParty, nowMono: u64, nowUtc: i64)
    requires ReadPhase(s, id, submission, party, nowMono, nowUtc).Ok?
    requires ReadPhase(s, id, submission, party, nowMono, nowUtc).value.Proceed?
    ensures Find(s.db.requests, ById(id)).Some?
    ensures var e := s.db.requests[Find(s.db.requests, ById(id)).value];
      var v := ReadPhase(s, id, submission, party, nowMono, nowUtc).value.verified;
      && e.row.state.Pending? && e.row.binding.Some?
      && v.context.requestId == id && v.context.generation == e.row.generation
      && v.context.requestDigest == e.row.binding.value.requestDigest
      && v.context.nonce == e.row.binding.value.context.nonce
      && v.context.expiresUtc == e.row.binding.value.context.expiresUtc
      && nowUtc < e.row.binding.value.context.expiresUtc && nowMono < e.row.binding.value.context.deadline
      && PinnedAndGenuine(s.db, submission, v.context.generation)
  {
    hide Find;
  }

  /** The submission's assertion was accepted, under a credential pinned in that generation and not quarantined. */
  predicate PinnedAndGenuine(db: Db, submission: DecisionSubmission, generation: i64) {
    && submission.genuine && submission.credentialId in db.credentials
    && db.credentials[submission.credentialId].generation == generation
    && !db.credentials[submission.credentialId].quarantined
  }

  lemma CommitChecks(k: Crypto, db: Db, id: PublicId, v: Verified, evidence: Bytes, signer: Signer, now: i64, receiptId: PublicId)
    requires CommitDecision(k, db, id, v, evidence, signer, now, receiptId).Ok?
    requires var reply := CommitDecision(k, db, id, v, evidence, signer, now, receiptId).value.1;
      reply.DecidedAs? && (reply.state.Approved? || reply.state.Denied?)
    ensures Find(db.requests, ById(id)).Some?
    ensures var (d, reply) := CommitDecision(k, db, id, v, evidence, signer, now, receiptId).value;
      var i := Find(db.requests, ById(id)).value;
      && db.requests[i].row.state.Pending? && db.generation == v.context.generation
      && |d.requests| == |db.requests| && d.requests[i].row.state == reply.state
      && (reply.state.Approved? <==> v.context.decision == Approve)
  {
    hide Find, AppendTransition, CreateReceipt, NextEvent, Counted, Close, FactsForReceipt;
    var i := Find(db.requests, ById(id)).value;
    if v.context.decision == Approve {
      Appended(k, db, id, Some(Pending), Approved, ByApproval);
    } else {
      Appended(k, db, id, Some(Pending), Denied, ByDenial);
      var moved := AppendTransition(k, db, id, Some(Pending), Denied, ByDenial).value;
      ReceiptCreated(k, moved.(credentials := Counted(moved.credentials, v.credentialId, v.signCount)), id, Denied, signer, now, receiptId, [evidence]);
    }
  }

  /**
   * One winner under interleaving: between reading and verifying at `s` and committing, any transactions may run.
   * An approval or denial still commits only on a pending request under the generation its context was verified
   * for, and the digest, nonce and expiry in that context are still the request's own.
   */
  lemma DecisionStillBound(k: Crypto, s: Store, id: PublicId, submission: DecisionSubmission, party: RelyingParty, nowMono: u64, nowUtc: i64,
                           between: seq<Op>, evidence: Bytes, signer: Signer, receiptId: PublicId)
    requires Inv(k, s.db.requests)
    requires ReadPhase(s, id, submission, party, nowMono, nowUtc).Ok?
    requires ReadPhase(s, id, submission, party, nowMono, nowUtc).value.Proceed?
    requires var v := ReadPhase(s, id, submission, party, nowMono, nowUtc).value.verified;
      var o := CommitDecision(k, Run(k, s, between).db, id, v, evidence, signer, nowUtc, receiptId);
      o.Ok? && o.value.1.DecidedAs? && (o.value.1.state.Approved? || o.value.1.state.Denied?)
    ensures var v := ReadPhase(s, id, submission, party, nowMono, nowUtc).value.verified;
      var t := Run(k, s, between);
      var (d, reply) := CommitDecision(k, t.db, id, v, evidence, signer, nowUtc, receiptId).value;
      && Find(s.db.requests, ById(id)).Some?
      && var i := Find(s.db.requests, ById(id)).value;
      && i < |t.db.requests| == |d.requests|
      && t.db.requests[i].id == id && t.db.requests[i].row.state.Pending? && d.requests[i].row.state == reply.state
      && t.db.generation == v.context.generation == t.db.requests[i].row.generation
      && t.db.requests[i].row.binding.Some?
      && v.context.requestDigest == t.db.requests[i].row.binding.value.requestDigest
      && v.context.nonce == t.db.requests[i].row.binding.value.context.nonce
      && v.context.expiresUtc == t.db.requests[i].row.binding.value.context.expiresUtc
      && nowUtc < v.context.expiresUtc && PinnedAndGenuine(s.db, submission, v.context.generation)
      && (reply.state.Approved? <==> submission.context.decision == Approve)
  {
    hide Run, CommitDecision, ReadPhase, Find, EntryOk, Separate;
    var v := ReadPhase(s, id, submission, party, nowMono, nowUtc).value.verified;
    var t := Run(k, s, between);
    ReadContext(s, id, submission, party, nowMono, nowUtc);
    SubmittedContext(s, id, submission, party, nowMono, nowUtc);
    CommitChecks(k, t.db, id, v, evidence, signer, nowUtc, receiptId);
    RunKeeps(k, s, between);
    var i := Find(s.db.requests, ById(id)).value;
    assert Extends(s.db.requests[i], t.db.requests[i]);
    assert ById(id)(s.db.requests[i]);
    IdIndex(k, t.db.requests, i);
  }

  lemma SubmittedContext(s: Store, id: PublicId, submission: DecisionSubmission, party: RelyingParty, nowMono: u64, nowUtc: i64)
    requires ReadPhase(s, id, submission, party, nowMono, nowUtc).Ok?
    requires ReadPhase(s, id, submission, party, nowMono, nowUtc).value.Proceed?
    ensures ReadPhase(s, id, submission, party, nowMono, nowUtc).value.verified.context == submission.context
  {
    hide Find, ContextFor;
  }

  // ----- identity and credentials

  /** Once a device id is pinned under a key, no transaction changes the identity, and only that key is served. */
  lemma IdentityForever(k: Crypto, s: Store, op: Op)
    requires s.db.identity.Some? && s.db.identity.value.device.Some?
    ensures Step(k, s, op).0.db.identity == s.db.identity
    ensures op.OpInitialize? && Step(k, s, op).1.Ok? ==>
      op.signer == Signer(s.db.identity.value.kid, s.db.identity.value.publicKey) && Step(k, s, op).0.device == s.db.identity.value.device.value
  {
    hide Find, AppendTransition, CreateReceipt, NoteEvidence, Bind, FreshEntry, Counted, SchemaName, PinAll, DueIds, ExpireFirst;
    if op.OpStartBoot? && Step(k, s, op).1.Ok? && s.db.bootEpoch != op.epoch {
      ExpiryKeepsIdentity(k, s.db, DueIds(s.db.requests, op.epoch), |DueIds(s.db.requests, op.epoch)|, op.signer, op.now, op.draw);
    }
  }

  lemma {:induction false} ExpiryKeepsIdentity(k: Crypto, db: Db, ids: seq<PublicId>, n: nat, signer: Signer, now: i64, draw: nat -> PublicId)
    requires n <= |ids| && ExpireFirst(k, db, ids, n, signer, now, draw).Ok?
    ensures ExpireFirst(k, db, ids, n, signer, now, draw).value.identity == db.identity
  {
    hide AppendTransition, CreateReceipt;
    if n > 0 {
      ExpiryKeepsIdentity(k, db, ids, n - 1, signer, now, draw);
    }
  }

  predicate IdsDistinct(pins: seq<CredentialPin>) {
    forall i, j :: 0 <= i < j < |pins| ==> pins[i].credentialId != pins[j].credentialId
  }

  predicate Pinned(pins: seq<CredentialPin>, id: Bytes) {
    exists i :: 0 <= i < |pins| && pins[i].credentialId == id
  }

  /** Pins are pairwise distinct exactly when the last one is new and the ones before are. */
  lemma DistinctFromEnd(pins: seq<CredentialPin>)
    requires pins != []
    ensures var n := |pins| - 1; IdsDistinct(pins) <==> IdsDistinct(pins[..n]) && !Pinned(pins[..n], pins[n].credentialId)
  {
    var n := |pins| - 1;
    var fore := pins[..n];
    if IdsDistinct(fore) && !Pinned(fore, pins[n].credentialId) {
      forall i, j | 0 <= i < j < |pins| ensures pins[i].credentialId != pins[j].credentialId {
        assert pins[i] == fore[i];
      }
    }
  }

  lemma PinnedFromEnd(pins: seq<CredentialPin>, id: Bytes)
    requires pins != []
    ensures var n := |pins| - 1; Pinned(pins, id) <==> Pinned(pins[..n], id) || pins[n].credentialId == id
  {
    var n := |pins| - 1;
    if Pinned(pins, id) && pins[n].credentialId != id {
      var i :| 0 <= i < |pins| && pins[i].credentialId == id;
      assert pins[..n][i].credentialId == id;
    }
    if Pinned(pins[..n], id) {
      var i :| 0 <= i < n && pins[..n][i].credentialId == id;
      assert pins[i].credentialId == id;
    }
  }

  lemma {:induction false} PinAllExactly(pins: seq<CredentialPin>, generation: i64)
    ensures PinAll(pins, generation).Ok? <==> IdsDistinct(pins)
    ensures PinAll(pins, generation).Ok? ==>
      && (forall id :: id in PinAll(pins, generation).value <==> Pinned(pins, id))
      && forall i :: 0 <= i < |pins| ==>
           PinAll(pins, generation).value[pins[i].credentialId] == Credential(generation, pins[i].publicKey, 0, false)
  {
    if pins == [] {
    } else {
      hide Pinned, IdsDistinct;
      var n := |pins| - 1;
      var fore := pins[..n];
      PinAllExactly(fore, generation);
      DistinctFromEnd(pins);
      forall id ensures Pinned(pins, id) <==> Pinned(fore, id) || pins[n].credentialId == id {
        PinnedFromEnd(pins, id);
      }
      forall i | 0 <= i < n ensures pins[i] == fore[i] && Pinned(fore, pins[i].credentialId) {
        FirstIsPinned(fore, i);
      }
    }
  }

  lemma FirstIsPinned(pins: seq<CredentialPin>, i: nat)
    requires i < |pins|
    ensures Pinned(pins, pins[i].credentialId)
  {
  }

  /**
   * Replacing credentials succeeds exactly on a non-empty list of acceptable pins with distinct identifiers, under a
   * generation that fits; it then leaves exactly those credentials, none from before, and touches no request.
   */
  lemma CredentialsReplacedExactly(db: Db, generation: u64, pins: seq<CredentialPin>)
    ensures var o := ReplaceCredentials(db, generation, pins);
      && (o.Ok? <==> pins != [] && (forall p :: p in pins ==>
            1 <= |p.credentialId| <= 1024 && 1 <= |p.publicKey| <= 4096 && p.algorithm == -7) && generation <= I64_MAX && IdsDistinct(pins))
      && (o.Ok? ==>
            var d := o.value.0;
            && d == db.(credentials := d.credentials, generation := generation)
            && (forall id :: id in d.credentials <==> Pinned(pins, id))
            && forall i :: 0 <= i < |pins| ==> d.credentials[pins[i].credentialId] == Credential(generation, pins[i].publicKey, 0, false))
  {
    hide PinAll, IdsDistinct, Pinned;
    if generation <= I64_MAX {
      PinAllExactly(pins, generation);
    }
  }

  /**
   * A committed approval or denial counts the use of the credential it was verified under, never downwards, and touches
   * no other; one that finds its generation gone touches none. No credential comes or goes.
   */
  lemma CommitCountsUse(k: Crypto, db: Db, id: PublicId, v: Verified, evidence: Bytes, signer: Signer, now: i64, receiptId: PublicId, c: Bytes)
    requires CommitDecision(k, db, id, v, evidence, signer, now, receiptId).Ok?
    ensures var (d, reply) := CommitDecision(k, db, id, v, evidence, signer, now, receiptId).value;
      && (c in d.credentials <==> c in db.credentials)
      && (c in db.credentials ==>
            var before, after := db.credentials[c], d.credentials[c];
            && after == before.(signCount := after.signCount) && after.signCount >= before.signCount
            && (if reply == DecidedAs(Approved, None) || (reply.DecidedAs? && reply.state.Denied?)
                then (c == v.credentialId ==> after.signCount >= v.signCount && after.signCount in {before.signCount, v.signCount})
                     && (c != v.credentialId ==> after == before)
                else after == before))
  {
    hide Find, AppendTransition, CreateReceipt;
  }

  // ----- reboots

  /** A new boot epoch other than zero expires what was planning, pending or approved; the rest is untouched. */
  lemma RebootExpires(k: Crypto, db: Db, epoch: u64, signer: Signer, now: i64, draw: nat -> PublicId, i: nat)
    requires Inv(k, db.requests) && StartBoot(k, db, epoch, signer, now, draw).Ok?
    requires epoch != 0 && epoch != db.bootEpoch && i < |db.requests|
    ensures var d := StartBoot(k, db, epoch, signer, now, draw).value.0;
      && |d.requests| == |db.requests| && d.bootEpoch == epoch
      && (if db.requests[i].row.state in {Planning, Pending, Approved} then d.requests[i].row.state == RequestState.Expired && Decodes(db.requests[i].id)
          else d.requests[i] == db.requests[i])
  {
    hide Inv, RowsExtend, DueIds, ExpireFirst, Decodes;
    var ids := DueIds(db.requests, epoch);
    ExpireFirstKeeps(k, db, epoch, |ids|, signer, now, draw);
    assert ids[..|ids|] == ids;
    var d := StartBoot(k, db, epoch, signer, now, draw).value.0;
    BootEpochIsDefault(k, db.requests, i);
    DueIdsAre(db.requests, epoch, db.requests[i].id);
    var later := ExpireFirst(k, db, ids, |ids|, signer, now, draw).value;
    assert later.requests[i].id == db.requests[i].id;
    if db.requests[i].id in ids {
      DueRow(k, db.requests, epoch, i, db.requests[i].id);
    }
  }

  lemma BootEpochIsDefault(k: Crypto, rows: seq<Entry>, i: nat)
    requires Inv(k, rows) && i < |rows|
    ensures rows[i].row.bootEpoch == 0
  {
    hide Chained, StoreHistory, Separate, Signs, Closed;
    assert EntryOk(k, rows[i]);
  }

  /** At epoch zero the column's default makes every request look current, and nothing is expired. */
  lemma EpochZeroExpiresNothing(k: Crypto, db: Db, signer: Signer, now: i64, draw: nat -> PublicId)
    requires Inv(k, db.requests) && StartBoot(k, db, 0, signer, now, draw).Ok?
    ensures StartBoot(k, db, 0, signer, now, draw).value.0.requests == db.requests
  {
    hide Inv, DueIds;
    var ids := DueIds(db.requests, 0);
    if ids != [] {
      DueIdsAre(db.requests, 0, ids[0]);
      var i :| 0 <= i < |db.requests| && db.requests[i].id == ids[0] && DueAtBoot(db.requests[i], 0);
      BootEpochIsDefault(k, db.requests, i);
    }
  }
}
