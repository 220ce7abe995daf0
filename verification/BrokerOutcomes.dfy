/** What each of the store's transactions answers and writes, told from the table and the arguments. */
module BrokerOutcomes {
  import opened ByteStrings
  import opened Vocabulary
  import opened EventChain
  import opened Results
  import opened BrokerStore
  import opened BrokerRuns
  import opened BrokerGuards

  // ----- intake

  predicate SameOperation(e: Entry, r: PackageInstall) {
    e.row.uid == r.uid && e.row.operationKey == r.operationKey
  }

  predicate OpenOn(e: Entry, device: DeviceId) {
    e.row.device == device && !IsTerminal(e.row.state)
  }

  /** A retry under a known operation key changes nothing: it finds the request it names, or conflicts with another input. */
  lemma SubmitAgain(k: Crypto, s: Store, r: PackageInstall, i: nat)
    requires Inv(k, s.db.requests) && i < |s.db.requests| && SameOperation(s.db.requests[i], r)
    ensures var e := s.db.requests[i];
      Submit(k, s, r, true) ==
        if e.row.inputDigest == k.inputDigest(r.packageName)
        then Ok((s.db, Existing(Summary(e.id, e.row.uid, e.row.state, e.row.generation)))) else Err(IdempotencyConflict)
  {
    hide Inv, Find;
    OperationIndex(k, s.db.requests, i);
  }

  lemma OpenIndex(k: Crypto, rows: seq<Entry>, device: DeviceId, i: nat)
    requires Inv(k, rows) && i < |rows| && OpenOn(rows[i], device)
    ensures Find(rows, ByActiveDevice(device)) == Some(i)
  {
    hide EntryOk, Find;
    assert ByActiveDevice(device)(rows[i]);
    var j := Find(rows, ByActiveDevice(device)).value;
    assert ByActiveDevice(device)(rows[j]);
    assert i < j ==> Separate(rows[i], rows[j]);
    assert j < i ==> Separate(rows[j], rows[i]);
  }

  /** A new operation meets the request that is open on the device. */
  lemma SubmitBusy(k: Crypto, s: Store, r: PackageInstall, i: nat)
    requires Inv(k, s.db.requests) && i < |s.db.requests| && OpenOn(s.db.requests[i], s.device)
    requires forall e :: e in s.db.requests ==> !SameOperation(e, r)
    ensures Submit(k, s, r, true) == Err(Busy(s.db.requests[i].id))
  {
    hide Inv, Find;
    var rows := s.db.requests;
    assert forall j :: 0 <= j < |rows| ==> rows[j] in rows && !SameOperation(rows[j], r);
    assert Find(rows, ByOperation(r.uid, r.operationKey)).None?;
    OpenIndex(k, rows, s.device, i);
  }

  /** The row that intake writes, value by value. */
  ghost predicate FreshRow(k: Crypto, s: Store, r: PackageInstall, e: Entry) {
    && e.id == r.requestId && e.receipt.None?
    && e.row.device == s.device && e.row.uid == r.uid && e.row.operationKey == r.operationKey
    && e.row.packageName == r.packageName && e.row.inputDigest == k.inputDigest(r.packageName)
    && e.row.generation == r.generation && e.row.state.Planning? && e.row.bootEpoch == 0
    && e.row.binding.None? && e.row.receiptBytes.None? && e.row.recoveryEvidence.None?
    && |e.log| == 1 && e.log[0].state.Planning? && e.log[0].reason == Reason.Created && Chained(k.hash, e.id, e.log)
  }

  /** With no such operation and nothing open, intake adds exactly one row for exactly this request, if its numbers fit and its identifier is new. */
  lemma SubmitNew(k: Crypto, s: Store, r: PackageInstall)
    requires Inv(k, s.db.requests)
    requires forall e :: e in s.db.requests ==> !SameOperation(e, r) && !OpenOn(e, s.device)
    ensures var o := Submit(k, s, r, true);
      if r.generation > I64_MAX then o == Err(NumericOutOfRange)
      else if exists e :: e in s.db.requests && e.id == r.requestId then o == Err(Sqlite)
      else
        && o.Ok? && o.value.1 == Reply.Created(Summary(r.requestId, r.uid, Planning, r.generation))
        && var d := o.value.0;
          && |d.requests| == |s.db.requests| + 1 && d == s.db.(requests := s.db.requests + [d.requests[|s.db.requests|]])
          && FreshRow(k, s, r, d.requests[|s.db.requests|])
  {
    hide Inv, Find, NextEvent, Chained;
    var rows := s.db.requests;
    assert forall i :: 0 <= i < |rows| ==> rows[i] in rows && !SameOperation(rows[i], r) && !OpenOn(rows[i], s.device);
    assert Find(rows, ByOperation(r.uid, r.operationKey)).None? && Find(rows, ByActiveDevice(s.device)).None?;
    assert forall i :: 0 <= i < |rows| ==> (rows[i].id == r.requestId <==> ById(r.requestId)(rows[i]));
    if r.generation <= I64_MAX {
      FreshIsChained(k, s.device, r);
    }
  }

  lemma FreshIsChained(k: Crypto, device: DeviceId, r: PackageInstall)
    requires r.generation <= I64_MAX
    ensures Chained(k.hash, r.requestId, FreshEntry(k, device, r).log)
  {
    hide Chained, NextEvent;
    FreshIsOk(k, device, r);
  }

  /** Denied by policy, whatever the table holds. */
  lemma SubmitDenied(k: Crypto, s: Store, r: PackageInstall)
    ensures Submit(k, s, r, false) == Err(PolicyDenied)
  {
  }

  /** Idempotent intake, from the caller's side: after a request was created, and whatever ran since, the same call finds it. */
  lemma RetryFindsOriginal(k: Crypto, s: Store, r: PackageInstall, ops: seq<Op>)
    requires Inv(k, s.db.requests)
    requires Submit(k, s, r, true).Ok? && Submit(k, s, r, true).value.1.Created?
    ensures var later := Run(k, s.(db := Submit(k, s, r, true).value.0), ops);
      var again := Submit(k, later, r, true);
      && again.Ok? && again.value.0 == later.db && again.value.1.Existing?
      && again.value.1.summary.requestId == r.requestId && again.value.1.summary.uid == r.uid
      && again.value.1.summary.generation == r.generation
  {
    hide Inv, Run, Find, NextEvent, Chained, Extends, RowsExtend;
    var created := s.(db := Submit(k, s, r, true).value.0);
    CreatesExactly(k, s, r, true);
    SubmitKeeps(k, s, r, true);
    SubmitNew(k, s, r);
    RunKeeps(k, created, ops);
    var i := |s.db.requests|;
    ExtendsAt(created.db.requests, Run(k, created, ops).db.requests, i);
    InputMatches(k, created.db.requests, i);
    SubmitAgain(k, Run(k, created, ops), r, i);
  }

  lemma ExtendsAt(rows: seq<Entry>, later: seq<Entry>, i: nat)
    requires RowsExtend(rows, later) && i < |rows|
    ensures i < |later| && later[i].id == rows[i].id
    ensures later[i].row.uid == rows[i].row.uid && later[i].row.operationKey == rows[i].row.operationKey
    ensures later[i].row.inputDigest == rows[i].row.inputDigest && later[i].row.generation == rows[i].row.generation
  {
    assert Extends(rows[i], later[i]);
  }

  lemma InputMatches(k: Crypto, rows: seq<Entry>, i: nat)
    requires Inv(k, rows) && i < |rows|
    ensures rows[i].row.inputDigest == k.inputDigest(rows[i].row.packageName)
  {
    hide Chained, StoreHistory, Separate, Signs, Closed;
    assert EntryOk(k, rows[i]);
  }

  // ----- identity

  /** The first key to be pinned stays the only one, and the device id that is pinned is the one in use. */
  lemma InitializeExactly(k: Crypto, s: Store, signer: Signer, newDevice: DeviceId)
    ensures var (t, answer) := Step(k, s, OpInitialize(signer, newDevice));
      if s.db.identity.None? then
        answer == Ok(Done) && t == Store(s.db.(identity := Some(Identity(signer.kid, signer.publicKey, 0, Some(newDevice)))), newDevice)
      else if !PinnedKey(s.db, signer) then
        answer == Err(UnsafeKey) && t == s
      else if s.db.identity.value.device.Some? then
        answer == Ok(Done) && t == Store(s.db, s.db.identity.value.device.value)
      else
        answer == Ok(Done) && t == Store(s.db.(identity := Some(s.db.identity.value.(device := Some(newDevice)))), newDevice)
  {
  }

  /** Nothing is signed but under the pinned key. */
  lemma OnlyPinnedKeySigns(k: Crypto, s: Store, op: Op)
    requires Step(k, s, op).1.Ok?
    requires op.OpPrepare? || op.OpTerminal? || op.OpReconcile? || op.OpCommitDecision? || (op.OpStartBoot? && op.epoch != s.db.bootEpoch)
    ensures PinnedKey(s.db, op.signer)
  {
    hide Find, AppendTransition, CreateReceipt, NoteEvidence, Bind, Counted, SchemaName, DueIds, ExpireFirst, Close;
  }

  // ----- moving a request

  /** Nothing but the row at `i` differs, and of that row only what is named here and its events, of which there is one more. */
  ghost predicate OneRow(k: Crypto, db: Db, d: Db, i: nat, row: Row, reason: Reason)
    requires i < |db.requests|
  {
    && |d.requests| == |db.requests| && d == db.(requests := db.requests[i := d.requests[i]], credentials := d.credentials)
    && d.requests[i].id == db.requests[i].id && d.requests[i].row == row
    && d.requests[i].log == db.requests[i].log + [NextEvent(k.hash, db.requests[i].id, db.requests[i].log, row.state, reason)]
  }

  lemma FromIsOpen(s: RequestState, next: RequestState)
    requires Permits(s, next)
    ensures !IsTerminal(s)
  {
  }

  /** Compare-and-set between open states: refused edges, lost races and unknown requests are told apart, in that order. */
  lemma NonterminalExactly(k: Crypto, db: Db, i: nat, expected: RequestState, next: RequestState)
    requires Inv(k, db.requests) && i < |db.requests|
    ensures var e := db.requests[i];
      var o := TransitionNonterminal(k, db, e.id, expected, next);
      if IsTerminal(next) || !Permits(expected, next) then o == Err(InvalidTransition(expected, next))
      else if e.row.state != expected then o == Err(LifecycleRaceLost(e.row.state))
      else
        && o.Ok? && o.value.1 == Reply.Moved(next)
        && OneRow(k, db, o.value.0, i, e.row.(state := next), DefaultReason(next))
        && o.value.0.requests[i].receipt.None? && o.value.0.credentials == db.credentials
  {
    hide Inv, Find, NextEvent, DefaultReason, IsTerminal, Permits;
    IdIndex(k, db.requests, i);
    if Permits(expected, next) && db.requests[i].row.state == expected {
      FromIsOpen(expected, next);
      OpenEntry(k, db.requests, i);
    }
  }

  lemma Unknown(db: Db, id: PublicId)
    requires forall e :: e in db.requests ==> e.id != id
    ensures Find(db.requests, ById(id)).None?
  {
    hide Find;
    assert forall i :: 0 <= i < |db.requests| ==> db.requests[i] in db.requests;
  }

  /** A request that is not in the table is not moved, prepared, closed or decided. */
  lemma UnknownRequest(k: Crypto, s: Store, id: PublicId, op: Op)
    requires forall e :: e in s.db.requests ==> e.id != id
    requires op.OpNonterminal? || op.OpPrepare? || op.OpTerminal? || op.OpReconcile? || op.OpCommitDecision?
    requires op.id == id
    ensures Step(k, s, op).1.Err? && Step(k, s, op).0 == s
  {
    hide Find, SchemaName;
    Unknown(s.db, id);
  }

  /** A closed request has a receipt sealed in the same step, and nothing else of the table differs. */
  lemma ClosesOneRow(k: Crypto, db: Db, i: nat, expected: Option<RequestState>, next: RequestState, reason: Reason,
                     signer: Signer, now: i64, receiptId: PublicId, evidence: seq<Bytes>)
    requires Inv(k, db.requests) && i < |db.requests| && IsTerminal(next)
    requires Close(k, db, db.requests[i].id, expected, next, reason, signer, now, receiptId, evidence).Ok?
    ensures var (d, cose) := Close(k, db, db.requests[i].id, expected, next, reason, signer, now, receiptId, evidence).value;
      var l := d.requests;
      && |l| == |db.requests| && l[i].receipt.Some? && cose == l[i].receipt.value.cose && d.credentials == db.credentials
      && OneRow(k, db, d, i, db.requests[i].row.(state := next, receiptBytes := Some(cose)), reason)
      && SealedAs(k, db, l[i], signer, now, receiptId, evidence)
  {
    hide Inv, Find, NextEvent, IsTerminal, SealedAs, StoreEdge, StoreReason, EntryStep, Close, Decodes;
    IdIndex(k, db.requests, i);
    CloseIsAStep(k, db, db.requests[i].id, expected, next, reason, signer, now, receiptId, evidence);
  }

  lemma CloseLosesRace(k: Crypto, db: Db, i: nat, expected: RequestState, next: RequestState, reason: Reason,
                       signer: Signer, now: i64, receiptId: PublicId, evidence: seq<Bytes>)
    requires Inv(k, db.requests) && i < |db.requests| && db.requests[i].row.state != expected
    ensures Close(k, db, db.requests[i].id, Some(expected), next, reason, signer, now, receiptId, evidence)
         == Err(LifecycleRaceLost(db.requests[i].row.state))
  {
    hide Inv, AppendTransition, CreateReceipt;
    RaceLost(k, db, i, expected, next, reason);
  }

  /** A request closes with a receipt sealed in the same transaction, over no evidence, and with nothing else of its row changed. */
  lemma TerminalExactly(k: Crypto, db: Db, i: nat, expected: RequestState, next: RequestState, signer: Signer, now: i64, receiptId: PublicId)
    requires Inv(k, db.requests) && i < |db.requests|
    ensures var e := db.requests[i];
      var o := TransitionTerminal(k, db, e.id, expected, next, signer, now, receiptId);
      if !IsTerminal(next) || !Permits(expected, next) then o == Err(InvalidTransition(expected, next))
      else if !PinnedKey(db, signer) then o == Err(UnsafeKey)
      else if e.row.state != expected then o == Err(LifecycleRaceLost(e.row.state))
      else o.Ok? ==>
        var l := o.value.0.requests;
        && |l| == |db.requests| && l[i].receipt.Some? && o.value.1 == SealedBytes(l[i].receipt.value.cose)
        && OneRow(k, db, o.value.0, i, e.row.(state := next, receiptBytes := Some(l[i].receipt.value.cose)), DefaultReason(next))
        && SealedAs(k, db, l[i], signer, now, receiptId, []) && o.value.0.credentials == db.credentials
  {
    hide Inv, DefaultReason, IsTerminal, Permits, SealedAs, OneRow, Close;
    var e, reason := db.requests[i], DefaultReason(next);
    if e.row.state != expected {
      CloseLosesRace(k, db, i, expected, next, reason, signer, now, receiptId, []);
    } else if IsTerminal(next) && Close(k, db, e.id, Some(expected), next, reason, signer, now, receiptId, []).Ok? {
      ClosesOneRow(k, db, i, Some(expected), next, reason, signer, now, receiptId, []);
    }
  }

  /** Why an open request is not closed, and that nothing else can be in the way. */
  lemma CloseRefusals(k: Crypto, db: Db, i: nat, expected: Option<RequestState>, next: RequestState, reason: Reason,
                      signer: Signer, now: i64, receiptId: PublicId, evidence: seq<Bytes>)
    requires Inv(k, db.requests) && i < |db.requests| && !IsTerminal(db.requests[i].row.state)
    requires expected.Some? ==> db.requests[i].row.state == expected.value
    ensures var e := db.requests[i];
      var o := Close(k, db, e.id, expected, next, reason, signer, now, receiptId, evidence);
      if !Decodes(receiptId) || !Decodes(e.id) then o == Err(CorruptState)
      else if now < (if e.row.binding.Some? then e.row.binding.value.context.createdUtc else 0) then o == Err(ReceiptFailed)
      else if k.sealReceipt(signer, FactsForReceipt(e, db.bootEpoch, receiptId, next, now, evidence)).None? then o == Err(ReceiptFailed)
      else if exists r :: r in db.requests && r.receipt.Some? && r.receipt.value.receiptId == receiptId then o == Err(Sqlite)
      else o.Ok?
  {
    hide Inv, Find, NextEvent, Decodes, IsTerminal;
    var e := db.requests[i];
    IdIndex(k, db.requests, i);
    OpenEntry(k, db.requests, i);
    Appended(k, db, e.id, expected, next, reason);
    var moved := AppendTransition(k, db, e.id, expected, next, reason).value;
    FindSameReceipts(db.requests, moved.requests, receiptId);
    ReceiptTaken(db.requests, receiptId);
  }

  lemma ReceiptTaken(rows: seq<Entry>, receiptId: PublicId)
    ensures Find(rows, ByReceiptId(receiptId)).Some? <==> exists r :: r in rows && r.receipt.Some? && r.receipt.value.receiptId == receiptId
  {
    hide Find;
    if Find(rows, ByReceiptId(receiptId)).None? {
      assert forall i :: 0 <= i < |rows| ==> !ByReceiptId(receiptId)(rows[i]);
    } else {
      assert rows[Find(rows, ByReceiptId(receiptId)).value] in rows;
    }
  }

  /** Reconciliation closes a request in recovery as reported, with the operator's evidence in the row and in what is sealed. */
  lemma ReconcileExactly(k: Crypto, db: Db, i: nat, succeeded: bool, evidence: Bytes, signer: Signer, now: i64, receiptId: PublicId)
    requires Inv(k, db.requests) && i < |db.requests|
    ensures var e := db.requests[i];
      var o := ReconcileRecovery(k, db, e.id, succeeded, evidence, signer, now, receiptId);
      if !(1 <= |evidence| <= 65_536) then o == Err(CorruptState)
      else if !PinnedKey(db, signer) then o == Err(UnsafeKey)
      else if !e.row.state.RecoveryRequired? then o == Err(LifecycleRaceLost(e.row.state))
      else o.Ok? ==>
        var l := o.value.0.requests;
        && |l| == |db.requests| && l[i].receipt.Some? && o.value.1 == SealedBytes(l[i].receipt.value.cose)
        && OneRow(k, db, o.value.0, i,
                  e.row.(state := if succeeded then Succeeded else Failed, receiptBytes := Some(l[i].receipt.value.cose), recoveryEvidence := Some(evidence)),
                  if succeeded then ReconciledSucceeded else ReconciledFailed)
        && SealedAs(k, db, l[i], signer, now, receiptId, []) && o.value.0.credentials == db.credentials
  {
    hide Inv, Find, NextEvent, SealedAs, AppendTransition, CreateReceipt, NoteEvidence;
    var e := db.requests[i];
    var next := if succeeded then Succeeded else Failed;
    var reason := if succeeded then ReconciledSucceeded else ReconciledFailed;
    if e.row.state != RecoveryRequired {
      RaceLost(k, db, i, RecoveryRequired, next, reason);
    } else if AppendTransition(k, db, e.id, Some(RecoveryRequired), next, reason).Ok? {
      Reconciles(k, db, i, next, reason, evidence, signer, now, receiptId);
    }
  }

  lemma Reconciles(k: Crypto, db: Db, i: nat, next: RequestState, reason: Reason, evidence: Bytes, signer: Signer, now: i64, receiptId: PublicId)
    requires Inv(k, db.requests) && i < |db.requests|
    requires AppendTransition(k, db, db.requests[i].id, Some(RecoveryRequired), next, reason).Ok?
    ensures var e := db.requests[i];
      var moved := AppendTransition(k, db, e.id, Some(RecoveryRequired), next, reason).value;
      var o := CreateReceipt(k, NoteEvidence(moved, e.id, evidence), e.id, next, signer, now, receiptId, []);
      o.Ok? ==>
        var l := o.value.0.requests;
        && |l| == |db.requests| && l[i].receipt.Some? && o.value.1 == l[i].receipt.value.cose
        && OneRow(k, db, o.value.0, i,
                  e.row.(state := next, receiptBytes := Some(l[i].receipt.value.cose), recoveryEvidence := Some(evidence)), reason)
        && SealedAs(k, db, l[i], signer, now, receiptId, []) && o.value.0.credentials == db.credentials
  {
    hide Inv, Find, NextEvent, SealedAs, AppendTransition, CreateReceipt, Closed, FactsForReceipt;
    var e := db.requests[i];
    IdIndex(k, db.requests, i);
    Appended(k, db, e.id, Some(RecoveryRequired), next, reason);
    var moved := AppendTransition(k, db, e.id, Some(RecoveryRequired), next, reason).value;
    var noted := NoteEvidence(moved, e.id, evidence);
    FindSameIds(moved.requests, noted.requests, e.id);
    if CreateReceipt(k, noted, e.id, next, signer, now, receiptId, []).Ok? {
      ReceiptCreated(k, noted, e.id, next, signer, now, receiptId, []);
      SealedBefore(k, noted, db, CreateReceipt(k, noted, e.id, next, signer, now, receiptId, []).value.0.requests[i], signer, now, receiptId, []);
    }
  }

  lemma RaceLost(k: Crypto, db: Db, i: nat, expected: RequestState, next: RequestState, reason: Reason)
    requires Inv(k, db.requests) && i < |db.requests| && db.requests[i].row.state != expected
    ensures AppendTransition(k, db, db.requests[i].id, Some(expected), next, reason) == Err(LifecycleRaceLost(db.requests[i].row.state))
  {
    hide Inv, Find;
    IdIndex(k, db.requests, i);
  }

  /** Sealing depends on the boot epoch of the database and nothing else of it. */
  lemma SealedBefore(k: Crypto, c: Db, db: Db, l: Entry, signer: Signer, now: i64, receiptId: PublicId, evidence: seq<Bytes>)
    requires SealedAs(k, c, l, signer, now, receiptId, evidence) && c.bootEpoch == db.bootEpoch
    ensures SealedAs(k, db, l, signer, now, receiptId, evidence)
  {
    hide ReceiptSigns;
  }

  /** A frozen request is sealed over exactly the store's, the row's, the planner's and the caller's values, and keeps what it signed. */
  ghost predicate FrozenAs(k: Crypto, s: Store, e: Entry, plan: FrozenPlan, context: PendingContext, signer: Signer, b: Binding) {
    s.db.identity.Some?
    && exists f: RequestFacts ::
      && k.sealRequest(signer, f) == Some(SealedRequest(b.requestDigest, b.requestCose, b.frozenPlan))
      && f.requestId == e.id && f.device == s.device && f.brokerEpoch == s.db.identity.value.brokerEpoch
      && f.generation == e.row.generation && f.uid == e.row.uid && f.packageName == e.row.packageName
      && f.planDigest == plan.planDigest == b.planDigest && f.manifestDigest == plan.manifestDigest && f.actionCount == plan.actionCount
      && f.context == context == b.context
  }

  lemma OpenAppends(k: Crypto, db: Db, i: nat, next: RequestState, reason: Reason)
    requires Inv(k, db.requests) && i < |db.requests| && !IsTerminal(db.requests[i].row.state)
    ensures AppendTransition(k, db, db.requests[i].id, Some(db.requests[i].row.state), next, reason).Ok?
  {
    hide Inv, Find, NextEvent, IsTerminal;
    IdIndex(k, db.requests, i);
    OpenEntry(k, db.requests, i);
  }

  /** A planning request is frozen, signed and bound, or refused for the first of these reasons. */
  lemma PrepareExactly(k: Crypto, s: Store, i: nat, plan: FrozenPlan, context: PendingContext, signer: Signer)
    requires Inv(k, s.db.requests) && i < |s.db.requests|
    ensures var e := s.db.requests[i];
      var o := PrepareForDecision(k, s, e.id, plan, context, signer);
      if context.expiresUtc < context.createdUtc then o == Err(CorruptState)
      else if !PinnedKey(s.db, signer) then o == Err(UnsafeKey)
      else if !e.row.state.Planning? then o == Err(LifecycleRaceLost(e.row.state))
      else if e.row.packageName != plan.packageName || !Decodes(e.id) || !SchemaName(e.row.packageName) then o == Err(CorruptState)
      else if k.sealRequest(signer, RequestFacts(e.id, s.device, s.db.identity.value.brokerEpoch, e.row.generation, e.row.uid, e.row.packageName,
                                                 plan.planDigest, plan.manifestDigest, plan.actionCount, context)).None? then o == Err(ReceiptFailed)
      else if context.deadline > I64_MAX then o == Err(NumericOutOfRange)
      else
        && o.Ok?
        && var l := o.value.0.requests;
        && |l| == |s.db.requests| && l[i].row.binding.Some? && l[i].receipt.None? && o.value.1 == SealedBytes(l[i].row.binding.value.requestCose)
        && OneRow(k, s.db, o.value.0, i, e.row.(state := Pending, binding := l[i].row.binding), PlannerPending)
        && FrozenAs(k, s, e, plan, context, signer, l[i].row.binding.value) && o.value.0.credentials == s.db.credentials
  {
    hide Inv, Find, NextEvent, AppendTransition, SchemaName, FrozenAs, Decodes;
    var e := s.db.requests[i];
    IdIndex(k, s.db.requests, i);
    if e.row.state == Planning {
      OpenAppends(k, s.db, i, Pending, PlannerPending);
      OpenEntry(k, s.db.requests, i);
      Appended(k, s.db, e.id, Some(Planning), Pending, PlannerPending);
    }
    if PrepareForDecision(k, s, e.id, plan, context, signer).Ok? {
      FreezesAs(k, s, e, plan, context, signer);
    }
  }

  lemma FreezesAs(k: Crypto, s: Store, e: Entry, plan: FrozenPlan, context: PendingContext, signer: Signer)
    requires s.db.identity.Some? && k.sealRequest(signer, RequestFactsOf(s, e, plan, context)).Some?
    ensures var sealed := k.sealRequest(signer, RequestFactsOf(s, e, plan, context)).value;
      FrozenAs(k, s, e, plan, context, signer, Binding(plan.planDigest, sealed.requestDigest, sealed.requestCose, sealed.frozenPlan, context))
  {
    var f := RequestFactsOf(s, e, plan, context);
    assert f.context == context;
  }

  // ----- deciding

  /**
   * The write transaction of a decision: stale if the generation moved on, otherwise what was decided. A denial's receipt
   * carries exactly the evidence handed in, the others none; an approval has no receipt.
   */
  lemma CommitExactly(k: Crypto, db: Db, i: nat, v: Verified, evidence: Bytes, signer: Signer, now: i64, receiptId: PublicId)
    requires Inv(k, db.requests) && i < |db.requests|
    ensures var e := db.requests[i];
      var o := CommitDecision(k, db, e.id, v, evidence, signer, now, receiptId);
      if !PinnedKey(db, signer) then o == Err(UnsafeKey)
      else if !e.row.state.Pending? then o == Err(LifecycleRaceLost(e.row.state))
      else if db.generation == v.context.generation && v.context.decision.Approve? then
        && o.Ok? && o.value.1 == DecidedAs(Approved, None)
        && OneRow(k, db, o.value.0, i, e.row.(state := Approved), ByApproval) && o.value.0.requests[i].receipt.None?
      else
        var (next, reason, told) := if db.generation != v.context.generation then (Stale, GenerationStale, []) else (Denied, ByDenial, [evidence]);
        o.Ok? ==>
          var l := o.value.0.requests;
          && |l| == |db.requests| && l[i].receipt.Some? && o.value.1 == DecidedAs(next, Some(l[i].receipt.value.cose))
          && OneRow(k, db, o.value.0, i, e.row.(state := next, receiptBytes := Some(l[i].receipt.value.cose)), reason)
          && SealedAs(k, db, l[i], signer, now, receiptId, told)
  {
    hide Inv, Find, SealedAs, OneRow, AppendTransition, CreateReceipt, Counted, Close;
    var e := db.requests[i];
    IdIndex(k, db.requests, i);
    if PinnedKey(db, signer) && e.row.state == Pending {
      OpenEntry(k, db.requests, i);
      if db.generation == v.context.generation && v.context.decision == Approve {
        Approves(k, db, i, Counted(db.credentials, v.credentialId, v.signCount));
      } else if db.generation != v.context.generation {
        if Close(k, db, e.id, Some(Pending), Stale, GenerationStale, signer, now, receiptId, []).Ok? {
          ClosesOneRow(k, db, i, Some(Pending), Stale, GenerationStale, signer, now, receiptId, []);
        }
      } else if AppendTransition(k, db, e.id, Some(Pending), Denied, ByDenial).Ok? {
        Denies(k, db, i, v, evidence, signer, now, receiptId);
      }
    }
  }

  lemma Approves(k: Crypto, db: Db, i: nat, credentials: map<Bytes, Credential>)
    requires Inv(k, db.requests) && i < |db.requests| && db.requests[i].row.state.Pending?
    ensures var o := AppendTransition(k, db, db.requests[i].id, Some(Pending), Approved, ByApproval);
      && o.Ok? && |o.value.requests| == |db.requests| && o.value.requests[i].receipt.None?
      && OneRow(k, db, o.value.(credentials := credentials), i, db.requests[i].row.(state := Approved), ByApproval)
  {
    hide Inv, Find, NextEvent;
    IdIndex(k, db.requests, i);
    OpenEntry(k, db.requests, i);
  }

  lemma Denies(k: Crypto, db: Db, i: nat, v: Verified, evidence: Bytes, signer: Signer, now: i64, receiptId: PublicId)
    requires Inv(k, db.requests) && i < |db.requests| && AppendTransition(k, db, db.requests[i].id, Some(Pending), Denied, ByDenial).Ok?
    ensures var e := db.requests[i];
      var moved := AppendTransition(k, db, e.id, Some(Pending), Denied, ByDenial).value;
      var o := CreateReceipt(k, moved.(credentials := Counted(moved.credentials, v.credentialId, v.signCount)), e.id, Denied, signer, now, receiptId, [evidence]);
      o.Ok? ==>
        var l := o.value.0.requests;
        && |l| == |db.requests| && l[i].receipt.Some? && o.value.1 == l[i].receipt.value.cose
        && OneRow(k, db, o.value.0, i, e.row.(state := Denied, receiptBytes := Some(l[i].receipt.value.cose)), ByDenial)
        && SealedAs(k, db, l[i], signer, now, receiptId, [evidence])
  {
    hide Inv, Find, NextEvent, SealedAs, AppendTransition, CreateReceipt, Counted, Closed, FactsForReceipt;
    var e := db.requests[i];
    IdIndex(k, db.requests, i);
    Appended(k, db, e.id, Some(Pending), Denied, ByDenial);
    var moved := AppendTransition(k, db, e.id, Some(Pending), Denied, ByDenial).value;
    var counted := moved.(credentials := Counted(moved.credentials, v.credentialId, v.signCount));
    if CreateReceipt(k, counted, e.id, Denied, signer, now, receiptId, [evidence]).Ok? {
      ReceiptCreated(k, counted, e.id, Denied, signer, now, receiptId, [evidence]);
      SealedBefore(k, counted, db, CreateReceipt(k, counted, e.id, Denied, signer, now, receiptId, [evidence]).value.0.requests[i], signer, now, receiptId, [evidence]);
    }
  }

  // ----- reading and verifying

  /** The submission is about this pending request as the store has it, in every value. */
  predicate AboutThis(s: Store, e: Entry, c: BoundContext, party: RelyingParty) {
    && e.row.state.Pending? && e.row.binding.Some? && s.db.identity.Some? && Decodes(e.id)
    && c.requestId == e.id && c.device == s.device && c.brokerEpoch == s.db.identity.value.brokerEpoch
    && c.requestDigest == e.row.binding.value.requestDigest && c.generation == e.row.generation
    && c.nonce == e.row.binding.value.context.nonce && c.party == party
    && c.expiresUtc == e.row.binding.value.context.expiresUtc
  }

  /** Neither clock has reached the request's limit. */
  predicate InTime(e: Entry, nowMono: u64, nowUtc: i64)
    requires e.row.binding.Some?
  {
    nowUtc < e.row.binding.value.context.expiresUtc && nowMono < e.row.binding.value.context.deadline
  }

  predicate Accepted(s: Store, e: Entry, submission: DecisionSubmission) {
    && submission.genuine && submission.credentialId in s.db.credentials
    && s.db.credentials[submission.credentialId].generation == e.row.generation
    && !s.db.credentials[submission.credentialId].quarantined
  }

  /** A counter that moved back, or stood still, between two values that count. */
  predicate CounterSuspect(was: u32, now: u32) {
    was != 0 && now != 0 && now <= was
  }

  /**
   * How reading and verifying ends: an elapsed request is to be closed as expired, else one whose generation was
   * superseded as stale, else a genuine submission under a pinned credential proceeds with exactly what it said, and
   * anything else is refused.
   */
  lemma ReadPhaseExactly(k: Crypto, s: Store, i: nat, submission: DecisionSubmission, party: RelyingParty, nowMono: u64, nowUtc: i64)
    requires Inv(k, s.db.requests) && i < |s.db.requests|
    ensures var e := s.db.requests[i];
      var o := ReadPhase(s, e.id, submission, party, nowMono, nowUtc);
      if !AboutThis(s, e, submission.context, party) then o.Err?
      else if !InTime(e, nowMono, nowUtc) then o == Ok(CloseAs(RequestState.Expired))
      else if s.db.generation != e.row.generation then o == Ok(CloseAs(Stale))
      else if !Accepted(s, e, submission) then o == Err(WebAuthnFailed)
      else o == Ok(Proceed(Verified(submission.context, submission.credentialId, submission.signCount,
                                    CounterSuspect(s.db.credentials[submission.credentialId].signCount, submission.signCount))))
  {
    hide Inv, Find, Decodes;
    IdIndex(k, s.db.requests, i);
  }

  /** Why a submission that is not about the stored request is refused: the row's state tells first, the context last. */
  lemma ReadRefusals(k: Crypto, s: Store, i: nat, submission: DecisionSubmission, party: RelyingParty, nowMono: u64, nowUtc: i64)
    requires Inv(k, s.db.requests) && i < |s.db.requests| && s.db.requests[i].row.binding.Some?
    ensures var e := s.db.requests[i];
      var o := ReadPhase(s, e.id, submission, party, nowMono, nowUtc);
      && (!e.row.state.Pending? ==> o == Err(LifecycleRaceLost(e.row.state)))
      && (e.row.state.Pending? && s.db.identity.Some? && Decodes(e.id) && !AboutThis(s, e, submission.context, party) ==> o == Err(WebAuthnFailed))
  {
    hide Inv, Find, Decodes;
    IdIndex(k, s.db.requests, i);
  }

  // ----- a new boot

  /** The requests that a boot has expired so far, each with a receipt sealed for it; the rest as they were. */
  ghost predicate ExpiredAndSealed(k: Crypto, db: Db, d: Db, ids: seq<PublicId>, n: nat, signer: Signer, now: i64, draw: nat -> PublicId)
    requires n <= |ids|
  {
    && |d.requests| == |db.requests|
    && forall i :: 0 <= i < |db.requests| ==>
         if db.requests[i].id in ids[..n] then
           && d.requests[i].receipt.Some?
           && d.requests[i].row == db.requests[i].row.(state := RequestState.Expired, receiptBytes := Some(d.requests[i].receipt.value.cose))
           && exists j :: 0 <= j < n && ids[j] == db.requests[i].id && SealedAs(k, db, d.requests[i], signer, now, draw(j), [])
         else d.requests[i] == db.requests[i]
  }

  lemma {:induction false} BootSeals(k: Crypto, db: Db, epoch: i64, n: nat, signer: Signer, now: i64, draw: nat -> PublicId)
    requires Inv(k, db.requests) && n <= |DueIds(db.requests, epoch)|
    requires ExpireFirst(k, db, DueIds(db.requests, epoch), n, signer, now, draw).Ok?
    ensures var d := ExpireFirst(k, db, DueIds(db.requests, epoch), n, signer, now, draw).value;
      ExpiredAndSealed(k, db, d, DueIds(db.requests, epoch), n, signer, now, draw)
  {
    hide Inv, DueIds, Close, RowsExtend, SealedAs;
    var ids := DueIds(db.requests, epoch);
    if n > 0 {
      BootSeals(k, db, epoch, n - 1, signer, now, draw);
      ExpireFirstKeeps(k, db, epoch, n - 1, signer, now, draw);
      var earlier := ExpireFirst(k, db, ids, n - 1, signer, now, draw).value;
      OneMoreSealed(k, db, earlier, epoch, n, signer, now, draw);
    }
  }

  lemma OneMoreSealed(k: Crypto, db: Db, earlier: Db, epoch: i64, n: nat, signer: Signer, now: i64, draw: nat -> PublicId)
    requires Inv(k, db.requests) && Inv(k, earlier.requests) && 0 < n <= |DueIds(db.requests, epoch)| && earlier.bootEpoch == db.bootEpoch
    requires ExpiredAndSealed(k, db, earlier, DueIds(db.requests, epoch), n - 1, signer, now, draw)
    requires forall i :: 0 <= i < |db.requests| ==> earlier.requests[i].id == db.requests[i].id
    requires Close(k, earlier, DueIds(db.requests, epoch)[n - 1], None, RequestState.Expired, ByExpiry, signer, now, draw(n - 1), []).Ok?
    ensures var d := Close(k, earlier, DueIds(db.requests, epoch)[n - 1], None, RequestState.Expired, ByExpiry, signer, now, draw(n - 1), []).value.0;
      ExpiredAndSealed(k, db, d, DueIds(db.requests, epoch), n, signer, now, draw)
  {
    hide Inv, DueIds, Close, Find, EntryStep, StoreEdge, StoreReason, SealedAs, NextEvent, Decodes;
    var ids := DueIds(db.requests, epoch);
    var id := ids[n - 1];
    DueIdsDiffer(k, db.requests, epoch);
    assert ids[..n] == ids[..n - 1] + [id] && id !in ids[..n - 1];
    CloseIsAStep(k, earlier, id, None, RequestState.Expired, ByExpiry, signer, now, draw(n - 1), []);
    var i := Find(earlier.requests, ById(id)).value;
    assert ById(id)(earlier.requests[i]);
    var d := Close(k, earlier, id, None, RequestState.Expired, ByExpiry, signer, now, draw(n - 1), []).value.0;
    SealedBefore(k, earlier, db, d.requests[i], signer, now, draw(n - 1), []);
    forall j | 0 <= j < |db.requests| && j != i ensures db.requests[j].id != id {
      IdsDiffer(k, db.requests, i, j);
    }
  }

  function WaitingRows(rows: seq<Entry>): (r: set<nat>) {
    set i: nat | i < |rows| && Waits(rows[i])
  }

  /**
   * A boot that starts: every request that waited is expired, with a receipt of its own sealed under an identifier drawn
   * for it; every other row is as it was; and the answer counts them.
   */
  lemma BootExactly(k: Crypto, db: Db, epoch: u64, signer: Signer, now: i64, draw: nat -> PublicId)
    requires Inv(k, db.requests) && StartBoot(k, db, epoch, signer, now, draw).Ok?
    ensures var (d, reply) := StartBoot(k, db, epoch, signer, now, draw).value;
      && d == db.(requests := d.requests, bootEpoch := epoch) && |d.requests| == |db.requests|
      && (epoch == db.bootEpoch || epoch == 0 ==> d.requests == db.requests && reply == ExpiredCount(0))
      && (epoch != db.bootEpoch && epoch != 0 ==>
            && reply == ExpiredCount(|WaitingRows(db.requests)|)
            && forall i :: 0 <= i < |db.requests| ==>
                 if Waits(db.requests[i]) then
                   && d.requests[i].receipt.Some?
                   && d.requests[i].row == db.requests[i].row.(state := RequestState.Expired, receiptBytes := Some(d.requests[i].receipt.value.cose))
                   && exists j: nat :: SealedAs(k, db, d.requests[i], signer, now, draw(j), [])
                 else d.requests[i] == db.requests[i])
  {
    hide Inv, DueIds, ExpireFirst, RowsExtend, ExpiredOnly, SealedAs, Decodes;
    if epoch != db.bootEpoch {
      var ids := DueIds(db.requests, epoch);
      BootSeals(k, db, epoch, |ids|, signer, now, draw);
      ExpireFirstKeeps(k, db, epoch, |ids|, signer, now, draw);
      assert ids[..|ids|] == ids;
      DueCount(k, db.requests, epoch);
      forall i | 0 <= i < |db.requests| ensures db.requests[i].id in ids <==> epoch != 0 && Waits(db.requests[i]) {
        DueIdsAre(db.requests, epoch, db.requests[i].id);
        BootEpochIsDefault(k, db.requests, i);
        if db.requests[i].id in ids {
          DueRow(k, db.requests, epoch, i, db.requests[i].id);
        }
      }
    }
  }

  lemma WaitingGrows(rows: seq<Entry>)
    requires rows != []
    ensures var n := |rows| - 1; |WaitingRows(rows)| == |WaitingRows(rows[..n])| + if Waits(rows[n]) then 1 else 0
  {
    hide Waits;
    var n := |rows| - 1;
    assert WaitingRows(rows) == WaitingRows(rows[..n]) + if Waits(rows[n]) then {n} else {};
  }

  lemma PrefixKeeps(k: Crypto, rows: seq<Entry>, n: nat)
    requires Inv(k, rows) && n <= |rows|
    ensures Inv(k, rows[..n])
  {
    hide EntryOk, Separate;
  }

  lemma {:induction false} DueCount(k: Crypto, rows: seq<Entry>, epoch: i64)
    requires Inv(k, rows)
    ensures |DueIds(rows, epoch)| == if epoch == 0 then 0 else |WaitingRows(rows)|
  {
    hide Inv, WaitingRows;
    if rows == [] {
      NoneWait();
    } else {
      var n := |rows| - 1;
      BootEpochIsDefault(k, rows, n);
      PrefixKeeps(k, rows, n);
      DueCount(k, rows[..n], epoch);
      WaitingGrows(rows);
    }
  }

  lemma NoneWait()
    ensures |WaitingRows([])| == 0
  {
    assert WaitingRows([]) == {};
  }
}
