/** Exactly when closing, booting and preparing succeed, and the requests that intake lets in although they cannot. */
module BrokerGuards {
  import opened ByteStrings
  import opened Vocabulary
  import opened EventChain
  import opened Results
  import opened BrokerStore
  import opened BrokerRuns

  // ----- closing one request

  /** The signer is the one that the database pinned. */
  predicate PinnedKey(db: Db, signer: Signer) {
    db.identity.Some? && db.identity.value.kid == signer.kid && db.identity.value.publicKey == signer.publicKey
  }

  /** All that closing needs besides the request's own identifier. */
  predicate ReceiptReady(k: Crypto, db: Db, e: Entry, state: RequestState, signer: Signer, now: i64, receiptId: PublicId) {
    var facts := FactsForReceipt(e, db.bootEpoch, receiptId, state, now, []);
    && Decodes(receiptId) && Find(db.requests, ByReceiptId(receiptId)).None?
    && facts.createdUtc <= now && k.sealReceipt(signer, facts).Some?
  }

  /** An open request has had at most six events, and no receipt. */
  lemma OpenEntry(k: Crypto, rows: seq<Entry>, i: nat)
    requires Inv(k, rows) && i < |rows| && !IsTerminal(rows[i].row.state)
    ensures 0 < |rows[i].log| <= 6 && rows[i].receipt.None? && rows[i].row.receiptBytes.None?
    ensures IntakeName(rows[i].row.packageName)
  {
    hide Chained, Separate, Signs, Closed, IntakeName;
    assert EntryOk(k, rows[i]);
  }

  lemma CloseExactly(k: Crypto, db: Db, i: nat, expected: Option<RequestState>, next: RequestState, reason: Reason,
                     signer: Signer, now: i64, receiptId: PublicId)
    requires Inv(k, db.requests) && i < |db.requests| && !IsTerminal(db.requests[i].row.state)
    requires expected.Some? ==> db.requests[i].row.state == expected.value
    requires ReceiptReady(k, db, db.requests[i], next, signer, now, receiptId)
    ensures Close(k, db, db.requests[i].id, expected, next, reason, signer, now, receiptId, []).Ok? <==> Decodes(db.requests[i].id)
  {
    hide Inv, Find, NextEvent, Decodes, IsTerminal;
    var e := db.requests[i];
    IdIndex(k, db.requests, i);
    OpenEntry(k, db.requests, i);
    Appended(k, db, e.id, expected, next, reason);
    var moved := AppendTransition(k, db, e.id, expected, next, reason).value;
    FindSameReceipts(db.requests, moved.requests, receiptId);
  }

  /** With the other guards met, a request is closed by its caller exactly when its identifier decodes. */
  lemma ClosesExactlyWhenIdDecodes(k: Crypto, db: Db, i: nat, next: RequestState, signer: Signer, now: i64, receiptId: PublicId)
    requires Inv(k, db.requests) && i < |db.requests|
    requires IsTerminal(next) && Permits(db.requests[i].row.state, next) && PinnedKey(db, signer)
    requires ReceiptReady(k, db, db.requests[i], next, signer, now, receiptId)
    ensures TransitionTerminal(k, db, db.requests[i].id, db.requests[i].row.state, next, signer, now, receiptId).Ok?
       <==> Decodes(db.requests[i].id)
  {
    hide Inv, Find, Close, ReceiptReady, Decodes;
    CloseExactly(k, db, i, Some(db.requests[i].row.state), next, DefaultReason(next), signer, now, receiptId);
  }

  /** A request whose identifier does not decode holds its device's slot forever, whatever transactions run. */
  lemma UndecodableNeverCloses(k: Crypto, s: Store, ops: seq<Op>, i: nat)
    requires Inv(k, s.db.requests) && i < |s.db.requests| && !Decodes(s.db.requests[i].id)
    ensures i < |Run(k, s, ops).db.requests| && HoldsSlot(Run(k, s, ops).db.requests[i].row.state)
  {
    hide Run, Chained, StoreHistory, Separate, Signs, Decodes;
    RunKeeps(k, s, ops);
    var l := Run(k, s, ops).db.requests[i];
    assert Extends(s.db.requests[i], l) && EntryOk(k, l);
  }

  // ----- a new boot

  /** The receipts drawn for the requests a boot expires are new, and each request is ready for its own. */
  ghost predicate BootReady(k: Crypto, db: Db, epoch: i64, signer: Signer, now: i64, draw: nat -> PublicId) {
    var ids := DueIds(db.requests, epoch);
    && (forall m, n :: 0 <= m < n < |ids| ==> draw(m) != draw(n))
    && forall n, i :: 0 <= n < |ids| && 0 <= i < |db.requests| && db.requests[i].id == ids[n] ==>
         ReceiptReady(k, db, db.requests[i], RequestState.Expired, signer, now, draw(n))
  }

  /** Every receipt is either an old one or one of the first `n` drawn. */
  ghost predicate ReceiptsDrawn(rows: seq<Entry>, later: seq<Entry>, draw: nat -> PublicId, n: nat) {
    && |later| == |rows|
    && forall i :: 0 <= i < |rows| && later[i].receipt.Some? ==>
         later[i].receipt == rows[i].receipt || exists j :: 0 <= j < n && later[i].receipt.value.receiptId == draw(j)
  }

  lemma StillUnused(rows: seq<Entry>, later: seq<Entry>, draw: nat -> PublicId, n: nat)
    requires ReceiptsDrawn(rows, later, draw, n) && Find(rows, ByReceiptId(draw(n))).None?
    requires forall j :: 0 <= j < n ==> draw(j) != draw(n)
    ensures Find(later, ByReceiptId(draw(n))).None?
  {
    hide Find;
    forall i | 0 <= i < |later| ensures !ByReceiptId(draw(n))(later[i]) {
      assert !ByReceiptId(draw(n))(rows[i]);
    }
  }

  lemma DueIndex(rows: seq<Entry>, epoch: i64, id: PublicId) returns (i: nat)
    requires id in DueIds(rows, epoch)
    ensures i < |rows| && rows[i].id == id && DueAtBoot(rows[i], epoch)
  {
    DueIdsAre(rows, epoch, id);
    i :| 0 <= i < |rows| && rows[i].id == id && DueAtBoot(rows[i], epoch);
  }

  lemma {:induction false} ExpireFirstSucceeds(k: Crypto, db: Db, epoch: i64, n: nat, signer: Signer, now: i64, draw: nat -> PublicId)
    requires Inv(k, db.requests) && BootReady(k, db, epoch, signer, now, draw)
    requires n <= |DueIds(db.requests, epoch)| && forall id :: id in DueIds(db.requests, epoch) ==> Decodes(id)
    ensures var r := ExpireFirst(k, db, DueIds(db.requests, epoch), n, signer, now, draw);
      r.Ok? && ReceiptsDrawn(db.requests, r.value.requests, draw, n)
  {
    hide Inv, DueIds, Decodes, Close, Find, EntryStep, StoreEdge, StoreReason, RowsExtend;
    if n > 0 {
      var ids := DueIds(db.requests, epoch);
      ExpireFirstSucceeds(k, db, epoch, n - 1, signer, now, draw);
      ExpireFirstKeeps(k, db, epoch, n - 1, signer, now, draw);
      var earlier := ExpireFirst(k, db, ids, n - 1, signer, now, draw).value;
      var i := DueIndex(db.requests, epoch, ids[n - 1]);
      OneMoreCloses(k, db, epoch, n, i, earlier, signer, now, draw);
      CloseIsAStep(k, earlier, ids[n - 1], None, RequestState.Expired, ByExpiry, signer, now, draw(n - 1), []);
    }
  }

  lemma OneMoreCloses(k: Crypto, db: Db, epoch: i64, n: nat, i: nat, earlier: Db, signer: Signer, now: i64, draw: nat -> PublicId)
    requires Inv(k, db.requests) && BootReady(k, db, epoch, signer, now, draw)
    requires 0 < n <= |DueIds(db.requests, epoch)| && Decodes(DueIds(db.requests, epoch)[n - 1])
    requires Inv(k, earlier.requests) && earlier == db.(requests := earlier.requests)
    requires ExpiredOnly(db.requests, earlier.requests, DueIds(db.requests, epoch)[..n - 1])
    requires ReceiptsDrawn(db.requests, earlier.requests, draw, n - 1)
    requires i < |db.requests| && db.requests[i].id == DueIds(db.requests, epoch)[n - 1] && DueAtBoot(db.requests[i], epoch)
    ensures Close(k, earlier, DueIds(db.requests, epoch)[n - 1], None, RequestState.Expired, ByExpiry, signer, now, draw(n - 1), []).Ok?
  {
    hide Inv, DueIds, Decodes, Close, Find, FactsForReceipt, ReceiptsDrawn;
    var ids := DueIds(db.requests, epoch);
    DueIdsDiffer(k, db.requests, epoch);
    assert ids[n - 1] !in ids[..n - 1];
    assert earlier.requests[i] == db.requests[i];
    assert ReceiptReady(k, db, db.requests[i], RequestState.Expired, signer, now, draw(n - 1));
    StillUnused(db.requests, earlier.requests, draw, n - 1);
    CloseExactly(k, earlier, i, None, RequestState.Expired, ByExpiry, signer, now, draw(n - 1));
  }

  predicate Waits(e: Entry) {
    e.row.state.Planning? || e.row.state.Pending? || e.row.state.Approved?
  }

  /** With the other guards met, a new boot starts exactly when the identifier of every request that waits decodes; at epoch zero, always. */
  lemma BootsExactlyWhenIdsDecode(k: Crypto, db: Db, epoch: u64, signer: Signer, now: i64, draw: nat -> PublicId)
    requires Inv(k, db.requests) && epoch <= I64_MAX && epoch != db.bootEpoch && PinnedKey(db, signer)
    requires BootReady(k, db, epoch, signer, now, draw)
    ensures StartBoot(k, db, epoch, signer, now, draw).Ok?
       <==> epoch == 0 || forall i :: 0 <= i < |db.requests| && Waits(db.requests[i]) ==> Decodes(db.requests[i].id)
  {
    hide Inv, DueIds, Decodes, ExpireFirst, BootReady, ExpiredOnly, RowsExtend, ReceiptsDrawn;
    var ids := DueIds(db.requests, epoch);
    forall i | 0 <= i < |db.requests| ensures DueAtBoot(db.requests[i], epoch) <==> epoch != 0 && Waits(db.requests[i]) {
      BootEpochIsDefault(k, db.requests, i);
    }
    if StartBoot(k, db, epoch, signer, now, draw).Ok? {
      ExpireFirstKeeps(k, db, epoch, |ids|, signer, now, draw);
      forall i | 0 <= i < |db.requests| && epoch != 0 && Waits(db.requests[i]) ensures Decodes(db.requests[i].id) {
        DueIdsAre(db.requests, epoch, db.requests[i].id);
      }
    }
    if epoch == 0 || forall i :: 0 <= i < |db.requests| && Waits(db.requests[i]) ==> Decodes(db.requests[i].id) {
      forall id | id in ids ensures Decodes(id) {
        var i := DueIndex(db.requests, epoch, id);
      }
      ExpireFirstSucceeds(k, db, epoch, |ids|, signer, now, draw);
    }
  }

  /** While a request whose identifier does not decode waits, no new boot succeeds, whatever else is in order. */
  lemma UndecodableBlocksBoot(k: Crypto, db: Db, epoch: u64, signer: Signer, now: i64, draw: nat -> PublicId, i: nat)
    requires Inv(k, db.requests) && epoch != 0 && epoch != db.bootEpoch && i < |db.requests|
    requires Waits(db.requests[i]) && !Decodes(db.requests[i].id)
    ensures StartBoot(k, db, epoch, signer, now, draw).Err?
  {
    hide Inv, StartBoot, Decodes;
    if StartBoot(k, db, epoch, signer, now, draw).Ok? {
      RebootExpires(k, db, epoch, signer, now, draw, i);
    }
  }

  // ----- preparing

  /** With the other guards met, a request is frozen and signed exactly when its name is one the signed form accepts. */
  lemma PreparesExactlyWhenNameFreezes(k: Crypto, s: Store, i: nat, plan: FrozenPlan, context: PendingContext, signer: Signer)
    requires Inv(k, s.db.requests) && i < |s.db.requests|
    requires s.db.requests[i].row.state.Planning? && s.db.requests[i].row.packageName == plan.packageName
    requires context.createdUtc <= context.expiresUtc && context.deadline <= I64_MAX
    requires PinnedKey(s.db, signer) && Decodes(s.db.requests[i].id)
    requires k.sealRequest(signer, RequestFactsOf(s, s.db.requests[i], plan, context)).Some?
    ensures PrepareForDecision(k, s, s.db.requests[i].id, plan, context, signer).Ok?
       <==> 'a' as int <= plan.packageName[0] <= 'z' as int
    ensures SchemaName(plan.packageName) <==> 'a' as int <= plan.packageName[0] <= 'z' as int
  {
    hide Inv, Find, NextEvent, Decodes, RequestFactsOf;
    IdIndex(k, s.db.requests, i);
    OpenEntry(k, s.db.requests, i);
  }

  // ----- what intake lets in

  const BAD_ID: PublicId := [
    'B' as int, 'B' as int, 'B' as int, 'B' as int, 'B' as int, 'B' as int, 'B' as int, 'B' as int,
    'B' as int, 'B' as int, 'B' as int, 'B' as int, 'B' as int, 'B' as int, 'B' as int, 'B' as int,
    'B' as int, 'B' as int, 'B' as int, 'B' as int, 'B' as int, 'B' as int]

  /** "7zip", a package of the archive. */
  const DIGIT_NAME: PackageName := ['7' as int, 'z' as int, 'i' as int, 'p' as int]

  /** Intake creates a request exactly when the policy allows it and no row stands in its way; no more is asked of id and name. */
  lemma CreatesExactly(k: Crypto, s: Store, r: PackageInstall, allowed: bool)
    ensures var o := Submit(k, s, r, allowed);
      (o.Ok? && o.value.1.Created?)
      <==> (allowed && r.generation <= I64_MAX && forall e :: e in s.db.requests ==>
              && e.id != r.requestId && !(e.row.uid == r.uid && e.row.operationKey == r.operationKey)
              && !(e.row.device == s.device && !IsTerminal(e.row.state)))
  {
    hide Find, FreshEntry;
    assert forall e :: e in s.db.requests ==> (e.id == r.requestId <==> ById(r.requestId)(e));
  }

  /** Both exceptions are real: an identifier that does not decode, and a name that does not freeze, enter a new store. */
  lemma IntakeTakesBoth(k: Crypto, s: Store, uid: u32, key: OperationKey, id: PublicId, name: PackageName)
    requires s.db.requests == []
    ensures !Decodes(BAD_ID) && Submit(k, s, PackageInstall(BAD_ID, uid, key, name, 0), true).Ok?
    ensures !SchemaName(DIGIT_NAME) && Submit(k, s, PackageInstall(id, uid, key, DIGIT_NAME, 0), true).Ok?
  {
    hide FreshEntry;
  }

  /** After such a request, its device takes no other: every submission is an exact retry or an error, in any run. */
  lemma UndecodableBlocksIntake(k: Crypto, s: Store, ops: seq<Op>, i: nat, r: PackageInstall, allowed: bool)
    requires Inv(k, s.db.requests) && i < |s.db.requests| && !Decodes(s.db.requests[i].id)
    requires Run(k, s, ops).device == s.db.requests[i].row.device
    ensures var o := Submit(k, Run(k, s, ops), r, allowed); o.Ok? ==> o.value.1.Existing?
  {
    hide Run, Find, Inv, Decodes, Chained, StoreHistory, Separate, Signs, FreshEntry;
    UndecodableNeverCloses(k, s, ops, i);
    RunKeeps(k, s, ops);
    var t := Run(k, s, ops);
    assert Extends(s.db.requests[i], t.db.requests[i]);
    assert ByActiveDevice(t.device)(t.db.requests[i]);
  }
}
