/** The request states, the hash-chained event log and the receipt digest that closes it. */
module EventChain {
  import opened ByteStrings
  import opened Vocabulary
  import opened Results

  predicate Base64Url(b: byte) {
    'A' as int <= b <= 'Z' as int || 'a' as int <= b <= 'z' as int || '0' as int <= b <= '9' as int || b in {'-' as int, '_' as int}
  }

  /** The text of an identifier: 22 base64url characters, the length that 16 bytes take. */
  type PublicId = b: Bytes | |b| == 22 && (forall i :: 0 <= i < 22 ==> Base64Url(b[i])) witness seq(22, _ => 'A' as int)

  /** Any function from byte strings to digests; nothing about collisions is assumed. */
  type Hash = Bytes -> Digest

  const ZERO_DIGEST: Digest := Zeros(32)

  datatype RequestState =
    | Planning | Pending | Approved | Executing
    | NoChange | Invalid | Denied | Expired | Cancelled | Stale
    | Succeeded | Failed | RecoveryRequired

  datatype Reason =
    | Created | PlannerPending | PlannerNoChange | PlannerInvalid
    | ByApproval | ByDenial | ByExpiry | ByCancellation | GenerationStale
    | ExecutionStarted | ExecutionSucceeded | ExecutionFailed | NeedsRecovery
    | ReconciledSucceeded | ReconciledFailed

  predicate IsTerminal(s: RequestState) {
    s.NoChange? || s.Invalid? || s.Denied? || s.Expired? || s.Cancelled? || s.Stale? || s.Succeeded? || s.Failed?
  }

  /** The permitted lifecycle edges. */
  predicate Permits(s: RequestState, next: RequestState) {
    match s
    case Planning => next.Pending? || next.NoChange? || next.Invalid?
    case Pending => next.Approved? || next.Denied? || next.Expired? || next.Cancelled? || next.Stale?
    case Approved => next.Executing? || next.Cancelled? || next.Stale? || next.Expired?
    case Executing => next.Succeeded? || next.Failed? || next.RecoveryRequired?
    case RecoveryRequired => next.Succeeded? || next.Failed?
    case _ => false
  }

  // ----- text and code forms

  function AsDb(s: RequestState): string {
    match s
    case Planning => "planning"
    case Pending => "pending"
    case Approved => "approved"
    case Executing => "executing"
    case NoChange => "no_change"
    case Invalid => "invalid"
    case Denied => "denied"
    case Expired => "expired"
    case Cancelled => "cancelled"
    case Stale => "stale"
    case Succeeded => "succeeded"
    case Failed => "failed"
    case RecoveryRequired => "recovery_required"
  }

  function Code(r: Reason): (c: u64) {
    match r
    case Created => 1
    case PlannerPending => 2
    case PlannerNoChange => 3
    case PlannerInvalid => 4
    case ByApproval => 5
    case ByDenial => 6
    case ByExpiry => 7
    case ByCancellation => 8
    case GenerationStale => 9
    case ExecutionStarted => 10
    case ExecutionSucceeded => 11
    case ExecutionFailed => 12
    case NeedsRecovery => 13
    case ReconciledSucceeded => 14
    case ReconciledFailed => 15
  }

  function FromCode(code: i64): (r: Option<Reason>) {
    match code
    case 1 => Some(Created)
    case 2 => Some(PlannerPending)
    case 3 => Some(PlannerNoChange)
    case 4 => Some(PlannerInvalid)
    case 5 => Some(ByApproval)
    case 6 => Some(ByDenial)
    case 7 => Some(ByExpiry)
    case 8 => Some(ByCancellation)
    case 9 => Some(GenerationStale)
    case 10 => Some(ExecutionStarted)
    case 11 => Some(ExecutionSucceeded)
    case 12 => Some(ExecutionFailed)
    case 13 => Some(NeedsRecovery)
    case 14 => Some(ReconciledSucceeded)
    case 15 => Some(ReconciledFailed)
    case _ => None
  }

  /** The reason a store transition records when the caller gives none. */
  function DefaultReason(s: RequestState): (r: Reason) {
    match s
    case Planning => Created
    case Pending => PlannerPending
    case NoChange => PlannerNoChange
    case Invalid => PlannerInvalid
    case Approved => ByApproval
    case Denied => ByDenial
    case Expired => ByExpiry
    case Cancelled => ByCancellation
    case Stale => GenerationStale
    case Executing => ExecutionStarted
    case Succeeded => ExecutionSucceeded
    case Failed => ExecutionFailed
    case RecoveryRequired => NeedsRecovery
  }

  lemma StateTextInjective(s: RequestState, t: RequestState)
    requires Ascii(AsDb(s)) == Ascii(AsDb(t))
    ensures s == t
  {
    hide Ascii;
    var a, b := AsDb(s), AsDb(t);
    assert |a| == |b|;
    assert a[0] as int % 0x80 == b[0] as int % 0x80 && a[1] as int % 0x80 == b[1] as int % 0x80;
    assert a[4] as int % 0x80 == b[4] as int % 0x80;
  }

  lemma CodesRoundTrip(r: Reason, c: i64)
    ensures FromCode(Code(r)) == Some(r)
    ensures FromCode(c).Some? ==> Code(FromCode(c).value) == c
  {
  }

  // ----- the event log

  datatype Event = Event(sequence: u64, previous: Option<Digest>, state: RequestState, reason: Reason, digest: Digest)

  function LinkBytes(previous: Option<Digest>): (b: Digest) {
    if previous.Some? then previous.value else ZERO_DIGEST
  }

  function EventPreimage(id: PublicId, sequence: u64, previous: Option<Digest>, state: RequestState, reason: Reason): (b: Bytes) {
    Ascii("rootpermit/v1/local-lifecycle-event\0") + id + BigEndian(sequence, 8) + LinkBytes(previous)
    + Ascii(AsDb(state)) + BigEndian(Code(reason), 8)
  }

  function PreimageOf(id: PublicId, e: Event): (b: Bytes) {
    EventPreimage(id, e.sequence, e.previous, e.state, e.reason)
  }

  /** The `i`th event of a log: numbered `i + 1`, linked to the event before it, and hashed. */
  predicate ChainedAt(hash: Hash, id: PublicId, log: seq<Event>, i: nat)
    requires i < |log|
  {
    && log[i].sequence == i + 1
    && log[i].previous == (if i == 0 then None else Some(log[i - 1].digest))
    && log[i].digest == hash(PreimageOf(id, log[i]))
  }

  ghost predicate Chained(hash: Hash, id: PublicId, log: seq<Event>) {
    |log| < U64_LIMIT && forall i :: 0 <= i < |log| ==> ChainedAt(hash, id, log, i)
  }

  function Last(log: seq<Event>): (d: Option<Digest>) {
    if log == [] then None else Some(log[|log| - 1].digest)
  }

  function Hashed(hash: Hash, id: PublicId, sequence: u64, previous: Option<Digest>, state: RequestState, reason: Reason): (e: Event) {
    Event(sequence, previous, state, reason, hash(EventPreimage(id, sequence, previous, state, reason)))
  }

  /** The event that continues `log`. */
  function NextEvent(hash: Hash, id: PublicId, log: seq<Event>, state: RequestState, reason: Reason): (e: Event)
    ensures e.state == state && e.reason == reason
  {
    Hashed(hash, id, if |log| + 1 < U64_LIMIT then |log| + 1 else U64_LIMIT - 1, Last(log), state, reason)
  }

  lemma ChainGrows(hash: Hash, id: PublicId, log: seq<Event>, state: RequestState, reason: Reason)
    requires Chained(hash, id, log) && |log| + 1 < U64_LIMIT
    ensures Chained(hash, id, log + [NextEvent(hash, id, log, state, reason)])
  {
    hide EventPreimage;
    var longer := log + [NextEvent(hash, id, log, state, reason)];
    forall i | 0 <= i < |longer| ensures ChainedAt(hash, id, longer, i) {
      if i < |log| {
        assert ChainedAt(hash, id, log, i);
      }
    }
  }

  // ----- what an event digest commits to

  lemma EventPreimageInjective(id: PublicId, s: u64, p: Option<Digest>, st: RequestState, r: Reason,
                               id': PublicId, s': u64, p': Option<Digest>, st': RequestState, r': Reason)
    requires EventPreimage(id, s, p, st, r) == EventPreimage(id', s', p', st', r')
    ensures id == id' && s == s' && LinkBytes(p) == LinkBytes(p') && st == st' && r == r'
  {
    hide BigEndian, Ascii, LinkBytes, Code;
    var tag := Ascii("rootpermit/v1/local-lifecycle-event\0");
    SplitFromEnd(tag + id + BigEndian(s, 8) + LinkBytes(p) + Ascii(AsDb(st)), BigEndian(Code(r), 8),
                 tag + id' + BigEndian(s', 8) + LinkBytes(p') + Ascii(AsDb(st')), BigEndian(Code(r'), 8));
    SplitAt(tag + id + BigEndian(s, 8) + LinkBytes(p), Ascii(AsDb(st)), tag + id' + BigEndian(s', 8) + LinkBytes(p'), Ascii(AsDb(st')));
    SplitFromEnd(tag + id + BigEndian(s, 8), LinkBytes(p), tag + id' + BigEndian(s', 8), LinkBytes(p'));
    SplitFromEnd(tag + id, BigEndian(s, 8), tag + id', BigEndian(s', 8));
    SplitAt(tag, id, tag, id');
    StateTextInjective(st, st');
    NumbersAndCodes(s, s', r, r');
  }

  lemma NumbersAndCodes(s: u64, s': u64, r: Reason, r': Reason)
    requires BigEndian(s, 8) == BigEndian(s', 8) && BigEndian(Code(r), 8) == BigEndian(Code(r'), 8)
    ensures s == s' && r == r'
  {
    hide BigEndian, Pow256;
    Pow256Values();
    BigEndianInjective(s, s', 8);
    BigEndianInjective(Code(r), Code(r'), 8);
  }

  /** Two different hash inputs with one digest, each the preimage of an event in the two logs. */
  ghost predicate LogsCollide(id: PublicId, a: seq<Event>, i: nat, id': PublicId, b: seq<Event>, j: nat) {
    && i < |a| && j < |b|
    && PreimageOf(id, a[i]) != PreimageOf(id', b[j])
    && a[i].digest == b[j].digest
  }

  /** Equal digests at two places: the logs agree up to there, or they exhibit a collision. */
  lemma {:induction false} DigestCommits(hash: Hash, id: PublicId, a: seq<Event>, i: nat, id': PublicId, b: seq<Event>, j: nat)
    requires Chained(hash, id, a) && Chained(hash, id', b) && i < |a| && j < |b|
    requires a[i].digest == b[j].digest
    ensures (id == id' && i == j && a[..i + 1] == b[..j + 1])
         || exists k, l :: LogsCollide(id, a, k, id', b, l)
  {
    hide EventPreimage;
    assert ChainedAt(hash, id, a, i) && ChainedAt(hash, id', b, j);
    if PreimageOf(id, a[i]) != PreimageOf(id', b[j]) {
      assert LogsCollide(id, a, i, id', b, j);
    } else {
      EventPreimageInjective(id, a[i].sequence, a[i].previous, a[i].state, a[i].reason,
                             id', b[j].sequence, b[j].previous, b[j].state, b[j].reason);
      assert a[..i + 1] == a[..i] + [a[i]] && b[..j + 1] == b[..j] + [b[j]];
      if i > 0 {
        DigestCommits(hash, id, a, i - 1, id', b, j - 1);
      }
    }
  }

  /** History commitment: the last digest of a log fixes every state, reason and number in it. */
  lemma HistoryCommitment(hash: Hash, id: PublicId, a: seq<Event>, id': PublicId, b: seq<Event>)
    requires Chained(hash, id, a) && Chained(hash, id', b) && a != [] && b != []
    requires a[|a| - 1].digest == b[|b| - 1].digest
    ensures (id == id' && a == b) || exists k, l :: LogsCollide(id, a, k, id', b, l)
  {
    DigestCommits(hash, id, a, |a| - 1, id', b, |b| - 1);
    assert a[..|a|] == a && b[..|b|] == b;
  }

  // ----- receipts

  datatype Receipt = Receipt(
    receiptId: PublicId,
    requestId: PublicId,
    requestDigest: Digest,
    planDigest: Option<Digest>,
    terminalState: RequestState,
    finalEventDigest: Digest,
    receiptDigest: Digest)

  function ReceiptPreimage(r: Receipt): (b: Bytes) {
    Ascii("rootpermit/v1/local-receipt-draft\0") + r.receiptId + r.requestId + r.requestDigest
    + LinkBytes(r.planDigest) + Ascii(AsDb(r.terminalState)) + r.finalEventDigest
  }

  /** A receipt over a finished log, as the record prepares it: an all-zero plan digest counts as none. */
  ghost predicate ReceiptOver(hash: Hash, r: Receipt, log: seq<Event>) {
    && Chained(hash, r.requestId, log) && log != []
    && r.planDigest != Some(ZERO_DIGEST)
    && r.terminalState == log[|log| - 1].state
    && r.finalEventDigest == log[|log| - 1].digest
    && r.receiptDigest == hash(ReceiptPreimage(r))
  }

  lemma ReceiptPreimageInjective(r: Receipt, t: Receipt)
    requires r.planDigest != Some(ZERO_DIGEST) && t.planDigest != Some(ZERO_DIGEST)
    requires ReceiptPreimage(r) == ReceiptPreimage(t)
    ensures r.(receiptDigest := t.receiptDigest) == t
  {
    hide Ascii;
    var tag := Ascii("rootpermit/v1/local-receipt-draft\0");
    SplitFromEnd(tag + r.receiptId + r.requestId + r.requestDigest + LinkBytes(r.planDigest) + Ascii(AsDb(r.terminalState)), r.finalEventDigest,
                 tag + t.receiptId + t.requestId + t.requestDigest + LinkBytes(t.planDigest) + Ascii(AsDb(t.terminalState)), t.finalEventDigest);
    SplitAt(tag + r.receiptId + r.requestId + r.requestDigest + LinkBytes(r.planDigest), Ascii(AsDb(r.terminalState)),
            tag + t.receiptId + t.requestId + t.requestDigest + LinkBytes(t.planDigest), Ascii(AsDb(t.terminalState)));
    SplitFromEnd(tag + r.receiptId + r.requestId + r.requestDigest, LinkBytes(r.planDigest),
                 tag + t.receiptId + t.requestId + t.requestDigest, LinkBytes(t.planDigest));
    SplitFromEnd(tag + r.receiptId + r.requestId, r.requestDigest, tag + t.receiptId + t.requestId, t.requestDigest);
    SplitFromEnd(tag + r.receiptId, r.requestId, tag + t.receiptId, t.requestId);
    SplitAt(tag, r.receiptId, tag, t.receiptId);
    StateTextInjective(r.terminalState, t.terminalState);
  }

  /** Two different receipt contents with one digest. */
  ghost predicate ReceiptsCollide(r: Receipt, t: Receipt) {
    ReceiptPreimage(r) != ReceiptPreimage(t) && r.receiptDigest == t.receiptDigest
  }

  /** Receipts with one digest are the same receipt over the same history, or a collision can be shown. */
  lemma ReceiptCommitment(hash: Hash, r: Receipt, a: seq<Event>, t: Receipt, b: seq<Event>)
    requires ReceiptOver(hash, r, a) && ReceiptOver(hash, t, b) && r.receiptDigest == t.receiptDigest
    ensures (r == t && a == b)
         || ReceiptsCollide(r, t)
         || exists k, l :: LogsCollide(r.requestId, a, k, t.requestId, b, l)
  {
    hide ReceiptPreimage;
    if ReceiptPreimage(r) == ReceiptPreimage(t) {
      ReceiptPreimageInjective(r, t);
      HistoryCommitment(hash, r.requestId, a, t.requestId, b);
    }
  }

  /** Without the filter on zero digests, a receipt with no plan would hash like one with an all-zero plan. */
  lemma ZeroPlanIsAmbiguous(r: Receipt)
    ensures ReceiptPreimage(r.(planDigest := None)) == ReceiptPreimage(r.(planDigest := Some(ZERO_DIGEST)))
  {
  }
}
