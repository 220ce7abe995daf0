/** The broker's durable store: each transaction as a function of the database, and the store object that runs them. */
module BrokerStore {
  import opened ByteStrings
  import opened Vocabulary
  import opened EventChain
  import opened Results

  type DeviceId = Id

  datatype BrokerError =
    | PolicyDenied
    | IdempotencyConflict
    | Busy(requestId: PublicId)
    | LifecycleRaceLost(actual: RequestState)
    | InvalidTransition(from: RequestState, to: RequestState)
    | NotFound
    | CorruptState
    | NumericOutOfRange
    | UnsafeKey
    | ReceiptFailed
    | WebAuthnFailed
    | Sqlite

  datatype Signer = Signer(kid: Bytes, publicKey: Bytes)

  datatype Identity = Identity(kid: Bytes, publicKey: Bytes, brokerEpoch: i64, device: Option<DeviceId>)

  datatype Credential = Credential(generation: i64, publicKey: Bytes, signCount: u32, quarantined: bool)

  datatype CredentialPin = CredentialPin(credentialId: Bytes, publicKey: Bytes, algorithm: i64)

  datatype PendingContext = PendingContext(
    createdUtc: i64,
    expiresUtc: i64,
    bootId: Bytes,
    deadline: u64,
    nonce: Digest,
    policyId: Bytes,
    policyDigest: Digest)

  /** The columns that planning fills in, all at once. */
  datatype Binding = Binding(
    planDigest: Digest,
    requestDigest: Digest,
    requestCose: Bytes,
    frozenPlan: Bytes,
    context: PendingContext)

  /** A row of `requests`; `bootEpoch` is a column that nothing writes after its default. */
  datatype Row = Row(
    device: DeviceId,
    uid: u32,
    operationKey: Bytes,
    inputDigest: Digest,
    packageName: Bytes,
    generation: i64,
    state: RequestState,
    bootEpoch: i64,
    binding: Option<Binding>,
    receiptBytes: Option<Bytes>,
    recoveryEvidence: Option<Bytes>)

  datatype ReceiptRow = ReceiptRow(
    receiptId: PublicId,
    uid: u32,
    terminalState: RequestState,
    cose: Bytes,
    createdUtc: i64,
    completedUtc: i64)

  /** A request with the rows of `request_events` and `receipts` that refer to it. */
  datatype Entry = Entry(id: PublicId, row: Row, log: seq<Event>, receipt: Option<ReceiptRow>)

  /** Requests stand in the order they were inserted, which is the order a scan returns them in. */
  datatype Db = Db(
    requests: seq<Entry>,
    bootEpoch: i64,
    generation: i64,
    identity: Option<Identity>,
    credentials: map<Bytes, Credential>)

  /** The database and the device id that the open handle remembers. */
  datatype Store = Store(db: Db, device: DeviceId)

  // ----- what the store computes with but does not define

  datatype RequestFacts = RequestFacts(
    requestId: PublicId,
    device: DeviceId,
    brokerEpoch: i64,
    generation: i64,
    uid: u32,
    packageName: Bytes,
    planDigest: Digest,
    manifestDigest: Digest,
    actionCount: u32,
    context: PendingContext)

  datatype ReceiptFacts = ReceiptFacts(
    receiptId: PublicId,
    requestId: PublicId,
    requestDigest: Digest,
    planDigest: Digest,
    terminalState: RequestState,
    evidence: seq<Bytes>,
    recoveryEvidence: Option<Bytes>,
    createdUtc: i64,
    completedUtc: i64,
    bootEpoch: i64)

  datatype SealedRequest = SealedRequest(requestDigest: Digest, requestCose: Bytes, frozenPlan: Bytes)

  /** Hashing, encoding and signing, as arbitrary functions; encoding and signing may fail. */
  datatype Crypto = Crypto(
    hash: Hash,
    inputDigest: Bytes -> Digest,
    sealRequest: (Signer, RequestFacts) -> Option<SealedRequest>,
    sealReceipt: (Signer, ReceiptFacts) -> Option<Bytes>)

  // ----- identifiers and names

  /** An identifier decodes to 16 bytes when its last character, of which two bits count, leaves the other four at zero. */
  predicate Decodes(id: PublicId) {
    (id[21] as char) in {'A', 'Q', 'g', 'w'}
  }

  /** The names that intake lets through. */
  predicate IntakeName(s: Bytes) {
    && 2 <= |s| <= 64
    && ('a' as int <= s[0] <= 'z' as int || '0' as int <= s[0] <= '9' as int)
    && forall i :: 1 <= i < |s| ==> PackageByte(s[i])
  }

  type PackageName = b: Bytes | IntakeName(b) witness ['a' as int, 'a' as int]

  type OperationKey = b: Bytes | 16 <= |b| <= 128 && (forall i :: 0 <= i < |b| ==> Base64Url(b[i])) witness seq(16, _ => 'A' as int)

  predicate HoldsSlot(s: RequestState) {
    s.Planning? || s.Pending? || s.Approved? || s.Executing? || s.RecoveryRequired?
  }

  predicate ExpiresAtBoot(s: RequestState) {
    s.Planning? || s.Pending? || s.Approved?
  }

  // ----- statements shared by the transactions

  type Tx<T> = Result<(Db, T), BrokerError>

  function EnsureIdentity(db: Db, signer: Signer): (r: Result<(), BrokerError>) {
    if db.identity.Some? && db.identity.value.kid == signer.kid && db.identity.value.publicKey == signer.publicKey then Ok(())
    else Err(UnsafeKey)
  }

  function ById(id: PublicId): Entry -> bool {
    (e: Entry) => e.id == id
  }

  function ByOperation(uid: u32, operationKey: Bytes): Entry -> bool {
    (e: Entry) => e.row.uid == uid && e.row.operationKey == operationKey
  }

  function ByActiveDevice(device: DeviceId): Entry -> bool {
    (e: Entry) => e.row.device == device && HoldsSlot(e.row.state)
  }

  function ByReceiptId(receiptId: PublicId): Entry -> bool {
    (e: Entry) => e.receipt.Some? && e.receipt.value.receiptId == receiptId
  }

  /** The first row a query finds. */
  function Find(rows: seq<Entry>, test: Entry -> bool): (found: Option<nat>)
    ensures found.Some? ==> found.value < |rows| && test(rows[found.value])
    ensures found.None? ==> forall i :: 0 <= i < |rows| ==> !test(rows[i])
  {
    if rows == [] then None
    else if test(rows[0]) then Some(0)
    else
      var rest := Find(rows[1..], test);
      if rest.Some? then Some(rest.value + 1) else None
  }

  function SetEntry(db: Db, i: nat, e: Entry): (d: Db)
    requires i < |db.requests|
  {
    db.(requests := db.requests[i := e])
  }

  /** Compare-and-set of the state, with the event that records it; `None` expects nothing. */
  function AppendTransition(k: Crypto, db: Db, id: PublicId, expected: Option<RequestState>, next: RequestState, reason: Reason)
    : (r: Result<Db, BrokerError>)
    ensures r.Ok? ==> r.value.identity == db.identity && r.value.credentials == db.credentials
  {
    match Find(db.requests, ById(id))
    case None => Err(NotFound)
    case Some(i) =>
      var e := db.requests[i];
      if expected.Some? && e.row.state != expected.value then Err(LifecycleRaceLost(e.row.state))
      else if e.log == [] then Err(Sqlite)
      else if |e.log| + 1 > I64_MAX then Err(NumericOutOfRange)
      else Ok(SetEntry(db, i, Advanced(k, e, next, reason)))
  }

  function Advanced(k: Crypto, e: Entry, next: RequestState, reason: Reason): (a: Entry) {
    e.(row := e.row.(state := next), log := e.log + [NextEvent(k.hash, e.id, e.log, next, reason)])
  }

  function FactsForReceipt(e: Entry, bootEpoch: i64, receiptId: PublicId, state: RequestState, now: i64, evidence: seq<Bytes>): (f: ReceiptFacts) {
    var row := e.row;
    ReceiptFacts(receiptId, e.id,
                 if row.binding.Some? then row.binding.value.requestDigest else row.inputDigest,
                 if row.binding.Some? then row.binding.value.planDigest else ZERO_DIGEST,
                 state, evidence, row.recoveryEvidence,
                 if row.binding.Some? then row.binding.value.context.createdUtc else 0,
                 now, bootEpoch)
  }

  function WithReceipt(e: Entry, facts: ReceiptFacts, cose: Bytes): (w: Entry) {
    e.(row := e.row.(receiptBytes := Some(cose)),
       receipt := Some(ReceiptRow(facts.receiptId, e.row.uid, facts.terminalState, cose, facts.createdUtc, facts.completedUtc)))
  }

  /** Signs and stores the only receipt a request can have. */
  function CreateReceipt(k: Crypto, db: Db, id: PublicId, state: RequestState, signer: Signer, now: i64,
                         receiptId: PublicId, evidence: seq<Bytes>): (r: Tx<Bytes>)
    ensures r.Ok? ==> r.value.0.identity == db.identity && r.value.0.credentials == db.credentials
  {
    match Find(db.requests, ById(id))
    case None => Err(Sqlite)
    case Some(i) =>
      var e := db.requests[i];
      if !Decodes(receiptId) || !Decodes(id) then Err(CorruptState)
      else
        var facts := FactsForReceipt(e, db.bootEpoch, receiptId, state, now, evidence);
        if facts.completedUtc < facts.createdUtc then Err(ReceiptFailed)
        else match k.sealReceipt(signer, facts)
          case None => Err(ReceiptFailed)
          case Some(cose) =>
            if Find(db.requests, ByReceiptId(receiptId)).Some? || e.receipt.Some? || e.row.receiptBytes.Some? then Err(Sqlite)
            else Ok((SetEntry(db, i, WithReceipt(e, facts, cose)), cose))
  }

  /** A transition into a terminal state together with its receipt. */
  function Close(k: Crypto, db: Db, id: PublicId, expected: Option<RequestState>, next: RequestState, reason: Reason,
                 signer: Signer, now: i64, receiptId: PublicId, evidence: seq<Bytes>): (r: Tx<Bytes>)
  {
    var moved :- AppendTransition(k, db, id, expected, next, reason);
    CreateReceipt(k, moved, id, next, signer, now, receiptId, evidence)
  }

  // ----- the transactions

  datatype Summary = Summary(requestId: PublicId, uid: u32, state: RequestState, generation: i64)

  datatype Reply =
    | Done
    | ExpiredCount(count: nat)
    | Created(summary: Summary)
    | Existing(summary: Summary)
    | Moved(state: RequestState)
    | SealedBytes(cose: Bytes)
    | DecidedAs(state: RequestState, receipt: Option<Bytes>)

  datatype PackageInstall = PackageInstall(requestId: PublicId, uid: u32, operationKey: OperationKey, packageName: PackageName, generation: u64)

  function SummaryOf(e: Entry): (s: Summary) {
    Summary(e.id, e.row.uid, e.row.state, e.row.generation)
  }

  function FreshEntry(k: Crypto, device: DeviceId, r: PackageInstall): (e: Entry)
    requires r.generation <= I64_MAX
  {
    var row := Row(device, r.uid, r.operationKey, k.inputDigest(r.packageName), r.packageName, r.generation,
                   Planning, 0, None, None, None);
    Entry(r.requestId, row, [NextEvent(k.hash, r.requestId, [], Planning, Reason.Created)], None)
  }

  function Submit(k: Crypto, s: Store, r: PackageInstall, allowed: bool): (o: Tx<Reply>) {
    if !allowed then Err(PolicyDenied)
    else match Find(s.db.requests, ByOperation(r.uid, r.operationKey))
      case Some(i) =>
        var e := s.db.requests[i];
        if e.row.inputDigest == k.inputDigest(r.packageName) then Ok((s.db, Existing(SummaryOf(e))))
        else Err(IdempotencyConflict)
      case None =>
        match Find(s.db.requests, ByActiveDevice(s.device))
        case Some(i) => Err(Busy(s.db.requests[i].id))
        case None =>
          if r.generation > I64_MAX then Err(NumericOutOfRange)
          else if Find(s.db.requests, ById(r.requestId)).Some? then Err(Sqlite)
          else
            var e := FreshEntry(k, s.device, r);
            Ok((s.db.(requests := s.db.requests + [e]), Reply.Created(SummaryOf(e))))
  }

  function TransitionNonterminal(k: Crypto, db: Db, id: PublicId, expected: RequestState, next: RequestState): (o: Tx<Reply>) {
    if IsTerminal(next) || !Permits(expected, next) then Err(InvalidTransition(expected, next))
    else
      var moved :- AppendTransition(k, db, id, Some(expected), next, DefaultReason(next));
      Ok((moved, Moved(next)))
  }

  function TransitionTerminal(k: Crypto, db: Db, id: PublicId, expected: RequestState, next: RequestState,
                              signer: Signer, now: i64, receiptId: PublicId): (o: Tx<Reply>)
  {
    if !IsTerminal(next) || !Permits(expected, next) then Err(InvalidTransition(expected, next))
    else
      var _ :- EnsureIdentity(db, signer);
      var closed :- Close(k, db, id, Some(expected), next, DefaultReason(next), signer, now, receiptId, []);
      Ok((closed.0, SealedBytes(closed.1)))
  }

  const MAX_EVIDENCE: nat := 65_536

  function ReconcileRecovery(k: Crypto, db: Db, id: PublicId, succeeded: bool, evidence: Bytes,
                             signer: Signer, now: i64, receiptId: PublicId): (o: Tx<Reply>)
  {
    if evidence == [] || |evidence| > MAX_EVIDENCE then Err(CorruptState)
    else
      var _ :- EnsureIdentity(db, signer);
      var next := if succeeded then Succeeded else Failed;
      var reason := if succeeded then ReconciledSucceeded else ReconciledFailed;
      var moved :- AppendTransition(k, db, id, Some(RecoveryRequired), next, reason);
      var closed :- CreateReceipt(k, NoteEvidence(moved, id, evidence), id, next, signer, now, receiptId, []);
      Ok((closed.0, SealedBytes(closed.1)))
  }

  function NoteEvidence(db: Db, id: PublicId, evidence: Bytes): (d: Db)
    ensures d.identity == db.identity && d.credentials == db.credentials
  {
    match Find(db.requests, ById(id))
    case None => db
    case Some(i) => SetEntry(db, i, db.requests[i].(row := db.requests[i].row.(recoveryEvidence := Some(evidence))))
  }

  function RequestFactsOf(s: Store, e: Entry, plan: FrozenPlan, context: PendingContext): (f: RequestFacts)
    requires s.db.identity.Some?
  {
    RequestFacts(e.id, s.device, s.db.identity.value.brokerEpoch, e.row.generation, e.row.uid, e.row.packageName,
                 plan.planDigest, plan.manifestDigest, plan.actionCount, context)
  }

  function PrepareForDecision(k: Crypto, s: Store, id: PublicId, plan: FrozenPlan, context: PendingContext, signer: Signer): (o: Tx<Reply>) {
    if context.expiresUtc < context.createdUtc then Err(CorruptState)
    else
      var _ :- EnsureIdentity(s.db, signer);
      match Find(s.db.requests, ById(id))
      case None => Err(NotFound)
      case Some(i) =>
        var e := s.db.requests[i];
        if e.row.state != Planning then Err(LifecycleRaceLost(e.row.state))
        else if e.row.packageName != plan.packageName || !Decodes(id) || !SchemaName(e.row.packageName) then Err(CorruptState)
        else match k.sealRequest(signer, RequestFactsOf(s, e, plan, context))
          case None => Err(ReceiptFailed)
          case Some(sealed) =>
            var moved :- AppendTransition(k, s.db, id, Some(Planning), Pending, PlannerPending);
            if context.deadline > I64_MAX then Err(NumericOutOfRange)
            else
              var binding := Binding(plan.planDigest, sealed.requestDigest, sealed.requestCose, sealed.frozenPlan, context);
              Ok((Bind(moved, id, binding), SealedBytes(sealed.requestCose)))
  }

  function Bind(db: Db, id: PublicId, binding: Binding): (d: Db)
    ensures d.identity == db.identity && d.credentials == db.credentials
  {
    match Find(db.requests, ById(id))
    case None => db
    case Some(i) => SetEntry(db, i, db.requests[i].(row := db.requests[i].row.(binding := Some(binding))))
  }

  const ES256: i64 := -7

  predicate PinAcceptable(pin: CredentialPin) {
    1 <= |pin.credentialId| <= 1024 && 1 <= |pin.publicKey| <= 4096 && pin.algorithm == ES256
  }

  function PinAll(pins: seq<CredentialPin>, generation: i64): (r: Result<map<Bytes, Credential>, BrokerError>) {
    if pins == [] then Ok(map[])
    else
      var earlier :- PinAll(pins[..|pins| - 1], generation);
      var pin := pins[|pins| - 1];
      if pin.credentialId in earlier then Err(Sqlite)
      else Ok(earlier[pin.credentialId := Credential(generation, pin.publicKey, 0, false)])
  }

  function ReplaceCredentials(db: Db, generation: u64, pins: seq<CredentialPin>): (o: Tx<Reply>) {
    if pins == [] || exists i :: 0 <= i < |pins| && !PinAcceptable(pins[i]) then Err(CorruptState)
    else if generation > I64_MAX then Err(NumericOutOfRange)
    else
      var pinned :- PinAll(pins, generation);
      Ok((db.(credentials := pinned, generation := generation), Done))
  }

  function InitializeIdentity(s: Store, signer: Signer, newDevice: DeviceId): (o: Tx<DeviceId>) {
    match s.db.identity
    case None => Ok((s.db.(identity := Some(Identity(signer.kid, signer.publicKey, 0, Some(newDevice)))), newDevice))
    case Some(identity) =>
      if identity.kid != signer.kid || identity.publicKey != signer.publicKey then Err(UnsafeKey)
      else if identity.device.Some? then Ok((s.db, identity.device.value))
      else Ok((s.db.(identity := Some(identity.(device := Some(newDevice)))), newDevice))
  }

  // ----- a new boot

  predicate DueAtBoot(e: Entry, epoch: i64) {
    ExpiresAtBoot(e.row.state) && e.row.bootEpoch != epoch
  }

  function DueIds(rows: seq<Entry>, epoch: i64): (ids: seq<PublicId>) {
    if rows == [] then []
    else DueIds(rows[..|rows| - 1], epoch) + if DueAtBoot(rows[|rows| - 1], epoch) then [rows[|rows| - 1].id] else []
  }

  /** Expires the first `n` of `ids`, drawing one receipt id for each. */
  function ExpireFirst(k: Crypto, db: Db, ids: seq<PublicId>, n: nat, signer: Signer, now: i64, draw: nat -> PublicId): (r: Result<Db, BrokerError>)
    requires n <= |ids|
  {
    if n == 0 then Ok(db)
    else
      var earlier :- ExpireFirst(k, db, ids, n - 1, signer, now, draw);
      var closed :- Close(k, earlier, ids[n - 1], None, Expired, ByExpiry, signer, now, draw(n - 1), []);
      Ok(closed.0)
  }

  function StartBoot(k: Crypto, db: Db, epoch: u64, signer: Signer, now: i64, draw: nat -> PublicId): (o: Tx<Reply>) {
    if epoch > I64_MAX then Err(NumericOutOfRange)
    else if db.bootEpoch == epoch then Ok((db, ExpiredCount(0)))
    else
      var _ :- EnsureIdentity(db, signer);
      var ids := DueIds(db.requests, epoch);
      var expired :- ExpireFirst(k, db, ids, |ids|, signer, now, draw);
      Ok((expired.(bootEpoch := epoch), ExpiredCount(|ids|)))
  }

  // ----- a decision, in its two phases

  datatype RelyingParty = RelyingParty(rpId: Bytes, origin: Bytes)

  datatype BoundContext = BoundContext(
    requestId: PublicId,
    device: DeviceId,
    brokerEpoch: i64,
    requestDigest: Digest,
    generation: i64,
    nonce: Digest,
    party: RelyingParty,
    decision: Decision,
    expiresUtc: i64)

  function ContextFor(s: Store, id: PublicId, decision: Decision, party: RelyingParty): (r: Result<BoundContext, BrokerError>) {
    match Find(s.db.requests, ById(id))
    case None => Err(Sqlite)
    case Some(i) =>
      var e := s.db.requests[i];
      if e.row.binding.None? then Err(Sqlite)
      else if e.row.state != Pending then Err(LifecycleRaceLost(e.row.state))
      else if s.db.identity.None? then Err(Sqlite)
      else if !Decodes(id) then Err(CorruptState)
      else
        var b := e.row.binding.value;
        Ok(BoundContext(id, s.device, s.db.identity.value.brokerEpoch, b.requestDigest, e.row.generation,
                           b.context.nonce, party, decision, b.context.expiresUtc))
  }

  /** What a caller submits, with what the reviewed verifier would say of its assertion. */
  datatype DecisionSubmission = DecisionSubmission(context: BoundContext, credentialId: Bytes, genuine: bool, signCount: u32)

  datatype Verified = Verified(context: BoundContext, credentialId: Bytes, signCount: u32, counterAnomaly: bool)

  /** How the read-and-verify phase ends; only then does a write transaction start. */
  datatype Phase = CloseAs(state: RequestState) | Proceed(verified: Verified)

  function ReadPhase(s: Store, id: PublicId, submission: DecisionSubmission, party: RelyingParty, nowMono: u64, nowUtc: i64)
    : (r: Result<Phase, BrokerError>)
  {
    var context :- ContextFor(s, id, submission.context.decision, party);
    if context != submission.context then Err(WebAuthnFailed)
    else
      var e := s.db.requests[Find(s.db.requests, ById(id)).value];
      if nowUtc >= context.expiresUtc || nowMono >= e.row.binding.value.context.deadline then Ok(CloseAs(Expired))
      else if s.db.generation != context.generation then Ok(CloseAs(Stale))
      else if submission.credentialId !in s.db.credentials then Err(WebAuthnFailed)
      else
        var c := s.db.credentials[submission.credentialId];
        if c.generation != context.generation || c.quarantined || !submission.genuine then Err(WebAuthnFailed)
        else
          var anomaly := c.signCount != 0 && submission.signCount != 0 && submission.signCount <= c.signCount;
          Ok(Proceed(Verified(context, submission.credentialId, submission.signCount, anomaly)))
  }

  function Counted(credentials: map<Bytes, Credential>, id: Bytes, signCount: u32): (c: map<Bytes, Credential>) {
    if id !in credentials then credentials
    else
      var was := credentials[id];
      credentials[id := was.(signCount := if signCount > was.signCount then signCount else was.signCount)]
  }

  /** The write transaction, which checks state and generation again before it decides. */
  function CommitDecision(k: Crypto, db: Db, id: PublicId, v: Verified, evidence: Bytes,
                          signer: Signer, now: i64, receiptId: PublicId): (o: Tx<Reply>)
  {
    var _ :- EnsureIdentity(db, signer);
    match Find(db.requests, ById(id))
    case None => Err(Sqlite)
    case Some(i) =>
      var state := db.requests[i].row.state;
      if state != Pending then Err(LifecycleRaceLost(state))
      else if db.generation != v.context.generation then
        var closed :- Close(k, db, id, Some(Pending), Stale, GenerationStale, signer, now, receiptId, []);
        Ok((closed.0, DecidedAs(Stale, Some(closed.1))))
      else if v.context.decision == Approve then
        var moved :- AppendTransition(k, db, id, Some(Pending), Approved, ByApproval);
        Ok((moved.(credentials := Counted(moved.credentials, v.credentialId, v.signCount)), DecidedAs(Approved, None)))
      else
        var moved :- AppendTransition(k, db, id, Some(Pending), Denied, ByDenial);
        var counted := moved.(credentials := Counted(moved.credentials, v.credentialId, v.signCount));
        var closed :- CreateReceipt(k, counted, id, Denied, signer, now, receiptId, [evidence]);
        Ok((closed.0, DecidedAs(Denied, Some(closed.1))))
  }

  /** A transaction commits its database as a whole, or leaves the store as it was. */
  function Commit(s: Store, o: Tx<Reply>): (r: (Store, Result<Reply, BrokerError>)) {
    match o
    case Ok((db, reply)) => (s.(db := db), Ok(reply))
    case Err(error) => (s, Err(error))
  }

  // ----- the store object

  type Answer = Result<Reply, BrokerError>

  class Broker {
    const k: Crypto
    var db: Db
    var device: DeviceId

    function Value(): (s: Store)
      reads this
    {
      Store(db, device)
    }

    constructor (k: Crypto, db: Db)
      ensures this.k == k && this.db == db
      ensures device == if db.identity.Some? && db.identity.value.device.Some? then db.identity.value.device.value else Zeros(16)
    {
      this.k := k;
      this.db := db;
      device := if db.identity.Some? && db.identity.value.device.Some? then db.identity.value.device.value else Zeros(16);
    }

    method Initialize(signer: Signer, newDevice: DeviceId) returns (a: Answer)
      modifies this
      ensures match InitializeIdentity(old(Value()), signer, newDevice)
        case Ok((d, dev)) => Value() == Store(d, dev) && a == Ok(Done)
        case Err(e) => Value() == old(Value()) && a == Err(e)
    {
      var chosen := newDevice;
      match db.identity {
        case None =>
          db := db.(identity := Some(Identity(signer.kid, signer.publicKey, 0, Some(newDevice))));
        case Some(identity) =>
          if identity.kid != signer.kid || identity.publicKey != signer.publicKey {
            return Err(UnsafeKey);
          }
          if identity.device.Some? {
            chosen := identity.device.value;
          } else {
            db := db.(identity := Some(identity.(device := Some(newDevice))));
          }
      }
      device := chosen;
      return Ok(Done);
    }

    method DoSubmit(r: PackageInstall, allowed: bool) returns (a: Answer)
      modifies this
      ensures (Value(), a) == Commit(old(Value()), Submit(k, old(Value()), r, allowed))
    {
      hide Find, FreshEntry;
      if !allowed {
        return Err(PolicyDenied);
      }
      var known := Find(db.requests, ByOperation(r.uid, r.operationKey));
      if known.Some? {
        var e := db.requests[known.value];
        if e.row.inputDigest == k.inputDigest(r.packageName) {
          return Ok(Existing(SummaryOf(e)));
        }
        return Err(IdempotencyConflict);
      }
      var active := Find(db.requests, ByActiveDevice(device));
      if active.Some? {
        return Err(Busy(db.requests[active.value].id));
      }
      if r.generation > I64_MAX {
        return Err(NumericOutOfRange);
      }
      if Find(db.requests, ById(r.requestId)).Some? {
        return Err(Sqlite);
      }
      var e := FreshEntry(k, device, r);
      db := db.(requests := db.requests + [e]);
      return Ok(Reply.Created(SummaryOf(e)));
    }

    method DoTransitionNonterminal(id: PublicId, expected: RequestState, next: RequestState) returns (a: Answer)
      modifies this
      ensures (Value(), a) == Commit(old(Value()), TransitionNonterminal(k, old(db), id, expected, next))
    {
      hide AppendTransition;
      if IsTerminal(next) || !Permits(expected, next) {
        return Err(InvalidTransition(expected, next));
      }
      var tx :- AppendTransition(k, db, id, Some(expected), next, DefaultReason(next));
      db := tx;
      return Ok(Moved(next));
    }

    method DoTransitionTerminal(id: PublicId, expected: RequestState, next: RequestState, signer: Signer, now: i64, receiptId: PublicId)
      returns (a: Answer)
      modifies this
      ensures (Value(), a) == Commit(old(Value()), TransitionTerminal(k, old(db), id, expected, next, signer, now, receiptId))
    {
      hide AppendTransition, CreateReceipt;
      if !IsTerminal(next) || !Permits(expected, next) {
        return Err(InvalidTransition(expected, next));
      }
      var _ :- EnsureIdentity(db, signer);
      var tx :- AppendTransition(k, db, id, Some(expected), next, DefaultReason(next));
      var closed :- CreateReceipt(k, tx, id, next, signer, now, receiptId, []);
      db := closed.0;
      return Ok(SealedBytes(closed.1));
    }

    method DoReconcileRecovery(id: PublicId, succeeded: bool, evidence: Bytes, signer: Signer, now: i64, receiptId: PublicId)
      returns (a: Answer)
      modifies this
      ensures (Value(), a) == Commit(old(Value()), ReconcileRecovery(k, old(db), id, succeeded, evidence, signer, now, receiptId))
    {
      hide AppendTransition, CreateReceipt, NoteEvidence;
      if evidence == [] || |evidence| > MAX_EVIDENCE {
        return Err(CorruptState);
      }
      var next, reason := Failed, ReconciledFailed;
      if succeeded {
        next, reason := Succeeded, ReconciledSucceeded;
      }
      var _ :- EnsureIdentity(db, signer);
      var tx :- AppendTransition(k, db, id, Some(RecoveryRequired), next, reason);
      tx := NoteEvidence(tx, id, evidence);
      var closed :- CreateReceipt(k, tx, id, next, signer, now, receiptId, []);
      db := closed.0;
      return Ok(SealedBytes(closed.1));
    }

    method DoPrepareForDecision(id: PublicId, plan: FrozenPlan, context: PendingContext, signer: Signer) returns (a: Answer)
      modifies this
      ensures (Value(), a) == Commit(old(Value()), PrepareForDecision(k, old(Value()), id, plan, context, signer))
    {
      hide Find, AppendTransition, Bind, SchemaName;
      if context.expiresUtc < context.createdUtc {
        return Err(CorruptState);
      }
      var _ :- EnsureIdentity(db, signer);
      var found := Find(db.requests, ById(id));
      if found.None? {
        return Err(NotFound);
      }
      var e := db.requests[found.value];
      if e.row.state != Planning {
        return Err(LifecycleRaceLost(e.row.state));
      }
      if e.row.packageName != plan.packageName || !Decodes(id) || !SchemaName(e.row.packageName) {
        return Err(CorruptState);
      }
      var sealed := k.sealRequest(signer, RequestFactsOf(Value(), e, plan, context));
      if sealed.None? {
        return Err(ReceiptFailed);
      }
      var tx :- AppendTransition(k, db, id, Some(Planning), Pending, PlannerPending);
      if context.deadline > I64_MAX {
        return Err(NumericOutOfRange);
      }
      var signed := sealed.value;
      db := Bind(tx, id, Binding(plan.planDigest, signed.requestDigest, signed.requestCose, signed.frozenPlan, context));
      return Ok(SealedBytes(signed.requestCose));
    }

    method DoReplaceCredentials(generation: u64, pins: seq<CredentialPin>) returns (a: Answer)
      modifies this
      ensures (Value(), a) == Commit(old(Value()), ReplaceCredentials(old(db), generation, pins))
    {
      if pins == [] || exists i :: 0 <= i < |pins| && !PinAcceptable(pins[i]) {
        return Err(CorruptState);
      }
      if generation > I64_MAX {
        return Err(NumericOutOfRange);
      }
      var pinned: map<Bytes, Credential> := map[];
      var n := 0;
      while n < |pins|
        invariant n <= |pins| && unchanged(this)
        invariant PinAll(pins[..n], generation) == Ok(pinned)
      {
        assert pins[..n + 1][..n] == pins[..n];
        if pins[n].credentialId in pinned {
          PinConflictStays(pins, n, generation);
          return Err(Sqlite);
        }
        pinned := pinned[pins[n].credentialId := Credential(generation, pins[n].publicKey, 0, false)];
        n := n + 1;
      }
      assert pins[..n] == pins;
      db := db.(credentials := pinned, generation := generation);
      return Ok(Done);
    }

    method DoStartBoot(epoch: u64, signer: Signer, now: i64, draw: nat -> PublicId) returns (a: Answer)
      modifies this
      ensures (Value(), a) == Commit(old(Value()), StartBoot(k, old(db), epoch, signer, now, draw))
    {
      hide Close, DueIds;
      if epoch > I64_MAX {
        return Err(NumericOutOfRange);
      }
      if db.bootEpoch == epoch {
        return Ok(ExpiredCount(0));
      }
      var _ :- EnsureIdentity(db, signer);
      var ids := DueIds(db.requests, epoch);
      var tx := db;
      var changed := 0;
      while changed < |ids|
        invariant changed <= |ids| && unchanged(this)
        invariant ExpireFirst(k, db, ids, changed, signer, now, draw) == Ok(tx)
      {
        var closed := Close(k, tx, ids[changed], None, Expired, ByExpiry, signer, now, draw(changed), []);
        if closed.Err? {
          FailureReaches(k, db, ids, changed, |ids|, signer, now, draw);
          return Err(closed.error);
        }
        tx := closed.value.0;
        changed := changed + 1;
      }
      db := tx.(bootEpoch := epoch);
      return Ok(ExpiredCount(changed));
    }

    method DoCommitDecision(id: PublicId, v: Verified, evidence: Bytes, signer: Signer, now: i64, receiptId: PublicId) returns (a: Answer)
      modifies this
      ensures (Value(), a) == Commit(old(Value()), CommitDecision(k, old(db), id, v, evidence, signer, now, receiptId))
    {
      hide Find, AppendTransition, CreateReceipt, Counted;
      var _ :- EnsureIdentity(db, signer);
      var found := Find(db.requests, ById(id));
      if found.None? {
        return Err(Sqlite);
      }
      var state := db.requests[found.value].row.state;
      if state != Pending {
        return Err(LifecycleRaceLost(state));
      }
      if db.generation != v.context.generation {
        var tx :- AppendTransition(k, db, id, Some(Pending), Stale, GenerationStale);
        var closed :- CreateReceipt(k, tx, id, Stale, signer, now, receiptId, []);
        db := closed.0;
        return Ok(DecidedAs(Stale, Some(closed.1)));
      }
      var next, reason := Approved, ByApproval;
      if v.context.decision == Deny {
        next, reason := Denied, ByDenial;
      }
      var tx :- AppendTransition(k, db, id, Some(Pending), next, reason);
      tx := tx.(credentials := Counted(tx.credentials, v.credentialId, v.signCount));
      var receipt: Option<Bytes> := None;
      if IsTerminal(next) {
        var closed :- CreateReceipt(k, tx, id, next, signer, now, receiptId, [evidence]);
        tx, receipt := closed.0, Some(closed.1);
      }
      db := tx;
      return Ok(DecidedAs(next, receipt));
    }
  }

  lemma {:induction false} PinConflictStays(pins: seq<CredentialPin>, n: nat, generation: i64)
    requires n < |pins| && PinAll(pins[..n], generation).Ok? && pins[n].credentialId in PinAll(pins[..n], generation).value
    ensures PinAll(pins, generation) == Err(Sqlite)
  {
    if n == |pins| - 1 {
      assert pins[..n] == pins[..|pins| - 1];
    } else {
      assert pins[..|pins| - 1][..n] == pins[..n];
      PinConflictStays(pins[..|pins| - 1], n, generation);
    }
  }

  lemma {:induction false} FailureReaches(k: Crypto, db: Db, ids: seq<PublicId>, n: nat, m: nat, signer: Signer, now: i64, draw: nat -> PublicId)
    requires n < m <= |ids| && ExpireFirst(k, db, ids, n, signer, now, draw).Ok?
    requires Close(k, ExpireFirst(k, db, ids, n, signer, now, draw).value, ids[n], None, Expired, ByExpiry, signer, now, draw(n), []).Err?
    ensures ExpireFirst(k, db, ids, m, signer, now, draw)
         == Err(Close(k, ExpireFirst(k, db, ids, n, signer, now, draw).value, ids[n], None, Expired, ByExpiry, signer, now, draw(n), []).error)
  {
    hide Close;
    if n + 1 < m {
      FailureReaches(k, db, ids, n, m - 1, signer, now, draw);
    }
  }
}
