/** The broker's local RPC messages and the length-prefixed frames that carry them. */
module Rpc {
  import opened ByteStrings
  import opened Vocabulary
  import opened Results
  import opened Cbor
  import opened CborEncoding
  import opened Fields
  import Utf8

  const MAX_PAYLOAD: nat := 65_536

  type CorrelationId = Id

  datatype Method = SubmitPackageInstall | GetRequest | ListRequests | CancelRequest | GetReceipt

  datatype Kind = RequestKind | ResponseKind | ErrorKind

  datatype ErrorCode =
    | InvalidInput | NotAllowed | Busy | IdempotencyConflict | ApprovalLocked | NotFoundOrNotAuthorized | InvalidCursor
    | CancellationTooLate | DeviceNotUnpaired | TemporarilyUnavailable | CredentialLimitReached | UnsafeLifecycleState
    | NotRecoveryRequired | ReconciliationNotProved | RetentionProtected | ProtocolViolation | Internal

  /** Bodies and details may be any map. */
  datatype Message =
    | Request(correlation: CorrelationId, method_: Method, body: Value)
    | Response(correlation: CorrelationId, method_: Method, body: Value)
    | Failure(correlation: CorrelationId, method_: Method, code: ErrorCode, retryable: bool, details: Option<Value>)

  datatype RpcError =
    | Schema(error: SchemaError)
    | UnknownMethod(value: u64)
    | InvalidMessageKind(value: u64)
    | UnknownErrorCode

  datatype FrameError = TooShort | LengthMismatch(declared: nat, actual: nat) | PayloadTooLarge | Rpc(error: RpcError)

  // ----- codes

  function MethodCode(m: Method): (c: u64) {
    match m
    case SubmitPackageInstall => 1
    case GetRequest => 2
    case ListRequests => 3
    case CancelRequest => 4
    case GetReceipt => 5
  }

  function MethodFrom(c: u64): (r: Result<Method, RpcError>)
    ensures r.Ok? ==> MethodCode(r.value) == c
    ensures c == 1 || c == 2 || c == 3 || c == 4 || c == 5 ==> r.Ok?
  {
    match c
    case 1 => Ok(SubmitPackageInstall)
    case 2 => Ok(GetRequest)
    case 3 => Ok(ListRequests)
    case 4 => Ok(CancelRequest)
    case 5 => Ok(GetReceipt)
    case _ => Err(UnknownMethod(c))
  }

  function KindCode(k: Kind): (c: u64) {
    match k
    case RequestKind => 1
    case ResponseKind => 2
    case ErrorKind => 3
  }

  function KindFrom(c: u64): (r: Result<Kind, RpcError>)
    ensures r.Ok? ==> KindCode(r.value) == c
  {
    match c
    case 1 => Ok(RequestKind)
    case 2 => Ok(ResponseKind)
    case 3 => Ok(ErrorKind)
    case _ => Err(InvalidMessageKind(c))
  }

  function CodeText(c: ErrorCode): string {
    match c
    case InvalidInput => "invalid_input"
    case NotAllowed => "not_allowed"
    case Busy => "busy"
    case IdempotencyConflict => "idempotency_conflict"
    case ApprovalLocked => "approval_locked"
    case NotFoundOrNotAuthorized => "not_found_or_not_authorized"
    case InvalidCursor => "invalid_cursor"
    case CancellationTooLate => "cancellation_too_late"
    case DeviceNotUnpaired => "device_not_unpaired"
    case TemporarilyUnavailable => "temporarily_unavailable"
    case CredentialLimitReached => "credential_limit_reached"
    case UnsafeLifecycleState => "unsafe_lifecycle_state"
    case NotRecoveryRequired => "not_recovery_required"
    case ReconciliationNotProved => "reconciliation_not_proved"
    case RetentionProtected => "retention_protected"
    case ProtocolViolation => "protocol_violation"
    case Internal => "internal"
  }

  function CodeUtf8(c: ErrorCode): (t: Utf8.Text) {
    Utf8.Literal(CodeText(c))
  }

  const ALL_CODES: seq<ErrorCode> := [
    InvalidInput, NotAllowed, Busy, IdempotencyConflict, ApprovalLocked, NotFoundOrNotAuthorized, InvalidCursor,
    CancellationTooLate, DeviceNotUnpaired, TemporarilyUnavailable, CredentialLimitReached, UnsafeLifecycleState,
    NotRecoveryRequired, ReconciliationNotProved, RetentionProtected, ProtocolViolation, Internal]

  function FindCode(codes: seq<ErrorCode>, t: Utf8.Text): (c: Option<ErrorCode>)
    ensures c.Some? ==> CodeUtf8(c.value) == t
    ensures c.None? ==> forall i :: 0 <= i < |codes| ==> CodeUtf8(codes[i]) != t
  {
    if codes == [] then None
    else if CodeUtf8(codes[0]) == t then Some(codes[0])
    else FindCode(codes[1..], t)
  }

  function ParseCode(t: Utf8.Text): (r: Result<ErrorCode, RpcError>) {
    var found := FindCode(ALL_CODES, t);
    if found.Some? then Ok(found.value) else Err(UnknownErrorCode)
  }

  /** Length and first letter tell the codes apart. */
  function Mark(c: ErrorCode): (m: (nat, char)) {
    match c
    case InvalidInput => (13, 'i')
    case NotAllowed => (11, 'n')
    case Busy => (4, 'b')
    case IdempotencyConflict => (20, 'i')
    case ApprovalLocked => (15, 'a')
    case NotFoundOrNotAuthorized => (27, 'n')
    case InvalidCursor => (14, 'i')
    case CancellationTooLate => (21, 'c')
    case DeviceNotUnpaired => (19, 'd')
    case TemporarilyUnavailable => (23, 't')
    case CredentialLimitReached => (24, 'c')
    case UnsafeLifecycleState => (22, 'u')
    case NotRecoveryRequired => (21, 'n')
    case ReconciliationNotProved => (25, 'r')
    case RetentionProtected => (19, 'r')
    case ProtocolViolation => (18, 'p')
    case Internal => (8, 'i')
  }

  lemma TextHasMark(c: ErrorCode)
    ensures |CodeUtf8(c)| == Mark(c).0 > 0 && CodeUtf8(c)[0] == Mark(c).1 as int
  {
    hide Ascii, Utf8.WellFormed;
  }

  lemma CodeTextsDiffer(c: ErrorCode, d: ErrorCode)
    requires CodeUtf8(c) == CodeUtf8(d)
    ensures c == d
  {
    hide CodeUtf8;
    TextHasMark(c);
    TextHasMark(d);
  }

  lemma EveryCodeListed(c: ErrorCode)
    ensures exists i :: 0 <= i < |ALL_CODES| && ALL_CODES[i] == c
  {
    match c {
      case InvalidInput => assert ALL_CODES[0] == c;
      case NotAllowed => assert ALL_CODES[1] == c;
      case Busy => assert ALL_CODES[2] == c;
      case IdempotencyConflict => assert ALL_CODES[3] == c;
      case ApprovalLocked => assert ALL_CODES[4] == c;
      case NotFoundOrNotAuthorized => assert ALL_CODES[5] == c;
      case InvalidCursor => assert ALL_CODES[6] == c;
      case CancellationTooLate => assert ALL_CODES[7] == c;
      case DeviceNotUnpaired => assert ALL_CODES[8] == c;
      case TemporarilyUnavailable => assert ALL_CODES[9] == c;
      case CredentialLimitReached => assert ALL_CODES[10] == c;
      case UnsafeLifecycleState => assert ALL_CODES[11] == c;
      case NotRecoveryRequired => assert ALL_CODES[12] == c;
      case ReconciliationNotProved => assert ALL_CODES[13] == c;
      case RetentionProtected => assert ALL_CODES[14] == c;
      case ProtocolViolation => assert ALL_CODES[15] == c;
      case Internal => assert ALL_CODES[16] == c;
    }
  }

  lemma CodeParses(c: ErrorCode)
    ensures ParseCode(CodeUtf8(c)) == Ok(c)
  {
    hide CodeUtf8, FindCode;
    EveryCodeListed(c);
    var found := FindCode(ALL_CODES, CodeUtf8(c));
    if found.Some? {
      CodeTextsDiffer(found.value, c);
    }
  }

  lemma CodeIsShort(c: ErrorCode)
    ensures |CodeUtf8(c)| <= 64
  {
    hide Ascii, Utf8.WellFormed;
  }

  // ----- messages and fields

  function KindOf(x: Message): (k: Kind) {
    match x
    case Request(_, _, _) => RequestKind
    case Response(_, _, _) => ResponseKind
    case Failure(_, _, _, _, _) => ErrorKind
  }

  function Rest(x: Message): (values: seq<Value>)
    ensures |values| <= 3
  {
    match x
    case Request(_, _, body) => [body]
    case Response(_, _, body) => [body]
    case Failure(_, _, code, retryable, details) =>
      [TextString(CodeUtf8(code)), Bool(retryable)] + if details.Some? then [details.value] else []
  }

  function Values(x: Message): (values: seq<Value>)
    ensures |values| == 4 + |Rest(x)|
  {
    [Unsigned(VERSION), Unsigned(KindCode(KindOf(x))), ByteString(x.correlation), Unsigned(MethodCode(x.method_))] + Rest(x)
  }

  /** Bodies, and details when there are any, must be maps. */
  function CheckMaps(x: Message): (r: Result<(), RpcError>) {
    match x
    case Request(_, _, body) => if body.Map? then Ok(()) else Err(Schema(WrongType(5)))
    case Response(_, _, body) => if body.Map? then Ok(()) else Err(Schema(WrongType(5)))
    case Failure(_, _, _, _, details) => if details.Some? && !details.value.Map? then Err(Schema(WrongType(7))) else Ok(())
  }

  function Lift<T>(r: Result<T, SchemaError>): (l: Result<T, RpcError>)
    ensures l.Ok? <==> r.Ok?
    ensures l.Ok? ==> l.value == r.value
  {
    match r
    case Ok(x) => Ok(x)
    case Err(e) => Err(Schema(e))
  }

  function RequiredBool(m: FieldMap, k: u64): (r: Result<bool, SchemaError>)
    ensures r.Ok? <==> k in m && m[k].Bool?
    ensures r.Ok? ==> m[k] == Bool(r.value)
  {
    var v :- Required(m, k);
    if v.Bool? then Ok(v.b) else Err(WrongType(k))
  }

  function CommonFields(m: FieldMap, expected: Kind): (r: Result<(CorrelationId, Method), RpcError>)
    ensures r.Ok? ==>
      && 1 in m && m[1] == Unsigned(VERSION) && 2 in m && m[2] == Unsigned(KindCode(expected))
      && 3 in m && m[3] == ByteString(r.value.0) && 4 in m && m[4] == Unsigned(MethodCode(r.value.1))
  {
    var _ :- Lift(Version(m));
    var code :- Lift(RequiredUnsigned(m, 2));
    var kind :- KindFrom(code);
    if kind != expected then Err(Schema(InvalidField(2)))
    else
      var id :- Lift(RequiredBytes(m, 3, 16));
      var methodCode :- Lift(RequiredUnsigned(m, 4));
      var method_ :- MethodFrom(methodCode);
      Ok((id, method_))
  }

  function FromFields(m: FieldMap): (r: Result<Message, RpcError>) {
    var code :- Lift(RequiredUnsigned(m, 2));
    var kind :- KindFrom(code);
    match kind
    case RequestKind =>
      var _ :- Lift(RejectUnknown(m, {1, 2, 3, 4, 5}));
      var (id, method_) :- CommonFields(m, RequestKind);
      var body :- Lift(Required(m, 5));
      if body.Map? then Ok(Request(id, method_, body)) else Err(Schema(WrongType(5)))
    case ResponseKind =>
      var _ :- Lift(RejectUnknown(m, {1, 2, 3, 4, 5}));
      var (id, method_) :- CommonFields(m, ResponseKind);
      var body :- Lift(Required(m, 5));
      if body.Map? then Ok(Response(id, method_, body)) else Err(Schema(WrongType(5)))
    case ErrorKind => FailureFrom(m)
  }

  function FailureFrom(m: FieldMap): (r: Result<Message, RpcError>) {
    var _ :- Lift(RejectUnknown(m, {1, 2, 3, 4, 5, 6, 7}));
    var (id, method_) :- CommonFields(m, ErrorKind);
    var text :- Lift(RequiredText(m, 5, 64));
    var errorCode :- ParseCode(text);
    var retryable :- Lift(RequiredBool(m, 6));
    if 7 !in m then Ok(Failure(id, method_, errorCode, retryable, None))
    else if !m[7].Map? then Err(Schema(WrongType(7)))
    else Ok(Failure(id, method_, errorCode, retryable, Some(m[7])))
  }

  // ----- frames

  function EncodeFrame(x: Message): (r: Result<Bytes, FrameError>) {
    match CheckMaps(x)
    case Err(e) => Err(Rpc(e))
    case Ok(_) =>
      match EncodeEntries(Consecutive(1, Values(x)))
      case Err(e) => Err(Rpc(Schema(e)))
      case Ok(payload) =>
        if |payload| > MAX_PAYLOAD then Err(PayloadTooLarge)
        else Ok(BigEndian(|payload|, 4) + payload)
  }

  function DecodeFrame(packet: Bytes): (r: Result<Message, FrameError>) {
    if |packet| < 4 then Err(TooShort)
    else
      var declared := FromBigEndian(packet[..4]);
      if declared > MAX_PAYLOAD then Err(PayloadTooLarge)
      else if declared != |packet| - 4 then Err(LengthMismatch(declared, |packet| - 4))
      else
        match CborFields(packet[4..])
        case Err(e) => Err(Rpc(Schema(e)))
        case Ok(m) =>
          match FromFields(m)
          case Err(e) => Err(Rpc(e))
          case Ok(x) => Ok(x)
  }

  // ----- both directions

  lemma FromFieldsSound(m: FieldMap)
    requires FromFields(m).Ok?
    ensures m == Block(1, Values(FromFields(m).value)) && CheckMaps(FromFields(m).value).Ok?
  {
    hide CommonFields, Required, RequiredUnsigned, RequiredText, RequiredBool, RejectUnknown, Block, CodeUtf8, FindCode, KindFrom, MethodCode;
    var x := FromFields(m).value;
    var values := Values(x);
    forall k: u64 | 1 <= k <= |values| ensures k in m && m[k] == values[k - 1] {
    }
    forall k | k in m ensures 1 <= k <= |values| {
    }
  }

  /** A frame that decodes encodes to the same bytes. */
  lemma FrameDecodeEncode(packet: Bytes)
    requires DecodeFrame(packet).Ok?
    ensures EncodeFrame(DecodeFrame(packet).value) == Ok(packet)
  {
    hide FromFields, CborFields, EncodeEntries, Values, Collect, BigEndian, FromBigEndian, CheckMaps;
    var payload := packet[4..];
    var m := CborFields(payload).value;
    var x := DecodeFrame(packet).value;
    FromFieldsSound(m);
    ConsecutiveCollects(1, Values(x));
    Reencodes(payload, Consecutive(1, Values(x)));
    ToFromBigEndian(packet[..4]);
    assert packet[..4] + packet[4..] == packet;
  }

  /** The same message with its body or details in normal form. */
  function NormalMessage(x: Message): (y: Message) {
    match x
    case Request(id, m, body) => Request(id, m, Normal(body))
    case Response(id, m, body) => Response(id, m, Normal(body))
    case Failure(id, m, code, retryable, details) =>
      Failure(id, m, code, retryable, if details.Some? then Some(Normal(details.value)) else None)
  }

  lemma NormalValues(x: Message)
    ensures |Values(NormalMessage(x))| == |Values(x)|
    ensures forall i :: 0 <= i < |Values(x)| ==> Normal(Values(x)[i]) == Values(NormalMessage(x))[i]
  {
    hide CodeUtf8;
  }

  lemma NormalBlock(x: Message)
    ensures NormalFields(Block(1, Values(x))) == Block(1, Values(NormalMessage(x)))
  {
    hide Block, Values, Normal, NormalMessage;
    NormalValues(x);
  }

  lemma ReadsBack(x: Message)
    requires CheckMaps(x).Ok?
    ensures FromFields(Block(1, Values(x))) == Ok(x)
  {
    hide RejectUnknown, Block, CodeUtf8, ParseCode, RequiredText, RequiredUnsigned, RequiredBytes, Version;
    var m := Block(1, Values(x));
    forall i | 0 <= i < |Values(x)| ensures 1 + i in m && m[1 + i] == Values(x)[i] {
    }
    assert m[1] == Values(x)[0] && m[2] == Values(x)[1] && m[3] == Values(x)[2] && m[4] == Values(x)[3] && m[5] == Values(x)[4];
    if x.Failure? {
      CodeParses(x.code);
      CodeIsShort(x.code);
      assert m[6] == Values(x)[5];
    }
  }

  lemma MapsOfNormal(x: Message)
    ensures CheckMaps(NormalMessage(x)).Ok? <==> CheckMaps(x).Ok?
  {
    hide NormalItems, NormalEntries;
  }

  /** A message that encodes decodes to the same message, with its body or details in normal form. */
  lemma FrameEncodeDecode(x: Message)
    requires EncodeFrame(x).Ok?
    ensures DecodeFrame(EncodeFrame(x).value) == Ok(NormalMessage(x))
  {
    hide FromFields, CborFields, EncodeEntries, Values, Collect, BigEndian, FromBigEndian, NormalFields, Normal, Pow256;
    var entries := Consecutive(1, Values(x));
    var payload := EncodeEntries(entries).value;
    var packet := EncodeFrame(x).value;
    ConsecutiveCollects(1, Values(x));
    Redecodes(entries);
    NormalBlock(x);
    MapsOfNormal(x);
    ReadsBack(NormalMessage(x));
    Pow256Values();
    FromToBigEndian(|payload|, 4);
    assert packet[..4] == BigEndian(|payload|, 4) && packet[4..] == payload;
  }

  // ----- which messages travel

  function Envelope(x: Message): (v: Value) {
    Value.Map(Consecutive(1, Values(x)))
  }

  /** The message can be sent as it is: maps where maps belong, all within the profile, and an envelope that fits a frame. */
  predicate Travels(x: Message) {
    && CheckMaps(x).Ok?
    && Canonical(Envelope(x), 0, DEFAULT_LIMITS) && |Raw(Envelope(x))| <= 65_536
  }

  lemma NormalEnvelope(x: Message)
    ensures Normal(Envelope(x)) == Envelope(NormalMessage(x))
  {
    hide Values, Consecutive, Normal, NormalMessage;
    NormalValues(x);
    NormalOfConsecutive(1, Values(x), Values(NormalMessage(x)));
  }

  /** A message encodes exactly when it can be sent once its body or details are in normal form. */
  lemma EncodesExactly(x: Message)
    ensures EncodeFrame(x).Ok? <==> Travels(NormalMessage(x))
  {
    hide Values, Consecutive, Encode, Canonical, Raw, Normal, NormalMessage, CheckMaps, BigEndian;
    NormalEnvelope(x);
    MapsOfNormal(x);
    var b := Raw(Envelope(NormalMessage(x)));
    EncodeExactly(Envelope(x), b);
    if EncodeFrame(x).Ok? {
      EncodeExactly(Envelope(x), Encode(Envelope(x)).value);
    }
  }

  /** A message in normal form stays what it is. */
  lemma TravelsAsItIs(x: Message)
    requires Travels(x)
    ensures NormalMessage(x) == x
  {
    hide Consecutive, Canonical, Raw, Normal, CodeUtf8;
    var values := Values(x);
    ConsecutiveCanonical(1, values, 0);
    forall i | 0 <= i < |values| ensures Normal(values[i]) == values[i] {
      NormalFixesCanonical(values[i], 1, DEFAULT_LIMITS);
    }
    match x {
      case Request(_, _, body) => assert values[4] == body;
      case Response(_, _, body) => assert values[4] == body;
      case Failure(_, _, _, _, details) => assert details.Some? ==> values[6] == details.value;
    }
  }

  /** Some packet decodes to a message exactly when the message can be sent as it is. */
  lemma DecodesExactly(x: Message)
    ensures (exists packet :: DecodeFrame(packet) == Ok(x)) <==> Travels(x)
  {
    hide Travels, DecodeFrame, EncodeFrame, NormalMessage;
    EncodesExactly(x);
    if exists packet :: DecodeFrame(packet) == Ok(x) {
      var packet :| DecodeFrame(packet) == Ok(x);
      FrameDecodeEncode(packet);
      FrameEncodeDecode(x);
      assert NormalMessage(x) == x;
    }
    if Travels(x) {
      TravelsAsItIs(x);
      FrameEncodeDecode(x);
      assert DecodeFrame(EncodeFrame(x).value) == Ok(x);
    }
  }

  /** What an envelope spends on version, kind, correlation, method and keys. */
  const OVERHEAD: nat := 26

  lemma {:induction false} EntriesSize(values: seq<Value>, n: nat)
    requires n <= |values| <= 7
    ensures |RawEntries(Consecutive(1, values)[n..])| == Sizes(values[n..])
    decreases |values| - n
  {
    hide Raw, Consecutive;
    if n < |values| {
      var entries := Consecutive(1, values);
      EntriesSize(values, n + 1);
      assert entries[n..][0] == Field(1 + n, values[n]) && entries[n..][1..] == entries[n + 1..];
      assert values[n..][1..] == values[n + 1..];
      FieldSize(1 + n, values[n]);
    }
  }

  /** The bytes of these values, with a one-byte key each. */
  function Sizes(values: seq<Value>): (n: nat) {
    if values == [] then 0 else 1 + |Raw(values[0])| + Sizes(values[1..])
  }

  lemma FieldSize(k: u64, v: Value)
    requires k <= 23
    ensures |RawEntry(Field(k, v))| == 1 + |Raw(v)|
  {
    assert Raw(Unsigned(k)) == [k];
  }

  lemma EnvelopeSize(x: Message)
    requires !x.Failure?
    ensures |Raw(Envelope(x))| == OVERHEAD + |Raw(x.body)|
  {
    hide Raw, Sizes, Consecutive, Values;
    EntriesSize(Values(x), 0);
    assert Consecutive(1, Values(x))[0..] == Consecutive(1, Values(x)) && Values(x)[0..] == Values(x);
    RequestSizes(x);
    MapSize(Consecutive(1, Values(x)));
  }

  lemma MapSize(entries: seq<Entry>)
    requires |entries| <= 23
    ensures |Raw(Value.Map(entries))| == 1 + |RawEntries(entries)|
  {
  }

  lemma RequestSizes(x: Message)
    requires !x.Failure?
    ensures |Values(x)| == 5 && Sizes(Values(x)) == OVERHEAD - 1 + |Raw(x.body)|
  {
    var values := Values(x);
    assert |Raw(values[0])| == 1 && |Raw(values[1])| == 1 && |Raw(values[2])| == 17 && |Raw(values[3])| == 1 && values[4] == x.body;
    hide Raw, Values;
    FiveSizes(values[0], values[1], values[2], values[3], values[4]);
    assert values == [values[0], values[1], values[2], values[3], values[4]];
  }

  lemma FiveSizes(a: Value, b: Value, c: Value, d: Value, e: Value)
    ensures Sizes([a, b, c, d, e]) == 5 + |Raw(a)| + |Raw(b)| + |Raw(c)| + |Raw(d)| + |Raw(e)|
  {
    hide Raw;
    assert [a, b, c, d, e][1..] == [b, c, d, e] && [b, c, d, e][1..] == [c, d, e] && [c, d, e][1..] == [d, e];
    assert [d, e][1..] == [e] && [e][1..] == [];
    assert Sizes([e]) == 1 + |Raw(e)|;
    assert Sizes([d, e]) == 1 + |Raw(d)| + Sizes([e]);
    assert Sizes([c, d, e]) == 1 + |Raw(c)| + Sizes([d, e]);
    assert Sizes([b, c, d, e]) == 1 + |Raw(b)| + Sizes([c, d, e]);
  }

  lemma BodyTravels(x: Message)
    requires !x.Failure?
    ensures Travels(x) <==> x.body.Map? && Canonical(x.body, 1, DEFAULT_LIMITS) && |Raw(x.body)| <= 65_510
  {
    hide Consecutive, Canonical, Raw;
    ConsecutiveCanonical(1, Values(x), 0);
    EnvelopeSize(x);
    assert Values(x)[4] == x.body;
    HeadersCanonical(x);
  }

  lemma HeadersCanonical(x: Message)
    ensures forall i :: 0 <= i < 4 ==> Canonical(Values(x)[i], 1, DEFAULT_LIMITS)
  {
  }

  /**
   * A request or a response with a given body is what some packet decodes to exactly when the body is a map within the
   * profile one level down, and its encoding leaves room for the rest of the envelope. Nothing is asked of its keys.
   */
  lemma BodyAcceptedExactly(id: CorrelationId, m: Method, body: Value)
    ensures (exists packet :: DecodeFrame(packet) == Ok(Request(id, m, body)))
       <==> body.Map? && Canonical(body, 1, DEFAULT_LIMITS) && |Raw(body)| <= 65_510
    ensures (exists packet :: DecodeFrame(packet) == Ok(Response(id, m, body)))
       <==> body.Map? && Canonical(body, 1, DEFAULT_LIMITS) && |Raw(body)| <= 65_510
  {
    hide DecodeFrame, Travels, Canonical, Raw;
    DecodesExactly(Request(id, m, body));
    DecodesExactly(Response(id, m, body));
    BodyTravels(Request(id, m, body));
    BodyTravels(Response(id, m, body));
  }

  /** Bodies need not be integer-keyed: one under a text key is encoded, and decoded to itself. */
  lemma TextKeyedBodyTravels(id: CorrelationId, m: Method)
    ensures var x := Request(id, m, Value.Map([Entry(TextString([]), Null)]));
      EncodeFrame(x).Ok? && DecodeFrame(EncodeFrame(x).value) == Ok(x)
  {
    hide DecodeFrame, EncodeFrame, Travels, NormalMessage;
    var entries := [Entry(TextString([]), Null)];
    var x := Request(id, m, Value.Map(entries));
    assert entries[1..] == [];
    assert CanonicalEntries(entries, 2, None, DEFAULT_LIMITS);
    assert Raw(x.body) == [0xa1, 0x60, 0xf6];
    BodyTravels(x);
    TravelsAsItIs(x);
    EncodesExactly(x);
    FrameEncodeDecode(x);
  }
}
