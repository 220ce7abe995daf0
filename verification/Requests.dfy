/** Signed requests, with a nested operation input and a frozen plan of any shape, and terminal receipts. */
module Requests {
  import opened ByteStrings
  import opened Vocabulary
  import opened Results
  import opened Cbor
  import opened CborEncoding
  import opened Fields
  import opened Messages
  import Events
  import Utf8

  // ----- the operation input

  type PackageName = s: Utf8.Text | SchemaName(s) witness [0x61]

  function InputToCbor(name: PackageName): (v: Value) {
    Value.Map(Consecutive(1, [TextString(name)]))
  }

  function InputFrom(v: Value): (r: Result<PackageName, SchemaError>) {
    var m :- FieldsOf(v);
    var _ :- RejectUnknown(m, {1});
    var name :- RequiredText(m, 1, 255);
    if SchemaName(name) then Ok(name) else Err(InvalidField(13))
  }

  lemma InputReadsBack(name: PackageName)
    ensures InputFrom(InputToCbor(name)) == Ok(name) && Normal(InputToCbor(name)) == InputToCbor(name)
  {
    hide Collect, Consecutive, Normal, Block;
    SimpleIsNormal(TextString(name));
    ConsecutiveCollects(1, [TextString(name)]);
    NormalConsecutive(1, [TextString(name)]);
  }

  lemma InputIs(v: Value)
    requires Normal(v) == v && InputFrom(v).Ok?
    ensures v == InputToCbor(InputFrom(v).value)
  {
    hide Collect, Consecutive, Normal, SchemaName;
    var name := InputFrom(v).value;
    var m := FieldsOf(v).value;
    SimpleIsNormal(TextString(name));
    forall k ensures k in m <==> k in Block(1, [TextString(name)]) {
    }
    assert m == Block(1, [TextString(name)]);
    NestedIs(v, 1, [TextString(name)]);
  }

  // ----- requests

  datatype Request = Request(
    requestId: Id,
    deviceId: Id,
    brokerEpoch: u64,
    generation: u64,
    createdUtc: i64,
    expiresUtc: i64,
    bootId: Id,
    deadline: u64,
    nonce: Digest,
    requesterUid: u64,
    operationInput: PackageName,
    policyId: Id,
    policyDigest: Digest,
    planDigest: Digest,
    frozenPlan: Value,
    agentNote: Option<Utf8.Text>)

  const PACKAGE_INSTALL: u64 := 1

  function Note(t: Option<Utf8.Text>): (values: seq<Value>) {
    if t.Some? then [TextString(t.value)] else []
  }

  function RequestHead(x: Request): (values: seq<Value>)
    ensures |values| == 9
  {
    [Unsigned(VERSION), ByteString(x.requestId), ByteString(x.deviceId), Unsigned(x.brokerEpoch), Unsigned(x.generation),
     Signed(x.createdUtc), Signed(x.expiresUtc), ByteString(x.bootId), Unsigned(x.deadline)]
  }

  function RequestTail(x: Request): (values: seq<Value>)
    ensures |values| == if x.agentNote.Some? then 9 else 8
  {
    [ByteString(x.nonce), Unsigned(x.requesterUid), Unsigned(PACKAGE_INSTALL), InputToCbor(x.operationInput), ByteString(x.policyId),
     ByteString(x.policyDigest), ByteString(x.planDigest), x.frozenPlan] + Note(x.agentNote)
  }

  function RequestEntries(x: Request): (entries: seq<Entry>) {
    Consecutive(1, RequestHead(x)) + Consecutive(10, RequestTail(x))
  }

  function RequestFields(x: Request): (m: FieldMap) {
    Block(1, RequestHead(x)) + Block(10, RequestTail(x))
  }

  function OptionalNote(m: FieldMap): (r: Result<Option<Utf8.Text>, SchemaError>)
    ensures r.Ok? ==> (r.value.Some? <==> 18 in m) && (18 in m ==> m[18] == TextString(r.value.value))
  {
    if 18 !in m then Ok(None)
    else
      var t :- RequiredText(m, 18, 512);
      Ok(Some(t))
  }

  datatype FirstHalf = FirstHalf(
    requestId: Id, deviceId: Id, brokerEpoch: u64, generation: u64, createdUtc: i64, expiresUtc: i64, bootId: Id, deadline: u64)

  function RequestFirst(m: FieldMap): (r: Result<FirstHalf, SchemaError>) {
    var requestId :- RequiredBytes(m, 2, 16);
    var deviceId :- RequiredBytes(m, 3, 16);
    var brokerEpoch :- RequiredUnsigned(m, 4);
    var generation :- RequiredUnsigned(m, 5);
    var createdUtc :- RequiredSigned(m, 6);
    var expiresUtc :- RequiredSigned(m, 7);
    var bootId :- RequiredBytes(m, 8, 16);
    var deadline :- RequiredUnsigned(m, 9);
    Ok(FirstHalf(requestId, deviceId, brokerEpoch, generation, createdUtc, expiresUtc, bootId, deadline))
  }

  /** Fields 10 to 18 in order, then the checks that need several of them. */
  function RequestRest(m: FieldMap, f: FirstHalf): (r: Result<Request, SchemaError>) {
    var nonce :- RequiredBytes(m, 10, 32);
    var requesterUid :- RequiredUnsigned(m, 11);
    var operation :- RequiredUnsigned(m, 12);
    if operation != PACKAGE_INSTALL then Err(InvalidField(12))
    else
      var nested :- Required(m, 13);
      var input :- InputFrom(nested);
      var policyId :- RequiredBytes(m, 14, 16);
      var policyDigest :- RequiredBytes(m, 15, 32);
      var planDigest :- RequiredBytes(m, 16, 32);
      var frozenPlan :- Required(m, 17);
      var note :- OptionalNote(m);
      if f.expiresUtc < f.createdUtc then Err(InvalidField(7))
      else if !frozenPlan.Map? then Err(WrongType(17))
      else
        Ok(Request(f.requestId, f.deviceId, f.brokerEpoch, f.generation, f.createdUtc, f.expiresUtc, f.bootId, f.deadline, nonce,
                   requesterUid, input, policyId, policyDigest, planDigest, frozenPlan, note))
  }

  function RequestFrom(m: FieldMap): (r: Result<Request, SchemaError>) {
    var _ :- RejectUnknown(m, {1, 2, 3, 4, 5, 6, 7, 8, 9, 10, 11, 12, 13, 14, 15, 16, 17, 18});
    var _ :- Version(m);
    var first :- RequestFirst(m);
    RequestRest(m, first)
  }

  function DecodeRequest(b: Bytes): (r: Result<Request, SchemaError>) {
    var m :- CborFields(b);
    RequestFrom(m)
  }

  function RequestBytes(x: Request): (r: Result<Bytes, SchemaError>) {
    var m :- Collect(RequestEntries(x));
    var _ :- RequestFrom(m);
    EncodeEntries(RequestEntries(x))
  }

  lemma RequestCollects(x: Request)
    ensures Collect(RequestEntries(x)) == Ok(RequestFields(x))
  {
    hide Collect, Consecutive, Block, RequestHead, RequestTail;
    ConsecutiveCollects(1, RequestHead(x));
    Events.BlocksCollect(Consecutive(1, RequestHead(x)), Block(1, RequestHead(x)), 10, RequestTail(x));
  }

  function FieldAt(x: Request, k: u64): (v: Option<Value>) {
    if 1 <= k <= 9 then Some(RequestHead(x)[k - 1])
    else if 10 <= k < 10 + |RequestTail(x)| then Some(RequestTail(x)[k - 10])
    else None
  }

  lemma RequestFieldsAt(x: Request, k: u64)
    ensures k in RequestFields(x) <==> FieldAt(x, k).Some?
    ensures k in RequestFields(x) ==> RequestFields(x)[k] == FieldAt(x, k).value
  {
    hide Block, RequestHead, RequestTail;
  }

  lemma FirstHalfSound(m: FieldMap, x: Request)
    requires Version(m).Ok? && RequestFirst(m).Ok? && ProperNegatives(m)
    requires var f := RequestFirst(m).value;
      && x.requestId == f.requestId && x.deviceId == f.deviceId && x.brokerEpoch == f.brokerEpoch && x.generation == f.generation
      && x.createdUtc == f.createdUtc && x.expiresUtc == f.expiresUtc && x.bootId == f.bootId && x.deadline == f.deadline
    ensures forall k: u64 :: 1 <= k <= 9 ==> k in m && m[k] == RequestHead(x)[k - 1]
  {
    hide Required, RequiredUnsigned, RequiredSigned, RequiredBytes, Version;
  }

  lemma SecondHalfSound(m: FieldMap, f: FirstHalf)
    requires RequestRest(m, f).Ok? && 13 in m && Normal(m[13]) == m[13]
    ensures var x := RequestRest(m, f).value;
      && x.requestId == f.requestId && x.deviceId == f.deviceId && x.brokerEpoch == f.brokerEpoch && x.generation == f.generation
      && x.createdUtc == f.createdUtc && x.expiresUtc == f.expiresUtc && x.bootId == f.bootId && x.deadline == f.deadline
      && (forall k: u64 :: 10 <= k < 10 + |RequestTail(x)| ==> k in m && m[k] == RequestTail(x)[k - 10])
      && (x.agentNote.Some? <==> 18 in m)
      && x.frozenPlan.Map? && x.createdUtc <= x.expiresUtc
  {
    hide Required, RequiredUnsigned, RequiredBytes, OptionalNote, InputFrom, InputToCbor, Normal;
    InputIs(m[13]);
  }

  lemma RequestFromSound(m: FieldMap)
    requires RequestFrom(m).Ok? && ProperNegatives(m) && (13 in m ==> Normal(m[13]) == m[13])
    ensures m == RequestFields(RequestFrom(m).value)
    ensures RequestFrom(m).value.frozenPlan.Map?
  {
    hide RequestFirst, RequestRest, RejectUnknown, Version, RequestFields, RequestHead, RequestTail, Normal;
    var x := RequestFrom(m).value;
    var f := RequestFirst(m).value;
    HasInput(m, f);
    SecondHalfSound(m, f);
    FirstHalfSound(m, x);
    forall k: u64 ensures (k in m <==> k in RequestFields(x)) && (k in m ==> m[k] == RequestFields(x)[k]) {
      RequestFieldsAt(x, k);
    }
  }

  lemma HasInput(m: FieldMap, f: FirstHalf)
    requires RequestRest(m, f).Ok?
    ensures 13 in m
  {
    hide RequiredUnsigned, RequiredBytes, OptionalNote, InputFrom;
  }

  /** A request that decodes encodes to the same bytes, its frozen plan and operation input included. */
  lemma RequestDecodeEncode(b: Bytes)
    requires DecodeRequest(b).Ok?
    ensures RequestBytes(DecodeRequest(b).value) == Ok(b)
  {
    hide RequestFrom, CborFields, Collect, EncodeEntries, RequestEntries, RequestFields, NormalFields, Normal;
    var m := CborFields(b).value;
    var x := DecodeRequest(b).value;
    DecodedFields(b);
    RequestFromSound(m);
    RequestCollects(x);
    Reencodes(b, RequestEntries(x));
  }

  /** The same request with its frozen plan in normal form. */
  function NormalRequest(x: Request): (y: Request) {
    x.(frozenPlan := Normal(x.frozenPlan))
  }

  lemma RequestValuesNormal(x: Request)
    ensures forall i :: 0 <= i < 9 ==> Normal(RequestHead(x)[i]) == RequestHead(NormalRequest(x))[i]
    ensures forall i :: 0 <= i < |RequestTail(x)| ==> Normal(RequestTail(x)[i]) == RequestTail(NormalRequest(x))[i]
  {
    hide InputToCbor, Normal;
    InputReadsBack(x.operationInput);
    forall i | 0 <= i < 9 ensures Normal(RequestHead(x)[i]) == RequestHead(NormalRequest(x))[i] {
      SimpleIsNormal(RequestHead(x)[i]);
    }
    forall i | 0 <= i < |RequestTail(x)| ensures Normal(RequestTail(x)[i]) == RequestTail(NormalRequest(x))[i] {
      if i != 3 && i != 7 {
        SimpleIsNormal(RequestTail(x)[i]);
      }
    }
  }

  lemma RequestNormal(x: Request)
    ensures NormalFields(RequestFields(x)) == RequestFields(NormalRequest(x))
  {
    hide RequestFields, Normal, RequestHead, RequestTail, NormalRequest;
    RequestValuesNormal(x);
    SameTail(x);
    var m, n := RequestFields(x), RequestFields(NormalRequest(x));
    forall k: u64 ensures (k in m <==> k in n) && (k in m ==> Normal(m[k]) == n[k]) {
      RequestFieldsAt(x, k);
      RequestFieldsAt(NormalRequest(x), k);
    }
  }

  lemma SameTail(x: Request)
    ensures |RequestTail(x)| == |RequestTail(NormalRequest(x))|
  {
  }

  /** Fields that read as a request read as nothing but the request they were listed from. */
  lemma RequestReadsBack(x: Request)
    requires RequestFrom(RequestFields(x)).Ok?
    ensures RequestFrom(RequestFields(x)) == Ok(x) && x.frozenPlan.Map? && x.createdUtc <= x.expiresUtc
  {
    hide RequestFirst, RequestRest, RejectUnknown, Version, RequestFields, RequestHead, RequestTail, Normal;
    var m := RequestFields(x);
    var y := RequestFrom(m).value;
    RequestProper(x);
    HasInput(m, RequestFirst(m).value);
    RequestFromSound(m);
    RequestFieldsInjective(x, y);
    SecondHalfSound(m, RequestFirst(m).value);
  }

  lemma RequestProper(x: Request)
    ensures ProperNegatives(RequestFields(x)) || x.frozenPlan.Negative?
    ensures RequestFrom(RequestFields(x)).Ok? ==> ProperNegatives(RequestFields(x))
    ensures 13 in RequestFields(x) && Normal(RequestFields(x)[13]) == RequestFields(x)[13]
  {
    hide RequestFields, Normal, RequestFirst, RejectUnknown, Version, InputToCbor, InputFrom;
    InputReadsBack(x.operationInput);
    RequestFieldsAt(x, 13);
    RequestFieldsAt(x, 17);
    forall k: u64 | k in RequestFields(x) && RequestFields(x)[k].Negative? && k != 17 ensures RequestFields(x)[k].i < 0 {
      RequestFieldsAt(x, k);
      InputIsMap(x.operationInput);
    }
  }

  lemma InputIsMap(name: PackageName)
    ensures InputToCbor(name).Map?
  {
  }

  lemma RequestFieldsInjective(x: Request, y: Request)
    requires RequestFields(x) == RequestFields(y)
    ensures x == y
  {
    hide RequestFields, InputToCbor;
    forall k: u64 ensures FieldAt(x, k) == FieldAt(y, k) {
      RequestFieldsAt(x, k);
      RequestFieldsAt(y, k);
    }
    assert FieldAt(x, 2) == FieldAt(y, 2) && FieldAt(x, 3) == FieldAt(y, 3) && FieldAt(x, 4) == FieldAt(y, 4) && FieldAt(x, 5) == FieldAt(y, 5);
    assert FieldAt(x, 6) == FieldAt(y, 6) && FieldAt(x, 7) == FieldAt(y, 7) && FieldAt(x, 8) == FieldAt(y, 8) && FieldAt(x, 9) == FieldAt(y, 9);
    assert FieldAt(x, 10) == FieldAt(y, 10) && FieldAt(x, 11) == FieldAt(y, 11) && FieldAt(x, 13) == FieldAt(y, 13);
    assert FieldAt(x, 14) == FieldAt(y, 14) && FieldAt(x, 15) == FieldAt(y, 15) && FieldAt(x, 16) == FieldAt(y, 16);
    assert FieldAt(x, 17) == FieldAt(y, 17) && FieldAt(x, 18) == FieldAt(y, 18);
    InputReadsBack(x.operationInput);
    InputReadsBack(y.operationInput);
  }

  /** What encodes as a request decodes to the same request, with its frozen plan in normal form. */
  lemma RequestEncodeDecode(x: Request)
    requires RequestBytes(x).Ok?
    ensures DecodeRequest(RequestBytes(x).value) == Ok(NormalRequest(x))
  {
    hide RequestFrom, CborFields, Collect, EncodeEntries, RequestEntries, RequestFields, NormalFields, NormalRequest;
    RequestCollects(x);
    Redecodes(RequestEntries(x));
    RequestNormal(x);
    RequestReadsBack(x);
    NormalAccepted(x);
  }

  lemma NormalAccepted(x: Request)
    requires RequestFrom(RequestFields(x)).Ok?
    ensures RequestFrom(RequestFields(NormalRequest(x))) == Ok(NormalRequest(x))
  {
    hide RequestFrom, RequestFields, FieldAt, Normal, NormalRequest;
    var y := NormalRequest(x);
    var m, n := RequestFields(x), RequestFields(y);
    RequestReadsBack(x);
    NormalOfMap(x.frozenPlan.entries);
    forall k: u64 ensures (k in m <==> k in n) && (k in m && k != 17 ==> m[k] == n[k]) {
      NormalFieldAt(x, k);
      RequestFieldsAt(x, k);
      RequestFieldsAt(y, k);
    }
    NormalFieldAt(x, 17);
    RequestFieldsAt(x, 17);
    RequestFieldsAt(y, 17);
    PlanMayDiffer(m, n);
    RequestReadsBack(y);
  }

  lemma NormalFieldAt(x: Request, k: u64)
    ensures k == 17 ==> FieldAt(x, k) == Some(x.frozenPlan) && FieldAt(NormalRequest(x), k) == Some(Normal(x.frozenPlan))
    ensures k != 17 ==> FieldAt(NormalRequest(x), k) == FieldAt(x, k)
  {
    hide Normal;
    SameHead(x);
    SameTail(x);
  }

  lemma SameHead(x: Request)
    ensures RequestHead(NormalRequest(x)) == RequestHead(x)
  {
  }

  /** Whether fields read as a request does not depend on which map the frozen plan is. */
  lemma PlanMayDiffer(m: FieldMap, n: FieldMap)
    requires RequestFrom(m).Ok? && m.Keys == n.Keys && forall k :: k in m && k != 17 ==> m[k] == n[k]
    requires 17 in m && m[17].Map? && n[17].Map?
    ensures RequestFrom(n).Ok?
  {
    hide RequestFirst, RequestRest;
    SameFirst(m, n);
    SameRest(m, n, RequestFirst(m).value);
  }

  lemma SameFirst(m: FieldMap, n: FieldMap)
    requires m.Keys == n.Keys && forall k :: k in m && k != 17 ==> m[k] == n[k]
    ensures RequestFirst(m) == RequestFirst(n)
  {
  }

  lemma SameRest(m: FieldMap, n: FieldMap, f: FirstHalf)
    requires m.Keys == n.Keys && forall k :: k in m && k != 17 ==> m[k] == n[k]
    requires RequestRest(m, f).Ok? && 17 in m && m[17].Map? && n[17].Map?
    ensures RequestRest(n, f).Ok?
  {
    hide InputFrom, Required, RequiredUnsigned, RequiredBytes, OptionalNote;
    SameNote(m, n);
    HasInput(m, f);
  }

  lemma SameNote(m: FieldMap, n: FieldMap)
    requires m.Keys == n.Keys && forall k :: k in m && k != 17 ==> m[k] == n[k]
    ensures OptionalNote(m) == OptionalNote(n)
  {
  }
}
