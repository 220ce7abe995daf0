/** Lifecycle events, whose optional fields are pushed after the others, and decision submissions, which nest a context. */
module Events {
  import opened ByteStrings
  import opened Vocabulary
  import opened Results
  import opened Cbor
  import opened CborEncoding
  import opened Fields
  import opened Messages

  function Optional(v: Option<Bytes>): (values: seq<Value>) {
    if v.Some? then [ByteString(v.value)] else []
  }

  function OptionalBounded(m: FieldMap, k: u64, least: nat, most: nat): (r: Result<Option<Bytes>, SchemaError>)
    ensures r.Ok? ==> (r.value.Some? <==> k in m) && (k in m ==> m[k] == ByteString(r.value.value) && least <= |r.value.value| <= most)
  {
    if k !in m then Ok(None)
    else
      var b :- RequiredBounded(m, k, least, most);
      Ok(Some(b))
  }

  /** Listings of disjoint ranges of keys, one after the other. */
  lemma BlocksCollect(a: seq<Entry>, m: FieldMap, first: u64, values: seq<Value>)
    requires first + |values| < U64_LIMIT && Collect(a) == Ok(m) && m.Keys !! Block(first, values).Keys
    ensures Collect(a + Consecutive(first, values)) == Ok(m + Block(first, values))
  {
    hide *;
    CollectDescribes(a);
    ConsecutiveDescribes(first, values);
    DescribesTogether(a, m, Consecutive(first, values), Block(first, values));
    DescribedCollects(a + Consecutive(first, values), m + Block(first, values));
  }

  // ----- lifecycle events

  datatype LifecycleEvent = LifecycleEvent(
    requestId: Id,
    sequence: u64,
    previous: Option<Digest>,
    requestDigest: Digest,
    brokerEpoch: u64,
    transition: u64,
    occurredUtc: i64,
    detailCode: u64,
    detailDigest: Option<Digest>)

  function EventHead(x: LifecycleEvent): (values: seq<Value>)
    ensures |values| == 3
  {
    [Unsigned(VERSION), ByteString(x.requestId), Unsigned(x.sequence)]
  }

  function EventTail(x: LifecycleEvent): (values: seq<Value>)
    ensures |values| == 5
  {
    [ByteString(x.requestDigest), Unsigned(x.brokerEpoch), Unsigned(x.transition), Signed(x.occurredUtc), Unsigned(x.detailCode)]
  }

  /** Fields 1 to 3 and 5 to 9, then the optional fields 4 and 10. */
  function EventEntries(x: LifecycleEvent): (entries: seq<Entry>) {
    Consecutive(1, EventHead(x)) + Consecutive(5, EventTail(x)) + Consecutive(4, Optional(x.previous)) + Consecutive(10, Optional(x.detailDigest))
  }

  function EventFields(x: LifecycleEvent): (m: FieldMap) {
    Block(1, EventHead(x)) + Block(5, EventTail(x)) + Block(4, Optional(x.previous)) + Block(10, Optional(x.detailDigest))
  }

  lemma EventCollects(x: LifecycleEvent)
    ensures Collect(EventEntries(x)) == Ok(EventFields(x))
  {
    hide Collect, Consecutive, Block, EventHead, EventTail, Optional;
    ConsecutiveCollects(1, EventHead(x));
    BlocksCollect(Consecutive(1, EventHead(x)), Block(1, EventHead(x)), 5, EventTail(x));
    ShortOptional(x.previous);
    ShortOptional(x.detailDigest);
    BlocksCollect(Consecutive(1, EventHead(x)) + Consecutive(5, EventTail(x)), Block(1, EventHead(x)) + Block(5, EventTail(x)), 4, Optional(x.previous));
    BlocksCollect(Consecutive(1, EventHead(x)) + Consecutive(5, EventTail(x)) + Consecutive(4, Optional(x.previous)),
                  Block(1, EventHead(x)) + Block(5, EventTail(x)) + Block(4, Optional(x.previous)), 10, Optional(x.detailDigest));
  }

  lemma ShortOptional(v: Option<Bytes>)
    ensures |Optional(v)| <= 1
  {
  }

  function EventFrom(m: FieldMap): (r: Result<LifecycleEvent, SchemaError>) {
    var _ :- RejectUnknown(m, {1, 2, 3, 4, 5, 6, 7, 8, 9, 10});
    var _ :- Version(m);
    var requestId :- RequiredBytes(m, 2, 16);
    var sequence :- RequiredUnsigned(m, 3);
    var previous :- OptionalBounded(m, 4, 32, 32);
    var requestDigest :- RequiredBytes(m, 5, 32);
    var brokerEpoch :- RequiredUnsigned(m, 6);
    var transition :- RequiredUnsigned(m, 7);
    var occurredUtc :- RequiredSigned(m, 8);
    var detailCode :- RequiredUnsigned(m, 9);
    var detailDigest :- OptionalBounded(m, 10, 32, 32);
    Ok(LifecycleEvent(requestId, sequence, previous, requestDigest, brokerEpoch, transition, occurredUtc, detailCode, detailDigest))
  }

  function FieldAt(x: LifecycleEvent, k: u64): (v: Option<Value>) {
    if k == 4 then (if x.previous.Some? then Some(ByteString(x.previous.value)) else None)
    else if k == 10 then (if x.detailDigest.Some? then Some(ByteString(x.detailDigest.value)) else None)
    else if 1 <= k <= 3 then Some(EventHead(x)[k - 1])
    else if 5 <= k <= 9 then Some(EventTail(x)[k - 5])
    else None
  }

  lemma EventFieldsAt(x: LifecycleEvent, k: u64)
    ensures k in EventFields(x) <==> FieldAt(x, k).Some?
    ensures k in EventFields(x) ==> EventFields(x)[k] == FieldAt(x, k).value
  {
    hide Block, EventHead, EventTail;
  }

  lemma EventFromSound(m: FieldMap)
    requires EventFrom(m).Ok? && ProperNegatives(m)
    ensures m == EventFields(EventFrom(m).value)
  {
    hide Required, RequiredUnsigned, RequiredSigned, RequiredBytes, OptionalBounded, RejectUnknown, Version, EventFields;
    var x := EventFrom(m).value;
    forall k: u64 ensures (k in m <==> k in EventFields(x)) && (k in m ==> m[k] == EventFields(x)[k]) {
      EventFieldsAt(x, k);
    }
  }

  lemma EventFieldsInjective(x: LifecycleEvent, y: LifecycleEvent)
    requires EventFields(x) == EventFields(y)
    ensures x == y
  {
    hide EventFields;
    forall k: u64 ensures FieldAt(x, k) == FieldAt(y, k) {
      EventFieldsAt(x, k);
      EventFieldsAt(y, k);
    }
    assert FieldAt(x, 2) == FieldAt(y, 2) && FieldAt(x, 3) == FieldAt(y, 3) && FieldAt(x, 4) == FieldAt(y, 4);
    assert FieldAt(x, 5) == FieldAt(y, 5) && FieldAt(x, 6) == FieldAt(y, 6) && FieldAt(x, 7) == FieldAt(y, 7);
    assert FieldAt(x, 8) == FieldAt(y, 8) && FieldAt(x, 9) == FieldAt(y, 9) && FieldAt(x, 10) == FieldAt(y, 10);
  }

  lemma EventFieldsAreNormal(x: LifecycleEvent)
    ensures NormalFields(EventFields(x)) == EventFields(x) && ProperNegatives(EventFields(x))
  {
    hide EventFields;
    forall k: u64 | k in EventFields(x)
      ensures Normal(EventFields(x)[k]) == EventFields(x)[k] && (EventFields(x)[k].Negative? ==> EventFields(x)[k].i < 0)
    {
      EventFieldsAt(x, k);
    }
  }

  /** The first event, and only the first, has no predecessor. */
  predicate LinkedProperly(x: LifecycleEvent) {
    x.sequence == 0 <==> x.previous.None?
  }

  function CheckLink(x: LifecycleEvent): (r: Result<(), SchemaError>) {
    if x.sequence == 0 && x.previous.Some? then Err(InvalidField(4))
    else if x.sequence != 0 && x.previous.None? then Err(MissingField(4))
    else Ok(())
  }

  function ValidateEvent(x: LifecycleEvent): (r: Result<(), SchemaError>) {
    var m :- Collect(EventEntries(x));
    var decoded :- EventFrom(m);
    CheckLink(decoded)
  }

  function DecodeEvent(b: Bytes): (r: Result<LifecycleEvent, SchemaError>) {
    var m :- CborFields(b);
    var x :- EventFrom(m);
    var _ :- ValidateEvent(x);
    Ok(x)
  }

  function EventBytes(x: LifecycleEvent): (r: Result<Bytes, SchemaError>) {
    var _ :- ValidateEvent(x);
    EncodeEntries(EventEntries(x))
  }

  /** Although the optional fields are listed last, an event that decodes encodes to the same bytes. */
  lemma EventDecodeEncode(b: Bytes)
    requires DecodeEvent(b).Ok?
    ensures EventBytes(DecodeEvent(b).value) == Ok(b) && LinkedProperly(DecodeEvent(b).value)
  {
    hide EventFrom, CborFields, Collect, EncodeEntries, EventEntries, EventFields, NormalFields;
    var m := CborFields(b).value;
    var x := DecodeEvent(b).value;
    DecodedFields(b);
    EventFromSound(m);
    EventCollects(x);
    Reencodes(b, EventEntries(x));
  }

  /** What encodes as an event decodes to the same event. */
  lemma EventEncodeDecode(x: LifecycleEvent)
    requires EventBytes(x).Ok?
    ensures DecodeEvent(EventBytes(x).value) == Ok(x)
  {
    hide EventFrom, CborFields, Collect, EncodeEntries, EventEntries, EventFields, NormalFields;
    EventCollects(x);
    EventFieldsAreNormal(x);
    var y := EventFrom(EventFields(x)).value;
    EventFromSound(EventFields(x));
    EventFieldsInjective(x, y);
    Redecodes(EventEntries(x));
  }

  // ----- decision submissions

  datatype Submission = Submission(
    context: ApprovalContext,
    credentialId: Bytes,
    authenticatorData: Bytes,
    clientDataJson: Bytes,
    signature: Bytes,
    userHandle: Option<Bytes>)

  function SubmissionValues(x: Submission): (values: seq<Value>)
    ensures |values| == if x.userHandle.Some? then 7 else 6
  {
    [Unsigned(VERSION), ContextToCbor(x.context), ByteString(x.credentialId), ByteString(x.authenticatorData),
     ByteString(x.clientDataJson), ByteString(x.signature)] + Optional(x.userHandle)
  }

  function SubmissionFrom(m: FieldMap): (r: Result<Submission, SchemaError>) {
    var _ :- RejectUnknown(m, {1, 2, 3, 4, 5, 6, 7});
    var _ :- Version(m);
    var nested :- Required(m, 2);
    var inner :- FieldsOf(nested);
    var context :- ContextFrom(inner);
    var credentialId :- RequiredBounded(m, 3, 1, 1024);
    var authenticatorData :- RequiredBounded(m, 4, 1, 512);
    var clientDataJson :- RequiredBounded(m, 5, 1, 4096);
    var signature :- RequiredBounded(m, 6, 1, 512);
    var userHandle :- OptionalBounded(m, 7, 0, 256);
    Ok(Submission(context, credentialId, authenticatorData, clientDataJson, signature, userHandle))
  }

  function DecodeSubmission(b: Bytes): (r: Result<Submission, SchemaError>) {
    var m :- CborFields(b);
    SubmissionFrom(m)
  }

  function SubmissionBytes(x: Submission): (r: Result<Bytes, SchemaError>) {
    var m :- Collect(Consecutive(1, SubmissionValues(x)));
    var _ :- SubmissionFrom(m);
    EncodeEntries(Consecutive(1, SubmissionValues(x)))
  }

  lemma ContextValueNormal(x: ApprovalContext)
    ensures Normal(ContextToCbor(x)) == ContextToCbor(x)
    ensures FieldsOf(ContextToCbor(x)) == Ok(ContextFields(x))
  {
    hide Collect, Normal, Consecutive, Block, NormalFields;
    var values := ContextValues(x);
    ContextValuesAreNormal(x);
    NormalConsecutive(1, values);
    ConsecutiveCollects(1, values);
  }

  lemma ContextValuesAreNormal(x: ApprovalContext)
    ensures forall i :: 0 <= i < 11 ==> Normal(ContextValues(x)[i]) == ContextValues(x)[i]
  {
  }

  /** A nested value that reads as a context is that context's value. */
  lemma NestedContext(v: Value)
    requires Normal(v) == v && FieldsOf(v).Ok? && ProperNegatives(FieldsOf(v).value) && ContextFrom(FieldsOf(v).value).Ok?
    ensures v == ContextToCbor(ContextFrom(FieldsOf(v).value).value)
  {
    hide Normal, Collect, ContextFrom, ContextValues;
    var x := ContextFrom(FieldsOf(v).value).value;
    ContextFromSound(FieldsOf(v).value);
    ContextValuesAreNormal(x);
    NestedIs(v, 1, ContextValues(x));
  }

  /** A canonical map's fields are canonical, so a nested map's numbers are proper too. */
  lemma NestedProper(b: Bytes, k: u64)
    requires CborFields(b).Ok? && k in CborFields(b).value && FieldsOf(CborFields(b).value[k]).Ok?
    ensures ProperNegatives(FieldsOf(CborFields(b).value[k]).value)
  {
    hide DecodeWithLimits, Collect, Describes, Canonical, CanonicalEntries, Raw;
    var v := Decode(b).value;
    var m := CborFields(b).value;
    DecodeExactly(b, v, DEFAULT_LIMITS);
    CollectDescribes(v.entries);
    DescribedEntry(v.entries, m, k);
    MapParts(v, 0);
    CanonicalField(v.entries, 1, None, DEFAULT_LIMITS, Entry(Unsigned(k), m[k]));
    var inner := m[k];
    MapParts(inner, 1);
    var n := FieldsOf(inner).value;
    CollectDescribes(inner.entries);
    forall j | j in n && n[j].Negative? ensures n[j].i < 0 {
      DescribedEntry(inner.entries, n, j);
      CanonicalField(inner.entries, 2, None, DEFAULT_LIMITS, Entry(Unsigned(j), n[j]));
      NegativeProper(n[j], 2);
    }
  }

  lemma MapParts(v: Value, depth: nat)
    requires Canonical(v, depth, DEFAULT_LIMITS) && v.Map?
    ensures CanonicalEntries(v.entries, depth + 1, None, DEFAULT_LIMITS)
  {
  }

  lemma NegativeProper(v: Value, depth: nat)
    requires Canonical(v, depth, DEFAULT_LIMITS) && v.Negative?
    ensures v.i < 0
  {
  }

  lemma SubmissionFromSound(m: FieldMap)
    requires SubmissionFrom(m).Ok?
    requires m[2] == ContextToCbor(SubmissionFrom(m).value.context)
    ensures m == Block(1, SubmissionValues(SubmissionFrom(m).value))
  {
    hide RequiredBounded, OptionalBounded, RejectUnknown, Version, Block, FieldsOf, ContextFrom, ContextToCbor;
    var x := SubmissionFrom(m).value;
    var values := SubmissionValues(x);
    forall k: u64 | 1 <= k <= |values| ensures k in m && m[k] == values[k - 1] {
    }
    forall k | k in m ensures 1 <= k <= |values| {
    }
  }

  lemma SubmissionReadsContext(m: FieldMap)
    requires SubmissionFrom(m).Ok?
    ensures 2 in m && FieldsOf(m[2]).Ok? && ContextFrom(FieldsOf(m[2]).value) == Ok(SubmissionFrom(m).value.context)
  {
    hide RequiredBounded, OptionalBounded, RejectUnknown, Version, FieldsOf, ContextFrom;
  }

  /** A submission that decodes encodes to the same bytes, the context inside it included. */
  lemma SubmissionDecodeEncode(b: Bytes)
    requires DecodeSubmission(b).Ok?
    ensures SubmissionBytes(DecodeSubmission(b).value) == Ok(b)
  {
    hide SubmissionFrom, CborFields, Collect, EncodeEntries, SubmissionValues, NormalFields, FieldsOf, ContextFrom, ContextToCbor;
    var m := CborFields(b).value;
    var x := DecodeSubmission(b).value;
    DecodedFields(b);
    SubmissionReadsContext(m);
    NestedProper(b, 2);
    NestedContext(m[2]);
    SubmissionFromSound(m);
    ConsecutiveCollects(1, SubmissionValues(x));
    Reencodes(b, Consecutive(1, SubmissionValues(x)));
  }

  lemma SubmissionIsNormal(x: Submission)
    ensures NormalFields(Block(1, SubmissionValues(x))) == Block(1, SubmissionValues(x))
  {
    hide Block, ContextToCbor, Normal;
    var values := SubmissionValues(x);
    var m := Block(1, values);
    ContextValueNormal(x.context);
    forall i | 0 <= i < |values| ensures Normal(values[i]) == values[i] {
      if i != 1 {
        SimpleIsNormal(values[i]);
      }
    }
    SteadyBlock(values);
  }

  lemma SteadyBlock(values: seq<Value>)
    requires |values| < 100 && forall i :: 0 <= i < |values| ==> Normal(values[i]) == values[i]
    ensures NormalFields(Block(1, values)) == Block(1, values)
  {
    hide Block, Normal;
    var m := Block(1, values);
    forall k | k in m ensures Normal(m[k]) == m[k] {
      assert m[k] == values[k - 1];
    }
  }

  lemma SubmissionFromBack(x: Submission)
    requires SubmissionFrom(Block(1, SubmissionValues(x))).Ok?
    ensures SubmissionFrom(Block(1, SubmissionValues(x))) == Ok(x)
  {
    hide RequiredBounded, OptionalBounded, RejectUnknown, Version, Block, FieldsOf, ContextFrom, ContextToCbor, Required;
    hide Normal, ContextFields, ValidContext;
    var values := SubmissionValues(x);
    var m := Block(1, values);
    forall k: u64 | 1 <= k <= |values| ensures k in m && m[k] == values[k - 1] {
    }
    ContextValueNormal(x.context);
    ContextFromComplete(x.context);
    ContextReadsBack(x.context);
  }

  lemma ContextReadsBack(x: ApprovalContext)
    requires ContextFrom(ContextFields(x)).Ok?
    ensures ContextFrom(ContextFields(x)) == Ok(x)
  {
    hide ContextFrom, ContextFields;
    ContextFromComplete(x);
  }

  /** What encodes as a submission decodes to the same submission. */
  lemma SubmissionEncodeDecode(x: Submission)
    requires SubmissionBytes(x).Ok?
    ensures DecodeSubmission(SubmissionBytes(x).value) == Ok(x)
  {
    hide SubmissionFrom, CborFields, Collect, EncodeEntries, SubmissionValues, NormalFields;
    ConsecutiveCollects(1, SubmissionValues(x));
    SubmissionIsNormal(x);
    SubmissionFromBack(x);
    Redecodes(Consecutive(1, SubmissionValues(x)));
  }
}
