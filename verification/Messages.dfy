/** The protocol's messages: typed values, their field maps and their canonical bytes. */
module Messages {
  import opened ByteStrings
  import opened Vocabulary
  import opened Results
  import opened Cbor
  import opened CborEncoding
  import opened Fields
  import Digests
  import Utf8

  // ----- approval contexts

  function DecisionCode(d: Decision): (c: u64) {
    if d.Approve? then 1 else 2
  }

  function DecisionFrom(c: u64): (r: Result<Decision, SchemaError>)
    ensures r.Ok? ==> DecisionCode(r.value) == c
  {
    if c == 1 then Ok(Approve) else if c == 2 then Ok(Deny) else Err(InvalidField(10))
  }

  datatype ApprovalContext = ApprovalContext(
    requestId: Id,
    deviceId: Id,
    brokerEpoch: u64,
    requestDigest: Digest,
    generation: u64,
    nonce: Digest,
    rpId: Utf8.Text,
    origin: Utf8.Text,
    decision: Decision,
    expiresUtc: i64)

  function ContextValues(x: ApprovalContext): (values: seq<Value>)
    ensures |values| == 11
  {
    [Unsigned(VERSION), ByteString(x.requestId), ByteString(x.deviceId), Unsigned(x.brokerEpoch), ByteString(x.requestDigest),
     Unsigned(x.generation), ByteString(x.nonce), TextString(x.rpId), TextString(x.origin), Unsigned(DecisionCode(x.decision)),
     Signed(x.expiresUtc)]
  }

  function ContextToCbor(x: ApprovalContext): (v: Value) {
    Value.Map(Consecutive(1, ContextValues(x)))
  }

  function ContextFields(x: ApprovalContext): (m: FieldMap) {
    Block(1, ContextValues(x))
  }

  function ContextFrom(m: FieldMap): (r: Result<ApprovalContext, SchemaError>) {
    var _ :- RejectUnknown(m, {1, 2, 3, 4, 5, 6, 7, 8, 9, 10, 11});
    var _ :- Version(m);
    var requestId :- RequiredBytes(m, 2, 16);
    var deviceId :- RequiredBytes(m, 3, 16);
    var brokerEpoch :- RequiredUnsigned(m, 4);
    var requestDigest :- RequiredBytes(m, 5, 32);
    var generation :- RequiredUnsigned(m, 6);
    var nonce :- RequiredBytes(m, 7, 32);
    var rpText :- RequiredText(m, 8, 253);
    var rpId :- NonEmpty(rpText, 8);
    var originText :- RequiredText(m, 9, 255);
    var origin :- NonEmpty(originText, 9);
    var code :- RequiredUnsigned(m, 10);
    var decision :- DecisionFrom(code);
    var expiresUtc :- RequiredSigned(m, 11);
    Ok(ApprovalContext(requestId, deviceId, brokerEpoch, requestDigest, generation, nonce, rpId, origin, decision, expiresUtc))
  }

  /** Fields read as a context are exactly that context's fields. */
  lemma ContextFromSound(m: FieldMap)
    requires ContextFrom(m).Ok? && ProperNegatives(m)
    ensures m == ContextFields(ContextFrom(m).value)
  {
    hide Required, RequiredUnsigned, RequiredSigned, RequiredBytes, RequiredText, RejectUnknown, Version, Block;
    var x := ContextFrom(m).value;
    var values := ContextValues(x);
    forall k: u64 | 1 <= k <= 11 ensures k in m && m[k] == values[k - 1] {
    }
    assert forall k :: k in m ==> 1 <= k <= 11;
  }

  /** What a context must meet to be sent: the texts within their bounds. */
  predicate ValidContext(x: ApprovalContext) {
    1 <= |x.rpId| <= 253 && 1 <= |x.origin| <= 255
  }

  lemma ContextFromComplete(x: ApprovalContext)
    ensures ContextFrom(ContextFields(x)) == Ok(x) <==> ValidContext(x)
    ensures ContextFrom(ContextFields(x)).Ok? ==> ValidContext(x)
  {
    hide Required, RequiredUnsigned, RequiredSigned, RequiredBytes, RequiredText, RejectUnknown, Version, Block;
    var m := ContextFields(x);
    var values := ContextValues(x);
    forall k: u64 | 1 <= k <= 11 ensures k in m && m[k] == values[k - 1] {
    }
    SignedInjective(m, 11, x.expiresUtc);
  }

  lemma SignedInjective(m: FieldMap, k: u64, i: i64)
    requires k in m && m[k] == Signed(i)
    ensures RequiredSigned(m, k) == Ok(i)
  {
  }

  function DecodeContext(b: Bytes): (r: Result<ApprovalContext, SchemaError>) {
    var m :- CborFields(b);
    ContextFrom(m)
  }

  function ContextBytes(x: ApprovalContext): (r: Result<Bytes, SchemaError>) {
    var m :- FieldsOf(ContextToCbor(x));
    var _ :- ContextFrom(m);
    EncodeEntries(Consecutive(1, ContextValues(x)))
  }

  /** What decodes as a context encodes to the same bytes. */
  lemma ContextDecodeEncode(b: Bytes)
    requires DecodeContext(b).Ok?
    ensures ContextBytes(DecodeContext(b).value) == Ok(b)
  {
    hide ContextFrom, CborFields, Collect, EncodeEntries, ContextValues, NormalFields;
    var m := CborFields(b).value;
    var x := DecodeContext(b).value;
    DecodedFields(b);
    ContextFromSound(m);
    ConsecutiveCollects(1, ContextValues(x));
    Reencodes(b, Consecutive(1, ContextValues(x)));
  }

  lemma ContextFieldsAreNormal(x: ApprovalContext)
    ensures NormalFields(ContextFields(x)) == ContextFields(x)
  {
    hide Block;
    var m := ContextFields(x);
    var values := ContextValues(x);
    forall k | k in m ensures Normal(m[k]) == m[k] {
      assert m[k] == values[k - 1];
    }
  }

  /** What encodes as a context decodes to the same context, and that happens within the bounds. */
  lemma ContextEncodeDecode(x: ApprovalContext)
    requires ContextBytes(x).Ok?
    ensures DecodeContext(ContextBytes(x).value) == Ok(x) && ValidContext(x)
  {
    hide ContextFrom, Collect, EncodeEntries, ContextValues, NormalFields, CborFields;
    var entries := Consecutive(1, ContextValues(x));
    ConsecutiveCollects(1, ContextValues(x));
    ContextFromComplete(x);
    Redecodes(entries);
    ContextFieldsAreNormal(x);
  }

  /** The WebAuthn challenge is hashed from bytes that fix all ten fields of the context, the decision among them. */
  lemma ChallengeFixesContext(x: ApprovalContext, y: ApprovalContext)
    requires Digests.Preimage(Digests.WebAuthnChallenge, ContextToCbor(x)).Ok?
    requires Digests.Preimage(Digests.WebAuthnChallenge, ContextToCbor(x)) == Digests.Preimage(Digests.WebAuthnChallenge, ContextToCbor(y))
    ensures x == y
  {
    hide ContextValues, NormalFields, Normal, Collect, Digests.Preimage;
    Digests.PreimagesSeparate(Digests.WebAuthnChallenge, ContextToCbor(x), Digests.WebAuthnChallenge, ContextToCbor(y));
    ConsecutiveCollects(1, ContextValues(x));
    ConsecutiveCollects(1, ContextValues(y));
    FieldsOfNormal(Consecutive(1, ContextValues(x)));
    FieldsOfNormal(Consecutive(1, ContextValues(y)));
    ContextFieldsAreNormal(x);
    ContextFieldsAreNormal(y);
    ContextFieldsInjective(x, y);
  }

  lemma ContextFieldsInjective(x: ApprovalContext, y: ApprovalContext)
    requires ContextFields(x) == ContextFields(y)
    ensures x == y
  {
    hide Block;
    var m, a, b := ContextFields(x), ContextValues(x), ContextValues(y);
    forall i | 0 <= i < 11 ensures a[i] == b[i] {
      assert m[1 + i] == a[i] && m[1 + i] == b[i];
    }
    assert a[1] == b[1] && a[2] == b[2] && a[3] == b[3] && a[4] == b[4] && a[5] == b[5];
    assert a[6] == b[6] && a[7] == b[7] && a[8] == b[8] && a[9] == b[9] && a[10] == b[10];
  }

  /** Approving and denying are never signed over the same bytes. */
  lemma ApproveAndDenyDiffer(x: ApprovalContext)
    requires Digests.Preimage(Digests.WebAuthnChallenge, ContextToCbor(x.(decision := Approve))).Ok?
    ensures Digests.Preimage(Digests.WebAuthnChallenge, ContextToCbor(x.(decision := Approve)))
         != Digests.Preimage(Digests.WebAuthnChallenge, ContextToCbor(x.(decision := Deny)))
  {
    hide Digests.Preimage, ContextToCbor;
    var a, d := x.(decision := Approve), x.(decision := Deny);
    if Digests.Preimage(Digests.WebAuthnChallenge, ContextToCbor(a)) == Digests.Preimage(Digests.WebAuthnChallenge, ContextToCbor(d)) {
      ChallengeFixesContext(a, d);
    }
  }
}
