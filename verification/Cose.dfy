/** COSE Sign1 envelopes: a tagged array whose first element is itself encoded CBOR (sections 3 and 4.2 of RFC 9052). */
module Cose {
  import opened ByteStrings
  import opened Results
  import opened Cbor
  import opened CborEncoding
  import Digests
  import Utf8
  import F = Fields

  const ALGORITHM_LABEL: u64 := 1
  const CONTENT_TYPE_LABEL: u64 := 3
  const KID_LABEL: u64 := 4
  const EDDSA: i64 := -8
  const SIGNATURE_BYTES: nat := 64

  datatype CoseError =
    | Undecodable(error: DecodeError)
    | Unencodable(failure: EncodeError)
    | NotSign1
    | InvalidStructure
    | InvalidProtectedHeader
    | UnprotectedHeaderPresent
    | UnsupportedAlgorithm
    | InvalidKid
    | InvalidSignatureLength

  type Signature = s: Bytes | |s| == 64 witness Zeros(64)

  datatype CoseSign1 = CoseSign1(kid: Bytes, contentType: u64, payload: Bytes, signature: Signature, protected: Bytes)

  predicate ValidKid(kid: Bytes) {
    8 <= |kid| <= 32
  }

  function Encoded(v: Value): (r: Result<Bytes, CoseError>) {
    match Encode(v)
    case Ok(b) => Ok(b)
    case Err(e) => Err(Unencodable(e))
  }

  function ProtectedEntries(kid: Bytes, contentType: u64): (entries: seq<Entry>)
    ensures |entries| == 3
  {
    [Entry(Unsigned(ALGORITHM_LABEL), Negative(EDDSA)),
     Entry(Unsigned(CONTENT_TYPE_LABEL), Unsigned(contentType)),
     Entry(Unsigned(KID_LABEL), ByteString(kid))]
  }

  function ProtectedBytes(kid: Bytes, contentType: u64): (r: Result<Bytes, CoseError>) {
    if !ValidKid(kid) then Err(InvalidKid) else Encoded(Value.Map(ProtectedEntries(kid, contentType)))
  }

  /** The three header fields as far as they have been seen. */
  datatype Header = Header(algorithm: Option<i64>, contentType: Option<u64>, kid: Option<Bytes>)

  function HeaderOf(entries: seq<Entry>): (r: Result<Header, CoseError>) {
    if entries == [] then Ok(Header(None, None, None))
    else
      var h :- HeaderOf(entries[..|entries| - 1]);
      var e := entries[|entries| - 1];
      if e.key == Unsigned(ALGORITHM_LABEL) && e.value.Negative? then Ok(h.(algorithm := Some(e.value.i)))
      else if e.key == Unsigned(CONTENT_TYPE_LABEL) && e.value.Unsigned? then Ok(h.(contentType := Some(e.value.n)))
      else if e.key == Unsigned(KID_LABEL) && e.value.ByteString? then Ok(h.(kid := Some(e.value.bytes)))
      else Err(InvalidProtectedHeader)
  }

  function CheckHeader(h: Header): (r: Result<(Bytes, u64), CoseError>) {
    if h.algorithm != Some(EDDSA) then Err(UnsupportedAlgorithm)
    else if h.kid.None? then Err(InvalidProtectedHeader)
    else if !ValidKid(h.kid.value) then Err(InvalidKid)
    else if h.contentType.None? then Err(InvalidProtectedHeader)
    else Ok((h.kid.value, h.contentType.value))
  }

  function ParseProtected(b: Bytes): (r: Result<(Bytes, u64), CoseError>) {
    match Decode(b)
    case Err(e) => Err(Undecodable(e))
    case Ok(v) =>
      if !v.Map? || |v.entries| != 3 then Err(InvalidProtectedHeader)
      else
        var h :- HeaderOf(v.entries);
        CheckHeader(h)
  }

  method ReadProtected(b: Bytes) returns (r: Result<(Bytes, u64), CoseError>)
    ensures r == ParseProtected(b)
  {
    hide Decode, CheckHeader;
    var decoded := Decode(b);
    if decoded.Err? {
      return Err(Undecodable(decoded.error));
    }
    if !decoded.value.Map? || |decoded.value.entries| != 3 {
      return Err(InvalidProtectedHeader);
    }
    var entries := decoded.value.entries;
    var algorithm: Option<i64>, contentType: Option<u64>, kid: Option<Bytes> := None, None, None;
    var i := 0;
    while i < |entries|
      invariant i <= |entries| && HeaderOf(entries[..i]) == Ok(Header(algorithm, contentType, kid))
    {
      assert entries[..i + 1][..i] == entries[..i];
      match entries[i] {
        case Entry(Unsigned(key), value) =>
          if key == ALGORITHM_LABEL && value.Negative? {
            algorithm := Some(value.i);
          } else if key == CONTENT_TYPE_LABEL && value.Unsigned? {
            contentType := Some(value.n);
          } else if key == KID_LABEL && value.ByteString? {
            kid := Some(value.bytes);
          } else {
            HeaderFails(entries, i + 1);
            return Err(InvalidProtectedHeader);
          }
        case _ =>
          HeaderFails(entries, i + 1);
          return Err(InvalidProtectedHeader);
      }
      i := i + 1;
    }
    assert entries[..i] == entries;
    return CheckHeader(Header(algorithm, contentType, kid));
  }

  lemma {:induction false} HeaderFails(entries: seq<Entry>, i: nat)
    requires i <= |entries| && HeaderOf(entries[..i]).Err?
    ensures HeaderOf(entries) == HeaderOf(entries[..i])
  {
    if i == |entries| {
      assert entries[..i] == entries;
    } else {
      assert entries[..|entries| - 1][..i] == entries[..i];
      HeaderFails(entries[..|entries| - 1], i);
    }
  }

  // ----- the protected header has one form

  /** What each header field says, if it says anything. */
  function Slot(h: Header, k: u64): (v: Option<Value>) {
    if k == ALGORITHM_LABEL then (if h.algorithm.Some? then Some(Negative(h.algorithm.value)) else None)
    else if k == CONTENT_TYPE_LABEL then (if h.contentType.Some? then Some(Unsigned(h.contentType.value)) else None)
    else if k == KID_LABEL then (if h.kid.Some? then Some(ByteString(h.kid.value)) else None)
    else None
  }

  lemma {:induction false} HeaderIsFields(entries: seq<Entry>)
    requires HeaderOf(entries).Ok? && F.Collect(entries).Ok?
    ensures forall k: u64 :: k in F.Collect(entries).value <==> Slot(HeaderOf(entries).value, k).Some?
    ensures forall k: u64 :: k in F.Collect(entries).value ==> F.Collect(entries).value[k] == Slot(HeaderOf(entries).value, k).value
  {
    if entries != [] {
      HeaderIsFields(entries[..|entries| - 1]);
    }
  }

  /** Keys in canonical order are distinct, so a canonical map of integers is one to collect. */
  lemma {:induction false} IntegerKeys(entries: seq<Entry>)
    requires HeaderOf(entries).Ok?
    ensures forall i :: 0 <= i < |entries| ==> entries[i].key.Unsigned?
  {
    if entries != [] {
      var n := |entries| - 1;
      IntegerKeys(entries[..n]);
      assert forall i :: 0 <= i < n ==> entries[i] == entries[..n][i];
    }
  }

  function ProtectedFields(kid: Bytes, contentType: u64): (m: F.FieldMap) {
    map[ALGORITHM_LABEL := Negative(EDDSA), CONTENT_TYPE_LABEL := Unsigned(contentType), KID_LABEL := ByteString(kid)]
  }

  lemma ProtectedCollects(kid: Bytes, contentType: u64)
    ensures F.Collect(ProtectedEntries(kid, contentType)) == Ok(ProtectedFields(kid, contentType))
  {
    var entries := ProtectedEntries(kid, contentType);
    assert entries[..2] == [entries[0], entries[1]];
    assert entries[..2][..1] == [entries[0]];
    assert entries[..2][..1][..0] == [];
    assert F.Collect(entries[..2][..1]) == Ok(map[ALGORITHM_LABEL := Negative(EDDSA)]);
    assert F.Collect(entries[..2]) == Ok(map[ALGORITHM_LABEL := Negative(EDDSA), CONTENT_TYPE_LABEL := Unsigned(contentType)]);
  }

  predicate ProperEntry(e: Entry) {
    || (e.key == Unsigned(ALGORITHM_LABEL) && e.value.Negative?)
    || (e.key == Unsigned(CONTENT_TYPE_LABEL) && e.value.Unsigned?)
    || (e.key == Unsigned(KID_LABEL) && e.value.ByteString?)
  }

  lemma {:induction false} ProperHeader(entries: seq<Entry>)
    requires forall i :: 0 <= i < |entries| ==> ProperEntry(entries[i])
    ensures HeaderOf(entries).Ok?
  {
    if entries != [] {
      ProperHeader(entries[..|entries| - 1]);
    }
  }

  /** A protected header that parses is the one encoding of its key id and content type. */
  lemma ProtectedDecodeEncode(b: Bytes)
    requires ParseProtected(b).Ok?
    ensures ValidKid(ParseProtected(b).value.0)
    ensures ProtectedBytes(ParseProtected(b).value.0, ParseProtected(b).value.1) == Ok(b)
  {
    hide Decode, Encode, HeaderOf, F.Collect, ProtectedEntries, Slot;
    var v := Decode(b).value;
    var (kid, contentType) := ParseProtected(b).value;
    IntegerKeys(v.entries);
    F.DecodedMapCollects(b);
    HeaderIsFields(v.entries);
    SlotsOf(HeaderOf(v.entries).value, kid, contentType, F.Collect(v.entries).value);
    ProtectedCollects(kid, contentType);
    F.ReencodesFields(b, ProtectedEntries(kid, contentType));
  }

  lemma SlotsOf(h: Header, kid: Bytes, contentType: u64, m: F.FieldMap)
    requires CheckHeader(h) == Ok((kid, contentType))
    requires forall k: u64 :: k in m <==> Slot(h, k).Some?
    requires forall k: u64 :: k in m ==> m[k] == Slot(h, k).value
    ensures m == ProtectedFields(kid, contentType)
  {
  }

  lemma HeaderFromSlots(h: Header, kid: Bytes, contentType: u64)
    requires ValidKid(kid)
    requires forall k: u64 :: k in ProtectedFields(kid, contentType) <==> Slot(h, k).Some?
    requires forall k: u64 :: k in ProtectedFields(kid, contentType) ==> ProtectedFields(kid, contentType)[k] == Slot(h, k).value
    ensures CheckHeader(h) == Ok((kid, contentType))
  {
    assert Slot(h, ALGORITHM_LABEL).Some? && Slot(h, CONTENT_TYPE_LABEL).Some? && Slot(h, KID_LABEL).Some?;
  }

  lemma ProtectedEncodeDecode(kid: Bytes, contentType: u64)
    requires ProtectedBytes(kid, contentType).Ok?
    ensures ParseProtected(ProtectedBytes(kid, contentType).value) == Ok((kid, contentType))
  {
    hide Decode, Encode, HeaderOf, F.Collect, ProtectedEntries, Slot, CheckHeader, Normal, F.NormalFields;
    var b := ProtectedBytes(kid, contentType).value;
    var entries := ProtectedEntries(kid, contentType);
    ProtectedCollects(kid, contentType);
    F.DecodesFields(entries, b);
    ProtectedFieldsNormal(kid, contentType);
    var v := Decode(b).value;
    F.SameFieldsSameEntries(entries, v.entries);
    SameListing(entries, v.entries, kid, contentType);
    ProperHeader(v.entries);
    HeaderIsFields(v.entries);
    HeaderFromSlots(HeaderOf(v.entries).value, kid, contentType);
  }

  lemma ProtectedFieldsNormal(kid: Bytes, contentType: u64)
    ensures F.NormalFields(ProtectedFields(kid, contentType)) == ProtectedFields(kid, contentType)
  {
  }

  lemma SameListing(entries: seq<Entry>, others: seq<Entry>, kid: Bytes, contentType: u64)
    requires entries == ProtectedEntries(kid, contentType) && multiset(entries) == multiset(others)
    ensures |others| == 3 && forall i :: 0 <= i < 3 ==> ProperEntry(others[i])
  {
    assert |multiset(entries)| == |entries| && |multiset(others)| == |others|;
    forall i | 0 <= i < |others| ensures ProperEntry(others[i]) {
      assert others[i] in multiset(others);
      assert others[i] in entries;
    }
  }

  // ----- envelopes

  function EnvelopeValue(protected: Bytes, payload: Bytes, signature: Bytes): (v: Value) {
    Tag(SIGN1_TAG, Array([ByteString(protected), Value.Map([]), ByteString(payload), ByteString(signature)]))
  }

  function EncodeSign1(x: CoseSign1): (r: Result<Bytes, CoseError>) {
    var protected :- ProtectedBytes(x.kid, x.contentType);
    if x.protected != protected then Err(InvalidProtectedHeader)
    else Encoded(EnvelopeValue(protected, x.payload, x.signature))
  }

  function DecodeSign1(b: Bytes): (r: Result<CoseSign1, CoseError>) {
    match Decode(b)
    case Err(e) => Err(Undecodable(e))
    case Ok(v) =>
      if !v.Tag? || v.tag != SIGN1_TAG then Err(NotSign1)
      else if !v.item.Array? || |v.item.items| != 4 then Err(InvalidStructure)
      else
        var items := v.item.items;
        if !items[0].ByteString? || !items[1].Map? then Err(InvalidStructure)
        else if items[1].entries != [] then Err(UnprotectedHeaderPresent)
        else if !items[2].ByteString? || !items[3].ByteString? then Err(InvalidStructure)
        else if |items[3].bytes| != SIGNATURE_BYTES then Err(InvalidSignatureLength)
        else
          var (kid, contentType) :- ParseProtected(items[0].bytes);
          Ok(CoseSign1(kid, contentType, items[2].bytes, items[3].bytes, items[0].bytes))
  }

  lemma EnvelopeIsNormal(protected: Bytes, payload: Bytes, signature: Bytes)
    ensures Normal(EnvelopeValue(protected, payload, signature)) == EnvelopeValue(protected, payload, signature)
  {
    var items := [ByteString(protected), Value.Map([]), ByteString(payload), ByteString(signature)];
    assert Normal(Value.Map([])) == Value.Map([]);
    NormalItemsAt(items);
    assert NormalItems(items) == items;
  }

  lemma {:induction false} NormalItemsAt(items: seq<Value>)
    ensures forall i :: 0 <= i < |items| ==> NormalItems(items)[i] == Normal(items[i])
  {
    hide Normal;
    if items != [] {
      NormalItemsAt(items[1..]);
    }
  }

  /** An envelope that decodes encodes to the same bytes. */
  lemma Sign1DecodeEncode(b: Bytes)
    requires DecodeSign1(b).Ok?
    ensures EncodeSign1(DecodeSign1(b).value) == Ok(b)
  {
    hide Decode, Encode, ParseProtected, ProtectedBytes, Normal;
    var v := Decode(b).value;
    var items := v.item.items;
    ProtectedDecodeEncode(items[0].bytes);
    assert items == [ByteString(items[0].bytes), Value.Map([]), ByteString(items[2].bytes), ByteString(items[3].bytes)];
    DecodeThenEncode(b);
  }

  /** An envelope that encodes decodes to the same envelope. */
  lemma Sign1EncodeDecode(x: CoseSign1)
    requires EncodeSign1(x).Ok?
    ensures DecodeSign1(EncodeSign1(x).value) == Ok(x)
  {
    hide Decode, Encode, ParseProtected, ProtectedBytes, Normal;
    ProtectedEncodeDecode(x.kid, x.contentType);
    EnvelopeIsNormal(x.protected, x.payload, x.signature);
    EncodeExactly(EnvelopeValue(x.protected, x.payload, x.signature), EncodeSign1(x).value);
  }

  // ----- what is signed

  function ContextString(): (t: Utf8.Text) {
    Utf8.Literal("Signature1")
  }

  /** Section 4.4 of RFC 9052, with the domain label as the externally supplied data. */
  function SigStructure(protected: Bytes, domain: Digests.Domain, payload: Bytes): (v: Value) {
    Array([TextString(ContextString()), ByteString(protected), ByteString(Digests.Label(domain)), ByteString(payload)])
  }

  function SignedBytes(protected: Bytes, domain: Digests.Domain, payload: Bytes): (r: Result<Bytes, CoseError>) {
    Encoded(SigStructure(protected, domain, payload))
  }

  predicate IsString(v: Value) {
    v.ByteString? || v.TextString?
  }

  lemma {:induction false} StringsAreNormal(items: seq<Value>)
    requires forall i :: 0 <= i < |items| ==> IsString(items[i])
    ensures NormalItems(items) == items
  {
    if items != [] {
      assert IsString(items[0]);
      StringsAreNormal(items[1..]);
    }
  }

  lemma SigStructureIsNormal(protected: Bytes, domain: Digests.Domain, payload: Bytes)
    ensures Normal(SigStructure(protected, domain, payload)) == SigStructure(protected, domain, payload)
  {
    hide Digests.Label, ContextString, NormalItems;
    StringsAreNormal(SigStructure(protected, domain, payload).items);
  }

  /** The bytes that are signed determine the protected header, the domain and the payload. */
  lemma SignedBytesDetermine(p: Bytes, d: Digests.Domain, x: Bytes, q: Bytes, e: Digests.Domain, y: Bytes)
    requires SignedBytes(p, d, x).Ok? && SignedBytes(p, d, x) == SignedBytes(q, e, y)
    ensures p == q && d == e && x == y
  {
    hide Encode, Normal, Digests.Label;
    SigStructureIsNormal(p, d, x);
    SigStructureIsNormal(q, e, y);
    var v, w := SigStructure(p, d, x), SigStructure(q, e, y);
    EqualBytesIffSameNormalForm(v, w);
    assert v.items[1] == w.items[1] && v.items[2] == w.items[2] && v.items[3] == w.items[3];
    assert Digests.Label(d) + [] == Digests.Label(e) + [];
    Digests.LabelsArePrefixFree(d, [], e, []);
  }
}
