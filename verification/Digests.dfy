/** Domain-separated digests of encoded values. */
module Digests {
  import opened ByteStrings
  import opened Results
  import opened Cbor
  import opened CborEncoding

  datatype Domain =
    | Request | AptPlan | Decision | WebAuthnChallenge | Enrollment
    | ServiceKeyset | DecisionAccepted | Revocation | Receipt

  function LabelText(d: Domain): string {
    match d
    case Request => "rootpermit/v1/request\0"
    case AptPlan => "rootpermit/v1/apt-plan\0"
    case Decision => "rootpermit/v1/decision\0"
    case WebAuthnChallenge => "rootpermit/v1/webauthn.challenge\0"
    case Enrollment => "rootpermit/v1/enrollment\0"
    case ServiceKeyset => "rootpermit/v1/service-keyset\0"
    case DecisionAccepted => "rootpermit/v1/decision-accepted\0"
    case Revocation => "rootpermit/v1/revocation\0"
    case Receipt => "rootpermit/v1/receipt\0"
  }

  function Label(d: Domain): (b: Bytes) {
    Ascii(LabelText(d))
  }

  /** What a digest of `v` in a domain is taken of. */
  function Preimage(d: Domain, v: Value): (r: Result<Bytes, EncodeError>) {
    var encoded :- Encode(v);
    Ok(Label(d) + encoded)
  }

  /** Three characters that tell the labels apart: the third where it is needed. */
  function Marks(d: Domain): (m: (char, char, char)) {
    match d
    case Request => ('r', 'q', ' ')
    case AptPlan => ('a', 't', '\0')
    case Decision => ('d', 'c', '\0')
    case WebAuthnChallenge => ('w', 'b', '.')
    case Enrollment => ('e', 'r', 'n')
    case ServiceKeyset => ('s', 'r', 'k')
    case DecisionAccepted => ('d', 'c', '-')
    case Revocation => ('r', 'v', 'o')
    case Receipt => ('r', 'c', ' ')
  }

  lemma LabelMarks(d: Domain)
    ensures |Label(d)| > 16 && Label(d)[14] == Marks(d).0 as int && Label(d)[16] == Marks(d).1 as int
    ensures if d.Request? || d.Receipt? then |Label(d)| == 22 else |Label(d)| > 22 && Label(d)[22] == Marks(d).2 as int
  {
    hide Ascii;
  }

  /** Labels of different domains differ within the length of both, so neither begins the other. */
  lemma LabelsDiffer(d: Domain, x: Bytes, e: Domain, y: Bytes)
    requires d != e
    ensures Label(d) + x != Label(e) + y
  {
    hide Label;
    LabelMarks(d);
    LabelMarks(e);
    var a, b := Label(d), Label(e);
    assert (a + x)[14] == a[14] && (b + y)[14] == b[14] && (a + x)[16] == a[16] && (b + y)[16] == b[16];
    assert |a| > 22 && |b| > 22 ==> (a + x)[22] == a[22] && (b + y)[22] == b[22];
  }

  lemma LabelsArePrefixFree(d: Domain, x: Bytes, e: Domain, y: Bytes)
    requires Label(d) + x == Label(e) + y
    ensures d == e && x == y
  {
    hide Label;
    if d != e {
      LabelsDiffer(d, x, e, y);
    } else {
      SplitAt(Label(d), x, Label(e), y);
    }
  }

  /** Domain separation: no hash input serves two domains, or two values with different normal forms. */
  lemma PreimagesSeparate(d: Domain, v: Value, e: Domain, w: Value)
    requires Preimage(d, v).Ok? && Preimage(d, v) == Preimage(e, w)
    ensures d == e && Normal(v) == Normal(w)
  {
    hide Label, Encode, Normal;
    LabelsArePrefixFree(d, Encode(v).value, e, Encode(w).value);
    EqualBytesIffSameNormalForm(v, w);
  }
}
