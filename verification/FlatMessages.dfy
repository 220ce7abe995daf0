/** The messages whose fields are all required and listed in order: one table of field kinds for each. */
module FlatMessages {
  import opened ByteStrings
  import opened Results
  import opened Cbor
  import opened CborEncoding
  import opened Fields
  import Utf8

  datatype Kind = Number | Time | Blob(least: nat, most: nat) | Words(most: nat) | Many | Record

  datatype Schema = Receipt | PlanManifest | EnrollmentStatement | ServiceKeyset | RevocationEvent

  const DIGEST: Kind := Blob(32, 32)
  const ID: Kind := Blob(16, 16)

  /** The kinds of fields 2, 3 and so on; field 1 is the version. */
  function Kinds(s: Schema): (kinds: seq<Kind>)
    ensures |kinds| <= 11
  {
    match s
    case Receipt => [ID, ID, DIGEST, DIGEST, Number, Many, Record, Record, Time, Time, Number]
    case PlanManifest => [DIGEST, Many, Record, DIGEST, Time, Record, Record]
    case EnrollmentStatement => [DIGEST, ID, DIGEST, Many, DIGEST, DIGEST, Words(253), Words(255), Number, Time]
    case ServiceKeyset => [Number, Time, Many, Blob(8, 32), Time]
    case RevocationEvent => [ID, Blob(1, 1024), Time, ID, Number, Number]
  }

  /** A field as the message holds it. */
  datatype Part = N(n: u64) | T(i: i64) | B(bytes: Bytes) | W(text: Utf8.Text) | L(items: seq<Value>) | M(entries: seq<Entry>)

  type Message = seq<Part>

  function ValueOf(p: Part): (v: Value) {
    match p
    case N(n) => Unsigned(n)
    case T(i) => Signed(i)
    case B(b) => ByteString(b)
    case W(t) => TextString(t)
    case L(items) => Array(items)
    case M(entries) => Value.Map(entries)
  }

  /** Whether a part is of a kind at all, whatever its length. */
  predicate Shape(p: Part, kind: Kind) {
    match kind
    case Number => p.N?
    case Time => p.T?
    case Blob(_, _) => p.B?
    case Words(_) => p.W?
    case Many => p.L?
    case Record => p.M?
  }

  predicate Fits(p: Part, kind: Kind)
    ensures Fits(p, kind) ==> Shape(p, kind)
  {
    match kind
    case Number => p.N?
    case Time => p.T?
    case Blob(least, most) => p.B? && least <= |p.bytes| <= most
    case Words(most) => p.W? && 1 <= |p.text| <= most
    case Many => p.L?
    case Record => p.M?
  }

  function Read(m: FieldMap, k: u64, kind: Kind): (r: Result<Part, SchemaError>) {
    match kind
    case Number =>
      var n :- RequiredUnsigned(m, k);
      Ok(N(n))
    case Time =>
      var i :- RequiredSigned(m, k);
      Ok(T(i))
    case Blob(least, most) =>
      var b :- RequiredBounded(m, k, least, most);
      Ok(B(b))
    case Words(most) =>
      var t :- RequiredText(m, k, most);
      var words :- NonEmpty(t, k);
      Ok(W(words))
    case Many =>
      var v :- Required(m, k);
      if v.Array? then Ok(L(v.items)) else Err(WrongType(k))
    case Record =>
      var v :- Required(m, k);
      if v.Map? then Ok(M(v.entries)) else Err(WrongType(k))
  }

  function ReadAll(m: FieldMap, kinds: seq<Kind>): (r: Result<Message, SchemaError>)
    requires |kinds| <= 11
    ensures r.Ok? ==> |r.value| == |kinds|
  {
    if kinds == [] then Ok([])
    else
      var earlier :- ReadAll(m, kinds[..|kinds| - 1]);
      var last :- Read(m, |kinds| + 1, kinds[|kinds| - 1]);
      Ok(earlier + [last])
  }

  function UpTo(n: nat): (s: set<u64>)
    requires n < U64_LIMIT
    ensures forall k: u64 :: k in s <==> 1 <= k <= n
  {
    if n == 0 then {} else UpTo(n - 1) + {n}
  }

  function FromFields(s: Schema, m: FieldMap): (r: Result<Message, SchemaError>) {
    var _ :- RejectUnknown(m, UpTo(|Kinds(s)| + 1));
    var _ :- Version(m);
    ReadAll(m, Kinds(s))
  }

  function Values(x: Message): (values: seq<Value>)
    ensures |values| == |x| + 1 && values[0] == Unsigned(VERSION)
    ensures forall i :: 0 <= i < |x| ==> values[i + 1] == ValueOf(x[i])
  {
    [Unsigned(VERSION)] + seq(|x|, i requires 0 <= i < |x| => ValueOf(x[i]))
  }

  /** The checks between fields: a receipt completes no earlier than it was created, a keyset expires after it was issued. */
  function Check(s: Schema, x: Message): (r: Result<(), SchemaError>) {
    if s.Receipt? && |x| == 11 && x[8].T? && x[9].T? && x[9].i < x[8].i then Err(InvalidField(11))
    else if s.ServiceKeyset? && |x| == 5 && x[1].T? && x[4].T? && x[4].i <= x[1].i then Err(InvalidField(6))
    else Ok(())
  }

  function Validate(s: Schema, x: Message): (r: Result<(), SchemaError>)
    requires |x| <= 11
  {
    var m :- Collect(Consecutive(1, Values(x)));
    var y :- FromFields(s, m);
    Check(s, y)
  }

  function DecodeMessage(s: Schema, b: Bytes): (r: Result<Message, SchemaError>) {
    var m :- CborFields(b);
    var x :- FromFields(s, m);
    var _ :- Validate(s, x);
    Ok(x)
  }

  function MessageBytes(s: Schema, x: Message): (r: Result<Bytes, SchemaError>)
    requires |x| <= 11
  {
    var _ :- Validate(s, x);
    EncodeEntries(Consecutive(1, Values(x)))
  }

  // ----- one field

  lemma ReadSound(m: FieldMap, k: u64, kind: Kind)
    requires Read(m, k, kind).Ok? && ProperNegatives(m)
    ensures k in m && m[k] == ValueOf(Read(m, k, kind).value) && Fits(Read(m, k, kind).value, kind)
  {
    hide RequiredUnsigned, RequiredSigned, RequiredBounded, RequiredText, Required;
  }

  lemma ReadBack(m: FieldMap, k: u64, kind: Kind, p: Part)
    requires k in m && m[k] == ValueOf(p) && Fits(p, kind)
    ensures Read(m, k, kind) == Ok(p)
  {
    hide RequiredUnsigned, RequiredBounded, RequiredText, Required;
  }

  // ----- whole messages

  predicate AllFit(x: Message, kinds: seq<Kind>) {
    |x| == |kinds| && forall i :: 0 <= i < |x| ==> Fits(x[i], kinds[i])
  }

  lemma {:induction false} ReadAllSound(m: FieldMap, kinds: seq<Kind>)
    requires |kinds| <= 11 && ReadAll(m, kinds).Ok? && ProperNegatives(m)
    ensures var x := ReadAll(m, kinds).value;
      AllFit(x, kinds) && forall k: u64 :: 2 <= k < |kinds| + 2 ==> k in m && m[k] == ValueOf(x[k - 2])
  {
    hide Read, Fits, ValueOf, ProperNegatives;
    if kinds != [] {
      var n := |kinds| - 1;
      ReadAllSound(m, kinds[..n]);
      ReadSound(m, n + 2, kinds[n]);
      var x, earlier := ReadAll(m, kinds).value, ReadAll(m, kinds[..n]).value;
      assert x[n] == Read(m, n + 2, kinds[n]).value;
      forall i | 0 <= i < n ensures Fits(x[i], kinds[i]) && x[i] == earlier[i] {
        assert kinds[i] == kinds[..n][i];
      }
    }
  }

  lemma {:induction false} ReadAllBack(m: FieldMap, kinds: seq<Kind>, x: Message)
    requires |kinds| <= 11 && AllFit(x, kinds)
    requires forall k: u64 :: 2 <= k < |x| + 2 ==> k in m && m[k] == ValueOf(x[k - 2])
    ensures ReadAll(m, kinds) == Ok(x)
  {
    hide Read, Fits, ValueOf;
    if kinds != [] {
      var n := |kinds| - 1;
      assert forall i :: 0 <= i < n ==> x[..n][i] == x[i] && kinds[..n][i] == kinds[i];
      ReadAllBack(m, kinds[..n], x[..n]);
      ReadBack(m, n + 2, kinds[n], x[n]);
      assert x == x[..n] + [x[n]];
    } else {
      assert x == [];
    }
  }

  lemma FromFieldsSound(s: Schema, m: FieldMap)
    requires FromFields(s, m).Ok? && ProperNegatives(m)
    ensures AllFit(FromFields(s, m).value, Kinds(s))
    ensures m == Block(1, Values(FromFields(s, m).value))
  {
    hide Kinds, ReadAll, Values, Block, ProperNegatives, Fits, UpTo, ValueOf;
    var x := FromFields(s, m).value;
    var values := Values(x);
    ReadAllSound(m, Kinds(s));
    forall k: u64 | 1 <= k <= |values| ensures k in m && m[k] == values[k - 1] {
      if k > 1 {
        assert values[(k - 2) + 1] == ValueOf(x[k - 2]);
      }
    }
    forall k | k in m ensures 1 <= k <= |values| {
    }
  }

  lemma FromFieldsBack(s: Schema, x: Message)
    requires AllFit(x, Kinds(s))
    ensures FromFields(s, Block(1, Values(x))) == Ok(x)
  {
    hide Kinds, ReadAll, Values, Block, Fits, UpTo, ValueOf;
    var m, values := Block(1, Values(x)), Values(x);
    forall k: u64 | 2 <= k < |x| + 2 ensures k in m && m[k] == ValueOf(x[k - 2]) {
      assert m[k] == values[(k - 2) + 1];
    }
    assert m[1] == values[0];
    ReadAllBack(m, Kinds(s), x);
  }

  /** Every message of every such schema that decodes encodes to the same bytes. */
  lemma DecodeEncode(s: Schema, b: Bytes)
    requires DecodeMessage(s, b).Ok?
    ensures |DecodeMessage(s, b).value| <= 11 && MessageBytes(s, DecodeMessage(s, b).value) == Ok(b)
  {
    hide CborFields, FromFields, Validate, EncodeEntries, Collect, Values, NormalFields;
    var x := DecodeMessage(s, b).value;
    DecodedFields(b);
    FromFieldsSound(s, CborFields(b).value);
    ConsecutiveCollects(1, Values(x));
    Reencodes(b, Consecutive(1, Values(x)));
  }

  // ----- normal form

  function NormalPart(p: Part): (q: Part) {
    match p
    case L(items) => L(NormalItems(items))
    case M(entries) => (match Normal(Value.Map(entries)) case Map(es) => M(es) case _ => p)
    case _ => p
  }

  lemma NormalPartIs(p: Part, kind: Kind)
    ensures Normal(ValueOf(p)) == ValueOf(NormalPart(p))
    ensures (Fits(p, kind) ==> Fits(NormalPart(p), kind)) && (Shape(p, kind) ==> Shape(NormalPart(p), kind))
  {
  }

  function NormalMessage(x: Message): (y: Message)
    ensures |y| == |x| && forall i :: 0 <= i < |x| ==> y[i] == NormalPart(x[i])
  {
    seq(|x|, i requires 0 <= i < |x| => NormalPart(x[i]))
  }

  lemma NormalBlock(x: Message)
    requires |x| <= 11
    ensures NormalFields(Block(1, Values(x))) == Block(1, Values(NormalMessage(x)))
  {
    hide Block, Normal, NormalPart, ValueOf, Values, NormalMessage;
    var y := NormalMessage(x);
    var m, n := Block(1, Values(x)), Block(1, Values(y));
    SimpleIsNormal(Unsigned(VERSION));
    forall k | k in m ensures Normal(m[k]) == n[k] {
      assert m[k] == Values(x)[k - 1] && n[k] == Values(y)[k - 1];
      if k > 1 {
        assert Values(x)[(k - 2) + 1] == ValueOf(x[k - 2]) && Values(y)[(k - 2) + 1] == ValueOf(y[k - 2]);
        NormalPartIs(x[k - 2], Number);
      }
    }
  }

  lemma NormalFits(x: Message, kinds: seq<Kind>)
    requires AllFit(x, kinds)
    ensures AllFit(NormalMessage(x), kinds)
  {
    hide Fits, NormalPart;
    forall i | 0 <= i < |x| ensures Fits(NormalMessage(x)[i], kinds[i]) {
      NormalPartIs(x[i], kinds[i]);
    }
  }

  lemma CheckIgnoresNormal(s: Schema, x: Message)
    ensures Check(s, NormalMessage(x)) == Check(s, x)
  {
    hide Normal, NormalItems;
  }

  /** What a typed message is: a part of the right shape for every field. */
  predicate Shaped(s: Schema, x: Message) {
    |x| == |Kinds(s)| && forall i :: 0 <= i < |x| ==> Shape(x[i], Kinds(s)[i])
  }

  /** A message that validates has parts of the right kinds, and reads back as itself. */
  lemma ValidMessage(s: Schema, x: Message)
    requires Shaped(s, x)
    ensures Validate(s, x).Ok? ==> AllFit(x, Kinds(s)) && Check(s, x).Ok?
    ensures AllFit(x, Kinds(s)) && Check(s, x).Ok? ==> Validate(s, x).Ok?
  {
    hide FromFields, Collect, Values, Kinds, Check, Fits, Block;
    ConsecutiveCollects(1, Values(x));
    ProperValues(x);
    if Validate(s, x).Ok? {
      var y := FromFields(s, Block(1, Values(x))).value;
      FromFieldsSound(s, Block(1, Values(x)));
      ValuesInjective(x, y);
      forall i | 0 <= i < |x| ensures x[i] == y[i] {
        SameShape(x[i], y[i], Kinds(s)[i]);
      }
      assert x == y;
    }
    if AllFit(x, Kinds(s)) {
      FromFieldsBack(s, x);
    }
  }

  lemma ProperValues(x: Message)
    requires |x| <= 11
    ensures ProperNegatives(Block(1, Values(x)))
  {
    hide Block, Values;
    var m := Block(1, Values(x));
    forall k | k in m && m[k].Negative? ensures m[k].i < 0 {
      assert m[k] == Values(x)[k - 1];
      if k > 1 {
        assert Values(x)[(k - 2) + 1] == ValueOf(x[k - 2]);
      }
    }
  }

  lemma SameShape(p: Part, q: Part, kind: Kind)
    requires ValueOf(p) == ValueOf(q) && Shape(p, kind) && Shape(q, kind)
    ensures p == q
  {
  }

  lemma ValuesInjective(x: Message, y: Message)
    requires |x| <= 11 && |y| <= 11 && Block(1, Values(x)) == Block(1, Values(y))
    ensures |x| == |y| && forall i :: 0 <= i < |x| ==> ValueOf(x[i]) == ValueOf(y[i])
  {
    hide Block, Values, ValueOf;
    var m := Block(1, Values(x));
    SameLength(x, y);
    forall i | 0 <= i < |x| ensures ValueOf(x[i]) == ValueOf(y[i]) {
      assert Values(x)[i + 1] == ValueOf(x[i]) && Values(y)[i + 1] == ValueOf(y[i]);
      assert i + 2 in m && m[i + 2] == Values(x)[i + 1] && m[i + 2] == Values(y)[i + 1];
    }
  }

  lemma SameLength(x: Message, y: Message)
    requires |x| <= 11 && |y| <= 11 && Block(1, Values(x)) == Block(1, Values(y))
    ensures |x| == |y|
  {
    hide Block, Values;
    LastKey(x);
    LastKey(y);
  }

  lemma LastKey(x: Message)
    requires |x| <= 11
    ensures forall k: u64 :: k in Block(1, Values(x)) <==> 1 <= k <= |x| + 1
    ensures |x| + 1 in Block(1, Values(x)) && |x| + 2 !in Block(1, Values(x))
  {
    hide Block, Values;
  }

  lemma FittingIsShaped(s: Schema, x: Message)
    requires AllFit(x, Kinds(s))
    ensures Shaped(s, x)
  {
    hide Fits, Shape, Kinds;
  }

  /** What encodes decodes to the same message, with its nested values in normal form. */
  lemma EncodeDecode(s: Schema, x: Message)
    requires Shaped(s, x) && MessageBytes(s, x).Ok?
    ensures DecodeMessage(s, MessageBytes(s, x).value) == Ok(NormalMessage(x))
  {
    hide CborFields, FromFields, Validate, EncodeEntries, Collect, Values, NormalFields, Kinds, NormalMessage, AllFit, Check;
    var entries := Consecutive(1, Values(x));
    ConsecutiveCollects(1, Values(x));
    Redecodes(entries);
    NormalBlock(x);
    ValidMessage(s, x);
    NormalFits(x, Kinds(s));
    FromFieldsBack(s, NormalMessage(x));
    CheckIgnoresNormal(s, x);
    FittingIsShaped(s, NormalMessage(x));
    ValidMessage(s, NormalMessage(x));
  }
}
