/** The deterministic CBOR profile: data model, limits, wire grammar and the parser it is read by. */
module Cbor {
  import opened ByteStrings
  import opened Results
  import Utf8

  datatype Value =
    | Unsigned(n: u64)
    | Negative(i: i64)
    | ByteString(bytes: Bytes)
    | TextString(utf8: Utf8.Text)
    | Array(items: seq<Value>)
    | Map(entries: seq<Entry>)
    | Tag(tag: u64, item: Value)
    | Bool(b: bool)
    | Null

  datatype Entry = Entry(key: Value, value: Value)

  datatype Limits = Limits(
    messageBytes: u64,
    nesting: nat,
    mapEntries: u64,
    arrayEntries: u64,
    byteStringBytes: u64,
    textStringBytes: u64)

  const DEFAULT_LIMITS := Limits(1_048_576, 16, 128, 16_384, 65_536, 16_384)
  const SIGN1_TAG: u64 := 18

  datatype Kind = ByteStringKind | TextStringKind | ArrayKind | MapKind

  datatype DecodeError =
    | MessageTooLarge
    | UnexpectedEof
    | UnsupportedType
    | UnsupportedTag(tag: u64)
    | IndefiniteLength
    | NonCanonicalInteger
    | NonCanonicalMapOrder
    | InvalidUtf8
    | NestingTooDeep
    | CollectionTooLarge(kind: Kind)
    | TrailingBytes
    | IntegerOutOfRange

  /** A parsed thing and the input left behind it. */
  datatype Parsed<+T> = Parsed(value: T, rest: Bytes)

  /** What a loop gives that has read `done` and will read `more`. */
  ghost function After<T, E>(done: seq<T>, more: Result<Parsed<seq<T>>, E>): (r: Result<Parsed<seq<T>>, E>) {
    match more
    case Ok(p) => Ok(Parsed(done + p.value, p.rest))
    case Err(e) => Err(e)
  }

  lemma AfterNothing<T, E>(more: Result<Parsed<seq<T>>, E>)
    ensures After([], more) == more
  {
    if more.Ok? {
      assert [] + more.value.value == more.value.value;
    }
  }

  /** Moves one element from what is still to come to what is done. */
  lemma AfterOne<T, E>(done: seq<T>, x: T, more: Result<Parsed<seq<T>>, E>)
    ensures After(done, After([x], more)) == After(done + [x], more)
  {
    if more.Ok? {
      assert done + ([x] + more.value.value) == done + [x] + more.value.value;
    }
  }

  // ----- heads

  /** The head of a data item: major type and argument, in the shortest form. */
  function Head(major: nat, n: nat): (h: Bytes)
    requires major <= 7
    ensures h != []
  {
    if n <= 23 then [32 * major + n]
    else if n <= 0xff then [32 * major + 24] + BigEndian(n, 1)
    else if n <= 0xffff then [32 * major + 25] + BigEndian(n, 2)
    else if n <= 0xffff_ffff then [32 * major + 26] + BigEndian(n, 4)
    else [32 * major + 27] + BigEndian(n, 8)
  }

  function Take(n: nat, s: Bytes): (r: Result<Parsed<Bytes>, DecodeError>) {
    if |s| < n then Err(UnexpectedEof) else Ok(Parsed(s[..n], s[n..]))
  }

  /** Bytes that follow the initial byte for each `additional` value. */
  function Width(additional: nat): (w: nat)
    requires 24 <= additional <= 27
  {
    if additional == 24 then 1 else if additional == 25 then 2 else if additional == 26 then 4 else 8
  }

  predicate Minimal(width: nat, n: nat) {
    if width == 1 then n >= 24 else if width == 2 then n > 0xff else if width == 4 then n > 0xffff else n > 0xffff_ffff
  }

  function Argument(additional: nat, s: Bytes): (r: Result<Parsed<u64>, DecodeError>) {
    if additional <= 23 then Ok(Parsed(additional, s))
    else if additional > 27 then Err(IndefiniteLength)
    else
      var w := Width(additional);
      var b :- Take(w, s);
      var n := FromBigEndian(b.value);
      ToFromBigEndian(b.value); Pow256Values();
      if Minimal(w, n) then Ok(Parsed(n, b.rest)) else Err(NonCanonicalInteger)
  }

  /** The low five bits of the initial byte for argument `n`. */
  function Additional(n: nat): (a: nat)
    ensures a < 28 && (a >= 24 <==> n > 23)
  {
    if n <= 23 then n else if n <= 0xff then 24 else if n <= 0xffff then 25 else if n <= 0xffff_ffff then 26 else 27
  }

  lemma HeadSplits(major: nat, n: u64)
    requires major <= 7
    ensures Head(major, n)[0] == 32 * major + Additional(n)
    ensures Head(major, n)[1..] == if n <= 23 then [] else BigEndian(n, Width(Additional(n)))
  {
  }

  lemma AdditionalOfMinimal(additional: nat, n: nat)
    requires 24 <= additional <= 27 && Minimal(Width(additional), n) && n < Pow256(Width(additional))
    ensures Additional(n) == additional
  {
    Pow256Values();
  }

  lemma WideArgument(additional: nat, s: Bytes)
    requires 24 <= additional <= 27 && Argument(additional, s).Ok?
    ensures var w, p := Width(additional), Argument(additional, s).value;
      && w <= |s| && p.rest == s[w..] && s[..w] == BigEndian(p.value, w)
      && Additional(p.value) == additional
  {
    var w := Width(additional);
    ToFromBigEndian(s[..w]);
    AdditionalOfMinimal(additional, FromBigEndian(s[..w]));
  }

  lemma ArgumentIsHead(major: nat, additional: nat, s: Bytes)
    requires major <= 7 && additional < 32 && Argument(additional, s).Ok?
    ensures var p := Argument(additional, s).value; [32 * major + additional] + s == Head(major, p.value) + p.rest
  {
    var p := Argument(additional, s).value;
    HeadSplits(major, p.value);
    var h := Head(major, p.value);
    assert h == [h[0]] + h[1..];
    if additional > 23 {
      WideArgument(additional, s);
      assert s == s[..Width(additional)] + p.rest;
    }
  }

  lemma ArgumentParses(additional: nat, n: u64, s: Bytes)
    requires 24 <= additional <= 27 && n < Pow256(Width(additional)) && Minimal(Width(additional), n)
    ensures Argument(additional, BigEndian(n, Width(additional)) + s) == Ok(Parsed(n, s))
  {
    var w := Width(additional);
    var t := BigEndian(n, w) + s;
    FromToBigEndian(n, w);
    assert t[..w] == BigEndian(n, w) && t[w..] == s;
  }

  lemma HeadParses(major: nat, n: u64, s: Bytes)
    requires major <= 7
    ensures var h := Head(major, n) + s;
      h[0] as int / 32 == major && h[0] as int % 32 < 28 && Argument(h[0] as int % 32, h[1..]) == Ok(Parsed(n, s))
  {
    hide BigEndian, FromBigEndian;
    var h := Head(major, n) + s;
    HeadSplits(major, n);
    assert h[1..] == Head(major, n)[1..] + s;
    if n > 23 {
      Pow256Values();
      ArgumentParses(Additional(n), n, s);
    } else {
      assert h[1..] == s;
    }
  }

  // ----- the parser, as a function of the remaining input

  function Item(s: Bytes, depth: nat, lim: Limits): (r: Result<Parsed<Value>, DecodeError>)
    decreases lim.nesting + 1 - depth, 0, 1
  {
    if depth > lim.nesting then Err(NestingTooDeep)
    else if s == [] then Err(UnexpectedEof)
    else
      var major, additional := s[0] as int / 32, s[0] as int % 32;
      if additional == 31 then Err(IndefiniteLength)
      else if major == 7 then Simple(additional, s[1..])
      else
        var n :- Argument(additional, s[1..]);
        Content(major, n.value, n.rest, depth, lim)
  }

  function Simple(additional: nat, s: Bytes): (r: Result<Parsed<Value>, DecodeError>) {
    if additional == 20 then Ok(Parsed(Bool(false), s))
    else if additional == 21 then Ok(Parsed(Bool(true), s))
    else if additional == 22 then Ok(Parsed(Null, s))
    else Err(UnsupportedType)
  }

  /** What follows a head of major type 0 to 6 with argument `n`. */
  function Content(major: nat, n: u64, s: Bytes, depth: nat, lim: Limits): (r: Result<Parsed<Value>, DecodeError>)
    requires major <= 6 && depth <= lim.nesting
    decreases lim.nesting + 1 - depth, 0, 0
  {
    match major
    case 0 => Ok(Parsed(Unsigned(n), s))
    case 1 => if n > I64_MAX then Err(IntegerOutOfRange) else Ok(Parsed(Negative(-1 - n as int), s))
    case 2 =>
      if n > lim.byteStringBytes then Err(CollectionTooLarge(ByteStringKind))
      else
        var b :- Take(n, s);
        Ok(Parsed(ByteString(b.value), b.rest))
    case 3 =>
      if n > lim.textStringBytes then Err(CollectionTooLarge(TextStringKind))
      else
        var b :- Take(n, s);
        if Utf8.WellFormed(b.value) then Ok(Parsed(TextString(b.value), b.rest)) else Err(InvalidUtf8)
    case 4 =>
      if n > lim.arrayEntries then Err(CollectionTooLarge(ArrayKind))
      else
        var xs :- Items(s, n, depth + 1, lim);
        Ok(Parsed(Array(xs.value), xs.rest))
    case 5 =>
      if n > lim.mapEntries then Err(CollectionTooLarge(MapKind))
      else
        var es :- Entries(s, n, depth + 1, None, lim);
        Ok(Parsed(Map(es.value), es.rest))
    case _ =>
      if n != SIGN1_TAG then Err(UnsupportedTag(n))
      else
        var x :- Item(s, depth + 1, lim);
        Ok(Parsed(Tag(n, x.value), x.rest))
  }

  function Items(s: Bytes, count: nat, depth: nat, lim: Limits): (r: Result<Parsed<seq<Value>>, DecodeError>)
    decreases lim.nesting + 1 - depth, 1, count
  {
    if count == 0 then Ok(Parsed([], s))
    else
      var x :- Item(s, depth, lim);
      var xs :- Items(x.rest, count - 1, depth, lim);
      Ok(Parsed([x.value] + xs.value, xs.rest))
  }

  /** The bytes of `s` in front of its suffix `rest`. */
  function Consumed(s: Bytes, rest: Bytes): (c: Bytes) {
    if |rest| <= |s| then s[..|s| - |rest|] else []
  }

  lemma ConsumedIsPrefix(a: Bytes, b: Bytes)
    ensures Consumed(a + b, b) == a
  {
  }

  /** Keys must ascend strictly; `previous` is the encoded key in front of these entries. */
  function Entries(s: Bytes, count: nat, depth: nat, previous: Option<Bytes>, lim: Limits): (r: Result<Parsed<seq<Entry>>, DecodeError>)
    decreases lim.nesting + 1 - depth, 1, count
  {
    if count == 0 then Ok(Parsed([], s))
    else
      var k :- Item(s, depth, lim);
      var keyBytes := Consumed(s, k.rest);
      if previous.Some? && !LengthFirstLt(previous.value, keyBytes) then Err(NonCanonicalMapOrder)
      else
        var x :- Item(k.rest, depth, lim);
        var es :- Entries(x.rest, count - 1, depth, Some(keyBytes), lim);
        Ok(Parsed([Entry(k.value, x.value)] + es.value, es.rest))
  }

  /** Reads one fully consumed value. */
  function DecodeWithLimits(input: Bytes, lim: Limits): (r: Result<Value, DecodeError>) {
    if |input| > lim.messageBytes then Err(MessageTooLarge)
    else
      var p :- Item(input, 0, lim);
      if p.rest != [] then Err(TrailingBytes) else Ok(p.value)
  }

  function Decode(input: Bytes): (r: Result<Value, DecodeError>) {
    DecodeWithLimits(input, DEFAULT_LIMITS)
  }

  // ----- the grammar: values in normal form and their one encoding

  /** The encoding of a value whose maps list their entries in key order. */
  function Raw(v: Value): (b: Bytes) {
    match v
    case Unsigned(n) => Head(0, n)
    case Negative(i) => if i < 0 then Head(1, -1 - i) else []
    case ByteString(b) => Head(2, |b|) + b
    case TextString(t) => Head(3, |t|) + t
    case Array(items) => Head(4, |items|) + RawItems(items)
    case Map(entries) => Head(5, |entries|) + RawEntries(entries)
    case Tag(tag, item) => Head(6, tag) + Raw(item)
    case Bool(b) => if b then [0xf5] else [0xf4]
    case Null => [0xf6]
  }

  function RawItems(items: seq<Value>): (b: Bytes) {
    if items == [] then [] else Raw(items[0]) + RawItems(items[1..])
  }

  function RawEntries(entries: seq<Entry>): (b: Bytes) {
    if entries == [] then [] else RawEntry(entries[0]) + RawEntries(entries[1..])
  }

  function RawEntry(e: Entry): (b: Bytes) {
    match e
    case Entry(key, value) => Raw(key) + Raw(value)
  }

  /** Normal form within the limits: what may appear on the wire at nesting level `depth`. */
  predicate Canonical(v: Value, depth: nat, lim: Limits)
    decreases v
  {
    depth <= lim.nesting &&
    match v
    case Unsigned(_) => true
    case Negative(i) => i < 0
    case ByteString(b) => |b| <= lim.byteStringBytes
    case TextString(t) => |t| <= lim.textStringBytes
    case Array(items) => |items| <= lim.arrayEntries && CanonicalItems(items, depth + 1, lim)
    case Map(entries) => |entries| <= lim.mapEntries && CanonicalEntries(entries, depth + 1, None, lim)
    case Tag(tag, item) => tag == SIGN1_TAG && Canonical(item, depth + 1, lim)
    case Bool(_) => true
    case Null => true
  }

  predicate CanonicalItems(items: seq<Value>, depth: nat, lim: Limits)
    decreases items
  {
    items == [] || (Canonical(items[0], depth, lim) && CanonicalItems(items[1..], depth, lim))
  }

  predicate CanonicalEntries(entries: seq<Entry>, depth: nat, previous: Option<Bytes>, lim: Limits)
    decreases entries
  {
    entries == [] ||
    (&& CanonicalEntry(entries[0], depth, lim)
     && (previous.Some? ==> LengthFirstLt(previous.value, Raw(entries[0].key)))
     && CanonicalEntries(entries[1..], depth, Some(Raw(entries[0].key)), lim))
  }

  predicate CanonicalEntry(e: Entry, depth: nat, lim: Limits)
    decreases e
  {
    match e
    case Entry(key, value) => Canonical(key, depth, lim) && Canonical(value, depth, lim)
  }

  // ----- what the parser accepts is exactly the grammar

  lemma RawItemsCons(x: Value, xs: seq<Value>, rest: Bytes)
    ensures RawItems([x] + xs) + rest == Raw(x) + (RawItems(xs) + rest)
  {
    assert ([x] + xs)[1..] == xs;
  }

  lemma RawEntriesCons(key: Value, value: Value, es: seq<Entry>, rest: Bytes)
    ensures RawEntries([Entry(key, value)] + es) + rest == Raw(key) + (Raw(value) + (RawEntries(es) + rest))
  {
    assert ([Entry(key, value)] + es)[1..] == es;
  }

  lemma {:induction false} ItemSound(s: Bytes, depth: nat, lim: Limits)
    requires Item(s, depth, lim).Ok?
    ensures var p := Item(s, depth, lim).value; Canonical(p.value, depth, lim) && s == Raw(p.value) + p.rest
    decreases lim.nesting + 1 - depth, 0, 1
  {
    assert s == [s[0]] + s[1..];
    var major, additional := s[0] as int / 32, s[0] as int % 32;
    if major < 7 {
      ArgumentIsHead(major, additional, s[1..]);
      var n := Argument(additional, s[1..]).value;
      ContentSound(major, n.value, n.rest, depth, lim);
    }
  }

  lemma {:induction false} ContentSound(major: nat, n: u64, s: Bytes, depth: nat, lim: Limits)
    requires major <= 6 && depth <= lim.nesting
    requires Content(major, n, s, depth, lim).Ok?
    ensures var p := Content(major, n, s, depth, lim).value;
      Canonical(p.value, depth, lim) && Head(major, n) + s == Raw(p.value) + p.rest
    decreases lim.nesting + 1 - depth, 0, 0
  {
    match major
    case 0 =>
    case 1 =>
    case 2 => assert s == s[..n] + s[n..];
    case 3 => assert s == s[..n] + s[n..];
    case 4 => ItemsSound(s, n, depth + 1, lim);
    case 5 => EntriesSound(s, n, depth + 1, None, lim);
    case 6 => ItemSound(s, depth + 1, lim);
  }

  lemma {:induction false} ItemsSound(s: Bytes, count: nat, depth: nat, lim: Limits)
    requires Items(s, count, depth, lim).Ok?
    ensures var p := Items(s, count, depth, lim).value;
      |p.value| == count && CanonicalItems(p.value, depth, lim) && s == RawItems(p.value) + p.rest
    decreases lim.nesting + 1 - depth, 1, count
  {
    if count > 0 {
      ItemSound(s, depth, lim);
      var x := Item(s, depth, lim).value;
      ItemsSound(x.rest, count - 1, depth, lim);
      var xs := Items(x.rest, count - 1, depth, lim).value;
      RawItemsCons(x.value, xs.value, xs.rest);
      assert ([x.value] + xs.value)[1..] == xs.value;
    }
  }

  lemma EntrySound(s: Bytes, k: Parsed<Value>, x: Parsed<Value>, es: Parsed<seq<Entry>>)
    requires s == Raw(k.value) + k.rest && k.rest == Raw(x.value) + x.rest && x.rest == RawEntries(es.value) + es.rest
    ensures s == RawEntries([Entry(k.value, x.value)] + es.value) + es.rest
  {
    RawEntriesCons(k.value, x.value, es.value, es.rest);
  }

  /** One step of `Entries`, as a relation between its parts. */
  lemma EntriesStep(s: Bytes, count: nat, depth: nat, previous: Option<Bytes>, lim: Limits)
      returns (k: Parsed<Value>, x: Parsed<Value>, es: Parsed<seq<Entry>>)
    requires count > 0 && Entries(s, count, depth, previous, lim).Ok?
    ensures Item(s, depth, lim) == Ok(k) && Item(k.rest, depth, lim) == Ok(x)
    ensures Entries(x.rest, count - 1, depth, Some(Consumed(s, k.rest)), lim) == Ok(es)
    ensures previous.Some? ==> LengthFirstLt(previous.value, Consumed(s, k.rest))
    ensures Entries(s, count, depth, previous, lim).value == Parsed([Entry(k.value, x.value)] + es.value, es.rest)
  {
    k := Item(s, depth, lim).value;
    x := Item(k.rest, depth, lim).value;
    es := Entries(x.rest, count - 1, depth, Some(Consumed(s, k.rest)), lim).value;
  }

  lemma {:induction false} EntriesSound(s: Bytes, count: nat, depth: nat, previous: Option<Bytes>, lim: Limits)
    requires Entries(s, count, depth, previous, lim).Ok?
    ensures var p := Entries(s, count, depth, previous, lim).value;
      |p.value| == count && CanonicalEntries(p.value, depth, previous, lim) && s == RawEntries(p.value) + p.rest
    decreases lim.nesting + 1 - depth, 1, count
  {
    hide Argument; hide Head; hide Item; hide LengthFirstLt; hide Canonical; hide Raw;
    if count > 0 {
      var k, x, es := EntriesStep(s, count, depth, previous, lim);
      ItemSound(s, depth, lim);
      ConsumedIsPrefix(Raw(k.value), k.rest);
      ItemSound(k.rest, depth, lim);
      EntriesSound(x.rest, count - 1, depth, Some(Raw(k.value)), lim);
      var p := Entries(s, count, depth, previous, lim).value;
      assert p == Parsed([Entry(k.value, x.value)] + es.value, es.rest);
      CanonicalEntriesCons(Entry(k.value, x.value), es.value, depth, previous, lim);
      EntrySound(s, k, x, es);
    }
  }

  lemma CanonicalEntriesCons(e: Entry, es: seq<Entry>, depth: nat, previous: Option<Bytes>, lim: Limits)
    requires Canonical(e.key, depth, lim) && Canonical(e.value, depth, lim)
    requires previous.Some? ==> LengthFirstLt(previous.value, Raw(e.key))
    requires CanonicalEntries(es, depth, Some(Raw(e.key)), lim)
    ensures CanonicalEntries([e] + es, depth, previous, lim)
  {
    assert ([e] + es)[1..] == es;
  }

  lemma HeadThen(major: nat, n: u64, s: Bytes, depth: nat, lim: Limits)
    requires major <= 6 && depth <= lim.nesting
    ensures Item(Head(major, n) + s, depth, lim) == Content(major, n, s, depth, lim)
  {
    HeadParses(major, n, s);
  }

  lemma HeadBodyThen(major: nat, n: u64, body: Bytes, rest: Bytes, depth: nat, lim: Limits)
    requires major <= 6 && depth <= lim.nesting
    ensures Item(Head(major, n) + body + rest, depth, lim) == Content(major, n, body + rest, depth, lim)
  {
    assert Head(major, n) + body + rest == Head(major, n) + (body + rest);
    HeadThen(major, n, body + rest, depth, lim);
  }

  // Major type, argument and content of a value that has a head.

  predicate Headed(v: Value) {
    !v.Bool? && !v.Null?
  }

  function Major(v: Value): (m: nat)
    requires Headed(v)
    ensures m <= 6
  {
    match v
    case Unsigned(_) => 0
    case Negative(_) => 1
    case ByteString(_) => 2
    case TextString(_) => 3
    case Array(_) => 4
    case Map(_) => 5
    case Tag(_, _) => 6
  }

  function Arg(v: Value): (n: int)
    requires Headed(v)
  {
    match v
    case Unsigned(n) => n
    case Negative(i) => -1 - i as int
    case ByteString(b) => |b|
    case TextString(t) => |t|
    case Array(items) => |items|
    case Map(entries) => |entries|
    case Tag(tag, _) => tag
  }

  function Body(v: Value): (b: Bytes)
    requires Headed(v)
  {
    match v
    case Unsigned(_) => []
    case Negative(_) => []
    case ByteString(b) => b
    case TextString(t) => t
    case Array(items) => RawItems(items)
    case Map(entries) => RawEntries(entries)
    case Tag(_, item) => Raw(item)
  }

  lemma RawHasHead(v: Value, depth: nat, lim: Limits)
    requires Headed(v) && Canonical(v, depth, lim)
    ensures 0 <= Arg(v) < U64_LIMIT && Raw(v) == Head(Major(v), Arg(v)) + Body(v)
  {
  }

  lemma ItemReadsHead(v: Value, rest: Bytes, depth: nat, lim: Limits)
    requires Headed(v) && Canonical(v, depth, lim)
    ensures 0 <= Arg(v) < U64_LIMIT
    ensures Item(Raw(v) + rest, depth, lim) == Content(Major(v), Arg(v), Body(v) + rest, depth, lim)
  {
    RawHasHead(v, depth, lim);
    HeadBodyThen(Major(v), Arg(v), Body(v), rest, depth, lim);
  }

  lemma {:induction false} ItemComplete(v: Value, rest: Bytes, depth: nat, lim: Limits)
    requires Canonical(v, depth, lim)
    ensures Item(Raw(v) + rest, depth, lim) == Ok(Parsed(v, rest))
    decreases v, 1
  {
    if Headed(v) {
      ItemReadsHead(v, rest, depth, lim);
      ContentComplete(v, rest, depth, lim);
    } else {
      SimpleComplete(v, rest, depth, lim);
    }
  }

  lemma SimpleComplete(v: Value, rest: Bytes, depth: nat, lim: Limits)
    requires !Headed(v) && depth <= lim.nesting
    ensures Item(Raw(v) + rest, depth, lim) == Ok(Parsed(v, rest))
  {
    assert (Raw(v) + rest)[1..] == rest;
  }

  lemma {:induction false} ContentComplete(v: Value, rest: Bytes, depth: nat, lim: Limits)
    requires Headed(v) && Canonical(v, depth, lim)
    ensures 0 <= Arg(v) < U64_LIMIT
    ensures Content(Major(v), Arg(v), Body(v) + rest, depth, lim) == Ok(Parsed(v, rest))
    decreases v, 0
  {
    match v {
      case Unsigned(n) => assert Body(v) + rest == rest;
      case Negative(i) => assert Body(v) + rest == rest;
      case ByteString(b) => assert (b + rest)[..|b|] == b && (b + rest)[|b|..] == rest;
      case TextString(t) => assert (t + rest)[..|t|] == t && (t + rest)[|t|..] == rest;
      case Array(items) => ItemsComplete(items, rest, depth + 1, lim);
      case Map(entries) => EntriesComplete(entries, rest, depth + 1, None, lim);
      case Tag(tag, item) => ItemComplete(item, rest, depth + 1, lim);
    }
  }

  lemma {:induction false} ItemsComplete(items: seq<Value>, rest: Bytes, depth: nat, lim: Limits)
    requires CanonicalItems(items, depth, lim)
    ensures Items(RawItems(items) + rest, |items|, depth, lim) == Ok(Parsed(items, rest))
    decreases items
  {
    if items == [] {
      assert RawItems(items) + rest == rest;
    } else {
      assert items == [items[0]] + items[1..];
      RawItemsCons(items[0], items[1..], rest);
      ItemComplete(items[0], RawItems(items[1..]) + rest, depth, lim);
      ItemsComplete(items[1..], rest, depth, lim);
    }
  }

  lemma {:induction false} EntriesComplete(entries: seq<Entry>, rest: Bytes, depth: nat, previous: Option<Bytes>, lim: Limits)
    requires CanonicalEntries(entries, depth, previous, lim)
    ensures Entries(RawEntries(entries) + rest, |entries|, depth, previous, lim) == Ok(Parsed(entries, rest))
    decreases entries
  {
    if entries == [] {
      assert RawEntries(entries) + rest == rest;
    } else {
      var key, tail := entries[0].key, RawEntries(entries[1..]) + rest;
      assert entries == [entries[0]] + entries[1..];
      RawEntriesCons(key, entries[0].value, entries[1..], rest);
      EntryComplete(entries[0], tail, depth, lim);
      EntriesComplete(entries[1..], rest, depth, Some(Raw(key)), lim);
    }
  }

  lemma {:induction false} EntryComplete(e: Entry, tail: Bytes, depth: nat, lim: Limits)
    requires CanonicalEntry(e, depth, lim)
    ensures Item(Raw(e.key) + (Raw(e.value) + tail), depth, lim) == Ok(Parsed(e.key, Raw(e.value) + tail))
    ensures Item(Raw(e.value) + tail, depth, lim) == Ok(Parsed(e.value, tail))
    ensures Consumed(Raw(e.key) + (Raw(e.value) + tail), Raw(e.value) + tail) == Raw(e.key)
    decreases e
  {
    match e
    case Entry(key, value) =>
      ItemComplete(key, Raw(value) + tail, depth, lim);
      ItemComplete(value, tail, depth, lim);
  }

  /** The parser accepts `s` as `v`, leaving `rest`, exactly when `s` is the one encoding of the normal form `v`
      followed by `rest`. */
  lemma ItemExactly(s: Bytes, v: Value, rest: Bytes, depth: nat, lim: Limits)
    ensures Item(s, depth, lim) == Ok(Parsed(v, rest)) <==> Canonical(v, depth, lim) && s == Raw(v) + rest
  {
    if Item(s, depth, lim) == Ok(Parsed(v, rest)) {
      ItemSound(s, depth, lim);
    }
    if Canonical(v, depth, lim) && s == Raw(v) + rest {
      ItemComplete(v, rest, depth, lim);
    }
  }

  lemma DecodeExactly(input: Bytes, v: Value, lim: Limits)
    ensures DecodeWithLimits(input, lim) == Ok(v)
      <==> Canonical(v, 0, lim) && input == Raw(v) && |input| <= lim.messageBytes
  {
    ItemExactly(input, v, [], 0, lim);
    assert Raw(v) + [] == Raw(v);
  }

  /** No two byte strings decode to the same value. */
  lemma OneEncodingPerValue(a: Bytes, b: Bytes)
    requires Decode(a).Ok? && Decode(a) == Decode(b)
    ensures a == b
  {
    DecodeExactly(a, Decode(a).value, DEFAULT_LIMITS);
    DecodeExactly(b, Decode(a).value, DEFAULT_LIMITS);
  }

  /** No accepted message is a proper prefix of another, under any limits. */
  lemma AcceptedInputsArePrefixFree(a: Bytes, b: Bytes, la: Limits, lb: Limits)
    requires DecodeWithLimits(a, la).Ok? && DecodeWithLimits(b, lb).Ok? && a <= b
    ensures a == b
  {
    var va, vb := DecodeWithLimits(a, la).value, DecodeWithLimits(b, lb).value;
    DecodeExactly(a, va, la);
    DecodeExactly(b, vb, lb);
    var most := Wider(la, lb);
    CanonicalWidens(va, 0, la, 0, most);
    CanonicalWidens(vb, 0, lb, 0, most);
    ItemExactly(b, va, b[|a|..], 0, most);
    ItemExactly(b, vb, [], 0, most);
  }

  function Max(a: nat, b: nat): (m: nat)
    ensures m == a || m == b
    ensures m >= a && m >= b
  {
    if a < b then b else a
  }

  function Wider(a: Limits, b: Limits): (c: Limits)
    ensures NoWider(a, c) && NoWider(b, c)
  {
    Limits(Max(a.messageBytes, b.messageBytes), Max(a.nesting, b.nesting), Max(a.mapEntries, b.mapEntries),
      Max(a.arrayEntries, b.arrayEntries), Max(a.byteStringBytes, b.byteStringBytes), Max(a.textStringBytes, b.textStringBytes))
  }

  predicate NoWider(a: Limits, b: Limits) {
    && a.nesting <= b.nesting && a.mapEntries <= b.mapEntries && a.arrayEntries <= b.arrayEntries
    && a.byteStringBytes <= b.byteStringBytes && a.textStringBytes <= b.textStringBytes
  }

  /** Limits only ever cut off: less depth and wider limits keep a value canonical. */
  lemma {:induction false} CanonicalWidens(v: Value, depth: nat, lim: Limits, depth': nat, lim': Limits)
    requires Canonical(v, depth, lim) && depth' <= depth && NoWider(lim, lim')
    ensures Canonical(v, depth', lim')
    decreases v
  {
    match v
    case Array(items) => ItemsWiden(items, depth + 1, lim, depth' + 1, lim');
    case Map(entries) => EntriesWiden(entries, depth + 1, None, lim, depth' + 1, lim');
    case Tag(_, item) => CanonicalWidens(item, depth + 1, lim, depth' + 1, lim');
    case _ =>
  }

  lemma {:induction false} ItemsWiden(items: seq<Value>, depth: nat, lim: Limits, depth': nat, lim': Limits)
    requires CanonicalItems(items, depth, lim) && depth' <= depth && NoWider(lim, lim')
    ensures CanonicalItems(items, depth', lim')
    decreases items
  {
    if items != [] {
      CanonicalWidens(items[0], depth, lim, depth', lim');
      ItemsWiden(items[1..], depth, lim, depth', lim');
    }
  }

  lemma {:induction false} EntriesWiden(entries: seq<Entry>, depth: nat, previous: Option<Bytes>, lim: Limits, depth': nat, lim': Limits)
    requires CanonicalEntries(entries, depth, previous, lim) && depth' <= depth && NoWider(lim, lim')
    ensures CanonicalEntries(entries, depth', previous, lim')
    decreases entries
  {
    if entries != [] {
      EntryWidens(entries[0], depth, lim, depth', lim');
      EntriesWiden(entries[1..], depth, Some(Raw(entries[0].key)), lim, depth', lim');
    }
  }

  lemma {:induction false} EntryWidens(e: Entry, depth: nat, lim: Limits, depth': nat, lim': Limits)
    requires CanonicalEntry(e, depth, lim) && depth' <= depth && NoWider(lim, lim')
    ensures CanonicalEntry(e, depth', lim')
    decreases e
  {
    match e
    case Entry(key, value) =>
      CanonicalWidens(key, depth, lim, depth', lim');
      CanonicalWidens(value, depth, lim, depth', lim');
  }
}
