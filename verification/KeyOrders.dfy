/** The order of map keys on the wire, length-first, against the bytewise order that RFC 8949 makes its core profile. */
module KeyOrders {
  import opened ByteStrings
  import opened Results
  import opened Sorting
  import opened Cbor
  import opened CborEncoding

  // ----- the bytewise order of encodings, without encoding

  /** The major type; booleans and null are of type 7. */
  function Class(v: Value): (c: nat)
    ensures c <= 7
  {
    if Headed(v) then Major(v) else 7
  }

  /** The argument: a number, a length, a tag, or which simple value. */
  function Weight(v: Value): (w: int) {
    match v
    case Bool(b) => if b then 21 else 20
    case Null => 22
    case _ => Arg(v)
  }

  function Contents(v: Value): (b: Bytes) {
    if Headed(v) then Body(v) else []
  }

  /** Section 4.2.1 of RFC 8949 puts `a` before `b`: by major type, by argument, and then by what they contain. */
  predicate Precedes(a: Value, b: Value)
    decreases a
  {
    if Class(a) != Class(b) then Class(a) < Class(b)
    else if Weight(a) != Weight(b) then Weight(a) < Weight(b)
    else
      match a
      case ByteString(bytes) => LexLt(bytes, b.bytes)
      case TextString(utf8) => LexLt(utf8, b.utf8)
      case Array(items) => ItemsPrecede(items, b.items)
      case Map(entries) => EntriesPrecede(entries, b.entries)
      case Tag(_, item) => Precedes(item, b.item)
      case _ => false
  }

  predicate ItemsPrecede(a: seq<Value>, b: seq<Value>)
    requires |a| == |b|
    decreases a
  {
    a != [] && if a[0] == b[0] then ItemsPrecede(a[1..], b[1..]) else Precedes(a[0], b[0])
  }

  predicate EntriesPrecede(a: seq<Entry>, b: seq<Entry>)
    requires |a| == |b|
    decreases a
  {
    a != [] && if a[0] == b[0] then EntriesPrecede(a[1..], b[1..]) else EntryPrecedes(a[0], b[0])
  }

  predicate EntryPrecedes(a: Entry, b: Entry)
    decreases a
  {
    match a
    case Entry(key, value) => if key == b.key then Precedes(value, b.value) else Precedes(key, b.key)
  }

  lemma RawParts(v: Value, depth: nat, lim: Limits)
    requires Canonical(v, depth, lim)
    ensures 0 <= Weight(v) < U64_LIMIT && Raw(v) == Head(Class(v), Weight(v)) + Contents(v)
  {
    if Headed(v) {
      RawHasHead(v, depth, lim);
    }
  }

  /** Where heads differ they decide, whatever follows. */
  lemma HeadsDecide(major: nat, m: u64, major': nat, n: u64, x: Bytes, y: Bytes)
    requires major <= 7 && major' <= 7 && (major < major' || (major == major' && m < n))
    ensures LexLt(Head(major, m) + x, Head(major', n) + y)
  {
    hide Head, LexLt;
    var a, b := Head(major, m), Head(major', n);
    HeadSplits(major, m);
    HeadSplits(major', n);
    LexStep(a + x, b + y);
    if a[0] == b[0] {
      SmallerArgumentIsFirst(major, m, n);
      LexLtExtends(a, b, x, y);
    }
  }

  lemma HeadsOrder(major: nat, m: u64, major': nat, n: u64, x: Bytes, y: Bytes)
    requires major <= 7 && major' <= 7 && (major != major' || m != n)
    ensures LexLt(Head(major, m) + x, Head(major', n) + y) <==> if major != major' then major < major' else m < n
  {
    hide Head, LexLt;
    LexTrichotomy(Head(major, m) + x, Head(major', n) + y);
    if (if major != major' then major < major' else m < n) {
      HeadsDecide(major, m, major', n, x, y);
    } else {
      HeadsDecide(major', n, major, m, y, x);
    }
  }

  lemma {:induction false} CommonPrefix(p: Bytes, x: Bytes, y: Bytes)
    ensures LexLt(p + x, p + y) <==> LexLt(x, y)
  {
    if p == [] {
      assert p + x == x && p + y == y;
    } else {
      assert (p + x)[1..] == p[1..] + x && (p + y)[1..] == p[1..] + y;
      CommonPrefix(p[1..], x, y);
    }
  }

  /** Strings of one length that differ decide, whatever follows. */
  lemma SameLengthDecides(a: Bytes, b: Bytes, x: Bytes, y: Bytes)
    requires |a| == |b| && a != b
    ensures LexLt(a + x, b + y) <==> LexLt(a, b)
  {
    hide LexLt;
    LexTrichotomy(a, b);
    LexTrichotomy(a + x, b + y);
    if LexLt(a, b) {
      LexLtExtends(a, b, x, y);
    } else {
      LexLtExtends(b, a, y, x);
    }
  }

  /** Encodings compare bytewise as `Precedes` says, whatever follows them. */
  lemma {:induction false} RawPrecedes(a: Value, b: Value, x: Bytes, y: Bytes, depth: nat, lim: Limits)
    requires Canonical(a, depth, lim) && Canonical(b, depth, lim) && a != b
    ensures LexLt(Raw(a) + x, Raw(b) + y) <==> Precedes(a, b)
    decreases a
  {
    hide LexLt, Head, Raw, RawItems, RawEntries, CanonicalItems, CanonicalEntries, ItemsPrecede, EntriesPrecede;
    RawParts(a, depth, lim);
    RawParts(b, depth, lim);
    var h, i := Head(Class(a), Weight(a)), Head(Class(b), Weight(b));
    assert Raw(a) + x == h + (Contents(a) + x) && Raw(b) + y == i + (Contents(b) + y);
    if Class(a) != Class(b) || Weight(a) != Weight(b) {
      HeadsOrder(Class(a), Weight(a), Class(b), Weight(b), Contents(a) + x, Contents(b) + y);
    } else {
      CommonPrefix(h, Contents(a) + x, Contents(b) + y);
      match a {
        case ByteString(bytes) => SameLengthDecides(bytes, b.bytes, x, y);
        case TextString(utf8) => SameLengthDecides(utf8, b.utf8, x, y);
        case Array(items) => RawItemsPrecede(items, b.items, x, y, depth + 1, lim);
        case Map(entries) => RawEntriesPrecede(entries, b.entries, x, y, depth + 1, None, lim);
        case Tag(_, item) => RawPrecedes(item, b.item, x, y, depth + 1, lim);
        case _ =>
      }
    }
  }

  lemma {:induction false} RawItemsPrecede(a: seq<Value>, b: seq<Value>, x: Bytes, y: Bytes, depth: nat, lim: Limits)
    requires CanonicalItems(a, depth, lim) && CanonicalItems(b, depth, lim) && |a| == |b| && a != b
    ensures LexLt(RawItems(a) + x, RawItems(b) + y) <==> ItemsPrecede(a, b)
    decreases a
  {
    hide LexLt, Raw, Canonical, Precedes;
    assert a == [a[0]] + a[1..] && b == [b[0]] + b[1..];
    RawItemsCons(a[0], a[1..], x);
    RawItemsCons(b[0], b[1..], y);
    if a[0] == b[0] {
      CommonPrefix(Raw(a[0]), RawItems(a[1..]) + x, RawItems(b[1..]) + y);
      RawItemsPrecede(a[1..], b[1..], x, y, depth, lim);
    } else {
      RawPrecedes(a[0], b[0], RawItems(a[1..]) + x, RawItems(b[1..]) + y, depth, lim);
    }
  }

  lemma {:induction false} RawEntriesPrecede(a: seq<Entry>, b: seq<Entry>, x: Bytes, y: Bytes, depth: nat, previous: Option<Bytes>, lim: Limits)
    requires CanonicalEntries(a, depth, previous, lim) && CanonicalEntries(b, depth, previous, lim) && |a| == |b| && a != b
    ensures LexLt(RawEntries(a) + x, RawEntries(b) + y) <==> EntriesPrecede(a, b)
    decreases a
  {
    hide LexLt, Raw, CanonicalEntry, EntryPrecedes, LengthFirstLt;
    assert a == [a[0]] + a[1..] && b == [b[0]] + b[1..];
    var s, t := RawEntries(a[1..]) + x, RawEntries(b[1..]) + y;
    assert RawEntries(a) + x == RawEntry(a[0]) + s && RawEntries(b) + y == RawEntry(b[0]) + t;
    if a[0] == b[0] {
      CommonPrefix(RawEntry(a[0]), s, t);
      RawEntriesPrecede(a[1..], b[1..], x, y, depth, Some(Raw(a[0].key)), lim);
    } else {
      RawEntryPrecedes(a[0], b[0], s, t, depth, lim);
    }
  }

  lemma {:induction false} RawEntryPrecedes(a: Entry, b: Entry, x: Bytes, y: Bytes, depth: nat, lim: Limits)
    requires CanonicalEntry(a, depth, lim) && CanonicalEntry(b, depth, lim) && a != b
    ensures LexLt(RawEntry(a) + x, RawEntry(b) + y) <==> EntryPrecedes(a, b)
    decreases a
  {
    hide LexLt, Raw, Canonical, Precedes;
    match a
    case Entry(key, value) =>
      assert RawEntry(a) + x == Raw(key) + (Raw(value) + x) && RawEntry(b) + y == Raw(b.key) + (Raw(b.value) + y);
      if key == b.key {
        CommonPrefix(Raw(key), Raw(value) + x, Raw(b.value) + y);
        RawPrecedes(value, b.value, x, y, depth, lim);
      } else {
        RawPrecedes(key, b.key, Raw(value) + x, Raw(b.value) + y, depth, lim);
      }
  }

  /** The bytewise order of two encodings, told from the values. */
  lemma BytewiseOrder(a: Value, b: Value, depth: nat, lim: Limits)
    requires Canonical(a, depth, lim) && Canonical(b, depth, lim) && a != b
    ensures LexLt(Raw(a), Raw(b)) <==> Precedes(a, b)
  {
    hide *;
    RawPrecedes(a, b, [], [], depth, lim);
    assert Raw(a) + [] == Raw(a) && Raw(b) + [] == Raw(b);
  }

  // ----- when the two orders agree

  /** Bytewise `a` goes first, but its encoding is the longer one. */
  predicate OutOfStep(a: Value, b: Value) {
    Precedes(a, b) && |Raw(a)| > |Raw(b)|
  }

  predicate Scalar(v: Value) {
    !v.Array? && !v.Map? && !v.Tag?
  }

  lemma OrdersAgreeExactly(a: Value, b: Value, depth: nat, lim: Limits)
    requires Canonical(a, depth, lim) && Canonical(b, depth, lim)
    ensures (LengthFirstLt(Raw(a), Raw(b)) <==> LexLt(Raw(a), Raw(b))) <==> !OutOfStep(a, b) && !OutOfStep(b, a)
  {
    hide LexLt, Raw, Canonical, Precedes;
    if a != b {
      BytewiseOrder(a, b, depth, lim);
      BytewiseOrder(b, a, depth, lim);
      LexTrichotomy(Raw(a), Raw(b));
      if Raw(a) == Raw(b) {
        CanonicalWidens(a, depth, lim, 0, lim);
        CanonicalWidens(b, depth, lim, 0, lim);
        RawIsInjective(a, lim, b, lim);
      }
    }
  }

  lemma HeadLengths(major: nat, m: u64, n: u64)
    requires major <= 7 && m < n
    ensures |Head(major, m)| <= |Head(major, n)|
  {
    hide Head, LexLt;
    SmallerArgumentIsFirst(major, m, n);
  }

  /** Within one major type a scalar that goes first is not the longer one. */
  lemma ScalarsInStep(a: Value, b: Value, depth: nat, lim: Limits)
    requires Canonical(a, depth, lim) && Canonical(b, depth, lim) && Scalar(a) && Scalar(b)
    ensures OutOfStep(a, b) <==> Class(a) < Class(b) && |Raw(a)| > |Raw(b)|
  {
    hide Head, Raw, LexLt;
    RawParts(a, depth, lim);
    RawParts(b, depth, lim);
    if Class(a) == Class(b) && Weight(a) < Weight(b) {
      HeadLengths(Class(a), Weight(a), Weight(b));
    }
  }

  /**
   * Keys that are numbers, strings, booleans or null stand alike in both orders unless one has the lower major type and
   * the longer encoding.
   */
  lemma ScalarOrdersAgreeExactly(a: Value, b: Value, depth: nat, lim: Limits)
    requires Canonical(a, depth, lim) && Canonical(b, depth, lim) && Scalar(a) && Scalar(b)
    ensures (LengthFirstLt(Raw(a), Raw(b)) <==> LexLt(Raw(a), Raw(b)))
       <==> !(Class(a) < Class(b) && |Raw(a)| > |Raw(b)|) && !(Class(b) < Class(a) && |Raw(b)| > |Raw(a)|)
  {
    hide LexLt, Raw, Canonical, OutOfStep;
    OrdersAgreeExactly(a, b, depth, lim);
    ScalarsInStep(a, b, depth, lim);
    ScalarsInStep(b, a, depth, lim);
  }

  // ----- when an encoded map is in the core profile

  ghost predicate AllInStep(keys: seq<Value>) {
    forall i, j :: 0 <= i < |keys| && 0 <= j < |keys| ==> !OutOfStep(keys[i], keys[j])
  }

  function KeysOf(entries: seq<Entry>): (keys: seq<Value>)
    ensures |keys| == |entries| && forall i :: 0 <= i < |keys| ==> keys[i] == entries[i].key
  {
    seq(|entries|, i requires 0 <= i < |entries| => entries[i].key)
  }

  function NormalKeys(entries: seq<Entry>): (keys: seq<Value>)
    ensures |keys| == |entries| && forall i :: 0 <= i < |keys| ==> keys[i] == Normal(entries[i].key)
  {
    seq(|entries|, i requires 0 <= i < |entries| => Normal(entries[i].key))
  }

  /** A map's entries as they go on the wire. */
  function Emitted(entries: seq<Entry>): (es: seq<Entry>)
    ensures |es| == |entries| && Normal(Value.Map(entries)) == Value.Map(es)
  {
    ItemsOf(Sort(NormalEntries(entries), LengthFirstLt))
  }

  lemma CanonicalKey(e: Entry, depth: nat, lim: Limits)
    requires CanonicalEntry(e, depth, lim)
    ensures Canonical(e.key, depth, lim)
  {
  }

  /** Entries in length-first order are in bytewise order exactly when no two of their keys are out of step. */
  lemma AscendBytewise(entries: seq<Entry>, depth: nat, lim: Limits)
    requires CanonicalEntries(entries, depth, None, lim)
    ensures StrictlyAscending(OwnKeys(entries), LexLt) <==> AllInStep(KeysOf(entries))
  {
    hide LexLt, Raw, Canonical, CanonicalEntries, CanonicalEntry, OutOfStep;
    CanonicalEntriesAreStrict(entries, depth, None, lim);
    var s, keys := OwnKeys(entries), KeysOf(entries);
    forall i, j | 0 <= i < j < |entries|
      ensures LexLt(s[i].key, s[j].key) <==> !OutOfStep(keys[i], keys[j]) && !OutOfStep(keys[j], keys[i])
    {
      assert LengthFirstLt(s[i].key, s[j].key);
      CanonicalKey(entries[i], depth, lim);
      CanonicalKey(entries[j], depth, lim);
      OrdersAgreeExactly(keys[i], keys[j], depth, lim);
    }
    forall i | 0 <= i < |entries| ensures !OutOfStep(keys[i], keys[i]) {
      InStepWithItself(keys[i]);
    }
  }

  lemma InStepWithItself(v: Value)
    ensures !OutOfStep(v, v)
  {
  }

  /** Sorting a map's entries permutes its normalised keys. */
  lemma SortedKeys(entries: seq<Entry>, i: nat)
    requires i < |entries|
    ensures KeysOf(Emitted(entries))[i] in NormalKeys(entries)
    ensures NormalKeys(entries)[i] in KeysOf(Emitted(entries))
  {
    hide LengthFirstLt, NormalEntries, Raw;
    EachNormalEntry(entries);
    var n := NormalEntries(entries);
    var s := Sort(n, LengthFirstLt);
    assert s[i] in multiset(n) && n[i] in multiset(s);
    var j :| 0 <= j < |n| && n[j] == s[i];
    assert NormalKeys(entries)[j] == KeysOf(ItemsOf(s))[i];
    var k :| 0 <= k < |s| && s[k] == n[i];
    assert KeysOf(ItemsOf(s))[k] == NormalKeys(entries)[i];
  }

  lemma StepsOfSorted(entries: seq<Entry>)
    ensures AllInStep(KeysOf(Emitted(entries))) <==> AllInStep(NormalKeys(entries))
  {
    hide Emitted, Normal, OutOfStep;
    var a, b := NormalKeys(entries), KeysOf(Emitted(entries));
    forall i | 0 <= i < |entries| ensures a[i] in b && b[i] in a {
      SortedKeys(entries, i);
    }
    if AllInStep(a) {
      forall i, j | 0 <= i < |b| && 0 <= j < |b| ensures !OutOfStep(b[i], b[j]) {
        assert b[i] in a && b[j] in a;
      }
    }
    if AllInStep(b) {
      forall i, j | 0 <= i < |a| && 0 <= j < |a| ensures !OutOfStep(a[i], a[j]) {
        assert a[i] in b && a[j] in b;
      }
    }
  }

  /**
   * What an encoded map emits is its normal form, length-first; its keys also ascend bytewise exactly when no two of its
   * keys are out of step.
   */
  lemma MapAscendsExactly(entries: seq<Entry>)
    requires Encode(Value.Map(entries)).Ok?
    ensures Encode(Value.Map(entries)).value == Raw(Value.Map(Emitted(entries)))
    ensures StrictlyAscending(OwnKeys(Emitted(entries)), LexLt) <==> AllInStep(NormalKeys(entries))
  {
    hide LexLt, Raw, Encode, CanonicalEntries, OutOfStep, AllInStep, Emitted, Normal;
    EncodeExactly(Value.Map(entries), Encode(Value.Map(entries)).value);
    AscendBytewise(Emitted(entries), 1, DEFAULT_LIMITS);
    StepsOfSorted(entries);
  }

  /** For scalar keys, before any encoding: exactly when none has the lower major type and the longer encoding. */
  lemma ScalarMapAscendsExactly(entries: seq<Entry>)
    requires Encode(Value.Map(entries)).Ok? && forall e :: e in entries ==> Scalar(e.key)
    ensures StrictlyAscending(OwnKeys(Emitted(entries)), LexLt)
       <==> forall a, b :: a in entries && b in entries ==> !(Class(a.key) < Class(b.key) && |Raw(a.key)| > |Raw(b.key)|)
  {
    hide LexLt, Raw, Encode, Canonical, OutOfStep, Scalar, Class, Emitted, Normal, StrictlyAscending, OwnKeys;
    MapAscendsExactly(entries);
    var keys := NormalKeys(entries);
    forall i | 0 <= i < |entries| ensures keys[i] == entries[i].key && Canonical(keys[i], 1, DEFAULT_LIMITS) {
      ScalarIsNormal(entries[i].key);
      EncodedKeyIsCanonical(entries, i);
    }
    forall i, j | 0 <= i < |entries| && 0 <= j < |entries|
      ensures OutOfStep(keys[i], keys[j]) <==> Class(entries[i].key) < Class(entries[j].key) && |Raw(entries[i].key)| > |Raw(entries[j].key)|
    {
      assert entries[i] in entries && entries[j] in entries;
      ScalarsInStep(keys[i], keys[j], 1, DEFAULT_LIMITS);
    }
    if AllInStep(keys) {
      forall a, b | a in entries && b in entries ensures !(Class(a.key) < Class(b.key) && |Raw(a.key)| > |Raw(b.key)|) {
        var i :| 0 <= i < |entries| && entries[i] == a;
        var j :| 0 <= j < |entries| && entries[j] == b;
        assert !OutOfStep(keys[i], keys[j]);
      }
    } else {
      var i, j :| 0 <= i < |keys| && 0 <= j < |keys| && OutOfStep(keys[i], keys[j]);
      assert entries[i] in entries && entries[j] in entries;
    }
  }

  lemma ScalarIsNormal(v: Value)
    requires Scalar(v)
    ensures Normal(v) == v
  {
  }

  lemma EncodedKeyIsCanonical(entries: seq<Entry>, i: nat)
    requires Encode(Value.Map(entries)).Ok? && i < |entries|
    ensures Canonical(NormalKeys(entries)[i], 1, DEFAULT_LIMITS)
  {
    hide Raw, Encode, CanonicalEntries, CanonicalEntry, LengthFirstLt, LexLt, Emitted, Normal, StrictlyAscending, OwnKeys;
    EncodeExactly(Value.Map(entries), Encode(Value.Map(entries)).value);
    var es := Emitted(entries);
    CanonicalEntriesAreStrict(es, 1, None, DEFAULT_LIMITS);
    SortedKeys(entries, i);
    var j :| 0 <= j < |es| && KeysOf(es)[j] == NormalKeys(entries)[i];
    CanonicalKey(es[j], 1, DEFAULT_LIMITS);
  }

  // ----- every map, at every depth

  /** Section 4.2.1 of RFC 8949: the keys of every map ascend bytewise. */
  ghost predicate CoreProfile(v: Value)
    decreases v
  {
    match v
    case Array(items) => CoreItems(items)
    case Map(entries) => StrictlyAscending(OwnKeys(entries), LexLt) && CoreEntries(entries)
    case Tag(_, item) => CoreProfile(item)
    case _ => true
  }

  ghost predicate CoreItems(items: seq<Value>)
    decreases items
  {
    items == [] || (CoreProfile(items[0]) && CoreItems(items[1..]))
  }

  ghost predicate CoreEntries(entries: seq<Entry>)
    decreases entries
  {
    entries == [] || (CoreEntry(entries[0]) && CoreEntries(entries[1..]))
  }

  ghost predicate CoreEntry(e: Entry)
    decreases e
  {
    match e
    case Entry(key, value) => CoreProfile(key) && CoreProfile(value)
  }

  /** No map anywhere in the value has two keys out of step. */
  ghost predicate InStep(v: Value)
    decreases v
  {
    match v
    case Array(items) => ItemsInStep(items)
    case Map(entries) => AllInStep(NormalKeys(entries)) && EntriesInStep(entries)
    case Tag(_, item) => InStep(item)
    case _ => true
  }

  ghost predicate ItemsInStep(items: seq<Value>)
    decreases items
  {
    items == [] || (InStep(items[0]) && ItemsInStep(items[1..]))
  }

  ghost predicate EntriesInStep(entries: seq<Entry>)
    decreases entries
  {
    entries == [] || (EntryInStep(entries[0]) && EntriesInStep(entries[1..]))
  }

  ghost predicate EntryInStep(e: Entry)
    decreases e
  {
    match e
    case Entry(key, value) => InStep(key) && InStep(value)
  }

  lemma {:induction false} CoreEntriesAll(entries: seq<Entry>)
    ensures CoreEntries(entries) <==> forall i :: 0 <= i < |entries| ==> CoreEntry(entries[i])
  {
    hide CoreEntry;
    if entries != [] {
      CoreEntriesAll(entries[1..]);
      assert forall i :: 0 < i < |entries| ==> entries[i] == entries[1..][i - 1];
    }
  }

  lemma {:induction false} EntriesInStepAll(entries: seq<Entry>)
    ensures EntriesInStep(entries) <==> forall i :: 0 <= i < |entries| ==> EntryInStep(entries[i])
  {
    hide EntryInStep;
    if entries != [] {
      EntriesInStepAll(entries[1..]);
      assert forall i :: 0 < i < |entries| ==> entries[i] == entries[1..][i - 1];
    }
  }

  /** Sorting permutes the normalised entries. */
  lemma SortedEntries(entries: seq<Entry>, i: nat) returns (j: nat, k: nat)
    requires i < |entries|
    ensures j < |entries| && Emitted(entries)[i] == NormalEntry(entries[j]).item
    ensures k < |entries| && Emitted(entries)[k] == NormalEntry(entries[i]).item
  {
    hide LengthFirstLt, NormalEntries, NormalEntry, Normal, Raw;
    EachNormalEntry(entries);
    var n := NormalEntries(entries);
    var s := Sort(n, LengthFirstLt);
    assert s[i] in multiset(n) && n[i] in multiset(s);
    j :| 0 <= j < |n| && n[j] == s[i];
    k :| 0 <= k < |s| && s[k] == n[i];
    assert Emitted(entries) == ItemsOf(s);
  }

  lemma {:induction false} ProfileOf(v: Value, depth: nat)
    requires Canonical(Normal(v), depth, DEFAULT_LIMITS)
    ensures CoreProfile(Normal(v)) <==> InStep(v)
    decreases v, 0
  {
    hide LexLt, Raw, CanonicalItems, CanonicalEntries, CoreItems, CoreEntries, ItemsInStep, EntriesInStep, StrictlyAscending, AllInStep, Sort;
    match v
    case Array(items) => ProfileOfItems(items, depth + 1);
    case Map(entries) => ProfileOfMap(entries, depth + 1);
    case Tag(_, item) => ProfileOf(item, depth + 1);
    case _ =>
  }

  lemma {:induction false} ProfileOfItems(items: seq<Value>, depth: nat)
    requires CanonicalItems(NormalItems(items), depth, DEFAULT_LIMITS)
    ensures CoreItems(NormalItems(items)) <==> ItemsInStep(items)
    decreases items
  {
    hide Canonical, CoreProfile, InStep, Normal;
    if items != [] {
      assert NormalItems(items)[1..] == NormalItems(items[1..]);
      ProfileOf(items[0], depth);
      ProfileOfItems(items[1..], depth);
    }
  }

  lemma {:induction false} ProfileOfMap(entries: seq<Entry>, depth: nat)
    requires CanonicalEntries(Emitted(entries), depth, None, DEFAULT_LIMITS)
    ensures StrictlyAscending(OwnKeys(Emitted(entries)), LexLt) && CoreEntries(Emitted(entries))
       <==> AllInStep(NormalKeys(entries)) && EntriesInStep(entries)
    decreases entries
  {
    hide LexLt, LengthFirstLt, Raw, CanonicalEntries, CanonicalEntry, CoreEntry, CoreEntries, EntryInStep, EntriesInStep,
      StrictlyAscending, AllInStep, Emitted, Normal, NormalEntry;
    var es := Emitted(entries);
    AscendBytewise(es, depth, DEFAULT_LIMITS);
    StepsOfSorted(entries);
    CoreEntriesAll(es);
    EntriesInStepAll(entries);
    CanonicalEntriesAreStrict(es, depth, None, DEFAULT_LIMITS);
    forall i | 0 <= i < |entries|
      ensures CoreEntry(NormalEntry(entries[i]).item) <==> EntryInStep(entries[i])
      ensures exists j :: 0 <= j < |entries| && es[i] == NormalEntry(entries[j]).item
      ensures exists k :: 0 <= k < |es| && es[k] == NormalEntry(entries[i]).item
    {
      var j, k := SortedEntries(entries, i);
      ProfileOfEntry(entries[i], depth);
    }
  }

  lemma {:induction false} ProfileOfEntry(e: Entry, depth: nat)
    requires CanonicalEntry(NormalEntry(e).item, depth, DEFAULT_LIMITS)
    ensures CoreEntry(NormalEntry(e).item) <==> EntryInStep(e)
    decreases e
  {
    hide CoreProfile, InStep, Canonical, Normal, Raw;
    match e
    case Entry(key, value) =>
      ProfileOf(key, depth);
      ProfileOf(value, depth);
  }

  /**
   * The encoder promises the core profile of RFC 8949. What it emits for a value is in that profile exactly when no map
   * anywhere in the value has two keys out of step.
   */
  lemma CoreProfileExactly(v: Value)
    requires Encode(v).Ok?
    ensures Encode(v).value == Raw(Normal(v)) && (CoreProfile(Normal(v)) <==> InStep(v))
  {
    hide Encode, Raw, Normal, Canonical, CoreProfile, InStep;
    EncodeExactly(v, Encode(v).value);
    ProfileOf(v, 0);
  }

  /** An encodable map outside the core profile: the empty text goes before the number 24 on the wire, and after it bytewise. */
  lemma MixedMapOutsideCore()
    ensures var m := Value.Map([Entry(TextString([]), Null), Entry(Unsigned(24), Null)]);
      && Encode(m) == Ok([0xa2, 0x60, 0xf6, 0x18, 24, 0xf6])
      && Normal(m) == m && !CoreProfile(m)
  {
    hide Encode, Normal;
    var text, number := Entry(TextString([]), Null), Entry(Unsigned(24), Null);
    var m := Value.Map([text, number]);
    assert Raw(text.key) == [0x60] && Raw(number.key) == [0x18, 24];
    assert [text, number][1..] == [number] && [number][1..] == [];
    assert CanonicalEntries([number], 1, Some([0x60]), DEFAULT_LIMITS);
    assert CanonicalEntries(m.entries, 1, None, DEFAULT_LIMITS);
    NormalFixesCanonical(m, 0, DEFAULT_LIMITS);
    assert RawEntries([number]) == [0x18, 24, 0xf6];
    assert RawEntries([text, number]) == RawEntry(text) + RawEntries([number]);
    assert RawEntry(text) == [0x60, 0xf6] && Head(5, 2) == [0xa2];
    assert Raw(m) == [0xa2, 0x60, 0xf6, 0x18, 24, 0xf6];
    EncodeExactly(m, Raw(m));
    assert OwnKeys(m.entries)[0].key == [0x60] && OwnKeys(m.entries)[1].key == [0x18, 24];
  }
}
