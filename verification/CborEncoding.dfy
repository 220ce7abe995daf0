/** The encoder: key sorting, the re-check against the profile, and the normal form it computes. */
module CborEncoding {
  import opened ByteStrings
  import opened Results
  import opened Sorting
  import opened Cbor
  import Utf8

  datatype EncodeError = DuplicateMapKey | Profile(error: DecodeError) | LengthOutOfRange | NegativeOutOfRange

  // ----- the encoder as a function

  function LengthU64(n: nat): (r: Result<u64, EncodeError>) {
    if n < U64_LIMIT then Ok(n) else Err(LengthOutOfRange)
  }

  function Encode(v: Value): (r: Result<Bytes, EncodeError>)
    decreases v, 1
  {
    var b :- EncodeInto(v);
    match Decode(b)
    case Ok(_) => Ok(b)
    case Err(e) => Err(Profile(e))
  }

  function EncodeInto(v: Value): (r: Result<Bytes, EncodeError>)
    decreases v, 0
  {
    match v
    case Unsigned(n) => Ok(Head(0, n))
    case Negative(i) => if i >= 0 then Err(NegativeOutOfRange) else Ok(Head(1, -1 - i))
    case ByteString(b) =>
      var n :- LengthU64(|b|);
      Ok(Head(2, n) + b)
    case TextString(t) =>
      var n :- LengthU64(|t|);
      Ok(Head(3, n) + t)
    case Array(items) =>
      var n :- LengthU64(|items|);
      var b :- EncodeItems(items);
      Ok(Head(4, n) + b)
    case Map(entries) =>
      var keyed :- EncodeKeys(entries);
      var sorted := Sort(keyed, LengthFirstLt);
      if HasEqualNeighbours(sorted) then Err(DuplicateMapKey)
      else
        var n :- LengthU64(|sorted|);
        var b :- Joined(sorted);
        Ok(Head(5, n) + b)
    case Tag(tag, item) =>
      if tag != SIGN1_TAG then Err(Profile(UnsupportedTag(tag)))
      else
        var b :- EncodeInto(item);
        Ok(Head(6, tag) + b)
    case Bool(b) => Ok(if b then [0xf5] else [0xf4])
    case Null => Ok([0xf6])
  }

  function EncodeItems(items: seq<Value>): (r: Result<Bytes, EncodeError>)
    decreases items
  {
    if items == [] then Ok([])
    else
      var x :- EncodeInto(items[0]);
      var xs :- EncodeItems(items[1..]);
      Ok(x + xs)
  }

  /** Every key encoded, next to what encoding its value will give. */
  function EncodeKeys(entries: seq<Entry>): (r: Result<seq<Keyed<Bytes, Result<Bytes, EncodeError>>>, EncodeError>)
    decreases entries
  {
    if entries == [] then Ok([])
    else
      var k :- EncodeEntry(entries[0]);
      var ks :- EncodeKeys(entries[1..]);
      Ok([k] + ks)
  }

  function EncodeEntry(e: Entry): (r: Result<Keyed<Bytes, Result<Bytes, EncodeError>>, EncodeError>)
    decreases e
  {
    match e
    case Entry(key, value) =>
      var k :- Encode(key);
      Ok(Keyed(k, EncodeInto(value)))
  }

  function Joined(s: seq<Keyed<Bytes, Result<Bytes, EncodeError>>>): (r: Result<Bytes, EncodeError>) {
    if s == [] then Ok([])
    else
      var x :- s[0].item;
      var xs :- Joined(s[1..]);
      Ok(s[0].key + x + xs)
  }

  // ----- normal form

  /** The same value with every map, at every depth, listed by encoded key. */
  function Normal(v: Value): (w: Value)
    decreases v
  {
    match v
    case Array(items) => Array(NormalItems(items))
    case Map(entries) => Map(ItemsOf(Sort(NormalEntries(entries), LengthFirstLt)))
    case Tag(tag, item) => Tag(tag, Normal(item))
    case _ => v
  }

  function NormalItems(items: seq<Value>): (ws: seq<Value>)
    ensures |ws| == |items|
    decreases items
  {
    if items == [] then [] else [Normal(items[0])] + NormalItems(items[1..])
  }

  function NormalEntries(entries: seq<Entry>): (es: seq<Keyed<Bytes, Entry>>)
    ensures |es| == |entries|
    decreases entries
  {
    if entries == [] then [] else [NormalEntry(entries[0])] + NormalEntries(entries[1..])
  }

  function NormalEntry(e: Entry): (k: Keyed<Bytes, Entry>)
    decreases e
  {
    match e
    case Entry(key, value) => Keyed(Raw(Normal(key)), Entry(Normal(key), Normal(value)))
  }

  lemma KeyOrderIsTotal()
    ensures StrictTotalOrder(LengthFirstLt)
  {
    forall a, b ensures (LengthFirstLt(a, b) || a == b || LengthFirstLt(b, a)) && (LengthFirstLt(a, b) ==> !LengthFirstLt(b, a)) {
      LexTrichotomy(a, b);
    }
    forall a, b, c | LengthFirstLt(a, b) && LengthFirstLt(b, c) ensures LengthFirstLt(a, c) {
      if |a| == |b| == |c| {
        LexTransitive(a, b, c);
      }
    }
  }

  // ----- canonical entries and sorted entries are the same thing

  /** Each entry under its encoded key. */
  predicate UnderOwnKey(s: seq<Keyed<Bytes, Entry>>) {
    forall i :: 0 <= i < |s| ==> s[i].key == Raw(s[i].item.key)
  }

  lemma {:induction false} StrictEntriesAreCanonical(s: seq<Keyed<Bytes, Entry>>, depth: nat, previous: Option<Bytes>, lim: Limits)
    requires UnderOwnKey(s) && StrictlyAscending(s, LengthFirstLt)
    requires previous.Some? && s != [] ==> LengthFirstLt(previous.value, s[0].key)
    requires forall i :: 0 <= i < |s| ==> CanonicalEntry(s[i].item, depth, lim)
    ensures CanonicalEntries(ItemsOf(s), depth, previous, lim)
  {
    hide LengthFirstLt, CanonicalEntry, Raw;
    if s != [] {
      StrictEntriesAreCanonical(s[1..], depth, Some(s[0].key), lim);
      assert ItemsOf(s)[1..] == ItemsOf(s[1..]);
    }
  }

  function OwnKeys(entries: seq<Entry>): (s: seq<Keyed<Bytes, Entry>>)
    ensures |s| == |entries|
    ensures forall i :: 0 <= i < |s| ==> s[i] == Keyed(Raw(entries[i].key), entries[i])
  {
    seq(|entries|, i requires 0 <= i < |entries| => Keyed(Raw(entries[i].key), entries[i]))
  }

  lemma {:induction false} CanonicalEntriesAreStrict(entries: seq<Entry>, depth: nat, previous: Option<Bytes>, lim: Limits)
    requires CanonicalEntries(entries, depth, previous, lim)
    ensures StrictlyAscending(OwnKeys(entries), LengthFirstLt)
    ensures previous.Some? ==> forall i :: 0 <= i < |entries| ==> LengthFirstLt(previous.value, Raw(entries[i].key))
    ensures forall i :: 0 <= i < |entries| ==> CanonicalEntry(entries[i], depth, lim)
  {
    hide LengthFirstLt, CanonicalEntry, Raw;
    if entries != [] {
      var first := Raw(entries[0].key);
      CanonicalEntriesAreStrict(entries[1..], depth, Some(first), lim);
      assert OwnKeys(entries) == [Keyed(first, entries[0])] + OwnKeys(entries[1..]);
      KeyOrderIsTotal();
      forall i | 0 <= i < |entries| ensures previous.Some? ==> LengthFirstLt(previous.value, Raw(entries[i].key)) {
        if i > 0 {
          assert entries[i] == entries[1..][i - 1];
        }
      }
      forall i | 0 <= i < |entries| ensures CanonicalEntry(entries[i], depth, lim) {
        if i > 0 {
          assert entries[i] == entries[1..][i - 1];
        }
      }
    }
  }

  // ----- a successful encoding is the encoding of the normal form

  function ValueResult(e: Entry): (r: Result<Bytes, EncodeError>) {
    Ok(Raw(e.value))
  }

  lemma {:induction false} EncodeIntoIsRaw(v: Value)
    requires EncodeInto(v).Ok?
    ensures EncodeInto(v).value == Raw(Normal(v))
    decreases v, 0
  {
    hide Head, Decode;
    match v
    case Array(items) => EncodeItemsIsRaw(items);
    case Map(entries) => EncodeMapIsRaw(entries);
    case Tag(_, item) => EncodeIntoIsRaw(item);
    case _ =>
  }

  lemma {:induction false} EncodeItemsIsRaw(items: seq<Value>)
    requires EncodeItems(items).Ok?
    ensures EncodeItems(items).value == RawItems(NormalItems(items))
    decreases items
  {
    hide Raw, EncodeInto;
    if items != [] {
      EncodeIntoIsRaw(items[0]);
      EncodeItemsIsRaw(items[1..]);
    }
  }

  lemma EncodedMapParts(entries: seq<Entry>)
    requires EncodeInto(Map(entries)).Ok?
    ensures EncodeKeys(entries).Ok?
    ensures forall k :: k in EncodeKeys(entries).value ==> k.item.Ok?
    ensures var sorted := Sort(EncodeKeys(entries).value, LengthFirstLt);
      && !HasEqualNeighbours(sorted) && |sorted| < U64_LIMIT && Joined(sorted).Ok?
      && EncodeInto(Map(entries)).value == Head(5, |sorted|) + Joined(sorted).value
  {
    hide Head, EncodeKeys, LengthFirstLt, HasEqualNeighbours;
    var keyed := EncodeKeys(entries).value;
    var sorted := Sort(keyed, LengthFirstLt);
    JoinedOkItems(sorted);
    forall k | k in keyed ensures k.item.Ok? {
      assert k in multiset(sorted);
    }
  }

  /** The encoder's sorted keys are those of the normal form, and there are no duplicates. */
  lemma {:induction false} EncodedMapSorted(entries: seq<Entry>)
    requires EncodeInto(Map(entries)).Ok?
    ensures var s := Sort(NormalEntries(entries), LengthFirstLt);
      && UnderOwnKey(s) && StrictlyAscending(s, LengthFirstLt)
      && EncodeKeys(entries).Ok? && MapItems(s, ValueResult) == Sort(EncodeKeys(entries).value, LengthFirstLt)
    decreases entries, 1
  {
    hide EncodeInto, NormalEntries, EncodeKeys, LengthFirstLt, Sort, MapItems, Raw;
    EncodedMapParts(entries);
    EncodeKeysIsNormal(entries);
    var s := Sort(NormalEntries(entries), LengthFirstLt);
    SortCommutesWithMap(NormalEntries(entries), ValueResult, LengthFirstLt);
    NormalEntriesOwnKeys(entries);
    KeyOrderIsTotal();
    SortAscends(NormalEntries(entries), LengthFirstLt);
    forall i | 0 < i < |s| ensures s[i - 1].key != s[i].key {
      assert MapItems(s, ValueResult)[i - 1].key == s[i - 1].key && MapItems(s, ValueResult)[i].key == s[i].key;
    }
    DistinctNeighboursAscendStrictly(s, LengthFirstLt);
  }

  lemma {:induction false} EncodeMapIsRaw(entries: seq<Entry>)
    requires EncodeInto(Map(entries)).Ok?
    ensures EncodeInto(Map(entries)).value == Raw(Normal(Map(entries)))
    decreases entries, 2
  {
    hide EncodeInto, Head, NormalEntries, EncodeKeys, LengthFirstLt, Sort, MapItems, Joined;
    EncodedMapParts(entries);
    EncodedMapSorted(entries);
    JoinedIsRaw(Sort(NormalEntries(entries), LengthFirstLt));
  }

  lemma {:induction false} JoinedOkItems(s: seq<Keyed<Bytes, Result<Bytes, EncodeError>>>)
    requires Joined(s).Ok?
    ensures forall k :: k in s ==> k.item.Ok?
  {
    if s != [] {
      JoinedOkItems(s[1..]);
    }
  }

  lemma {:induction false} EncodeKeysIsNormal(entries: seq<Entry>)
    requires EncodeKeys(entries).Ok?
    requires forall k :: k in EncodeKeys(entries).value ==> k.item.Ok?
    ensures EncodeKeys(entries).value == MapItems(NormalEntries(entries), ValueResult)
    decreases entries, 0
  {
    hide Raw, Encode, EncodeInto;
    if entries != [] {
      var k := EncodeEntry(entries[0]).value;
      var ks := EncodeKeys(entries[1..]).value;
      assert EncodeKeys(entries).value == [k] + ks;
      assert k in EncodeKeys(entries).value && forall x :: x in ks ==> x in EncodeKeys(entries).value;
      EncodeEntryIsNormal(entries[0]);
      EncodeKeysIsNormal(entries[1..]);
      assert NormalEntries(entries)[1..] == NormalEntries(entries[1..]);
    }
  }

  lemma {:induction false} EncodeEntryIsNormal(e: Entry)
    requires EncodeEntry(e).Ok? && EncodeEntry(e).value.item.Ok?
    ensures EncodeEntry(e).value == Keyed(NormalEntry(e).key, ValueResult(NormalEntry(e).item))
    decreases e
  {
    match e
    case Entry(key, value) =>
      EncodeIntoIsRaw(key);
      EncodeIntoIsRaw(value);
  }

  lemma {:induction false} NormalEntriesOwnKeys(entries: seq<Entry>)
    ensures UnderOwnKey(NormalEntries(entries))
    ensures UnderOwnKey(Sort(NormalEntries(entries), LengthFirstLt))
  {
    hide Raw;
    EachNormalEntry(entries);
    var s, t := NormalEntries(entries), Sort(NormalEntries(entries), LengthFirstLt);
    forall i | 0 <= i < |t| ensures t[i].key == Raw(t[i].item.key) {
      assert t[i] in multiset(s);
    }
  }

  lemma {:induction false} EachNormalEntry(entries: seq<Entry>)
    ensures forall i :: 0 <= i < |entries| ==> NormalEntries(entries)[i] == NormalEntry(entries[i])
    ensures UnderOwnKey(NormalEntries(entries))
  {
    if entries != [] {
      EachNormalEntry(entries[1..]);
    }
  }

  lemma {:induction false} JoinedIsRaw(s: seq<Keyed<Bytes, Entry>>)
    requires UnderOwnKey(s)
    ensures Joined(MapItems(s, ValueResult)) == Ok(RawEntries(ItemsOf(s)))
  {
    hide Raw;
    if s != [] {
      JoinedIsRaw(s[1..]);
      assert MapItems(s, ValueResult)[1..] == MapItems(s[1..], ValueResult);
      assert ItemsOf(s)[1..] == ItemsOf(s[1..]);
    }
  }

  // ----- what encodes is canonical once the limits are lifted

  function Height(v: Value): (h: nat)
    decreases v
  {
    match v
    case Array(items) => 1 + ItemsHeight(items)
    case Map(entries) => 1 + EntriesHeight(entries)
    case Tag(_, item) => 1 + Height(item)
    case _ => 0
  }

  function ItemsHeight(items: seq<Value>): (h: nat)
    decreases items
  {
    if items == [] then 0 else Max(Height(items[0]), ItemsHeight(items[1..]))
  }

  function EntriesHeight(entries: seq<Entry>): (h: nat)
    decreases entries
  {
    if entries == [] then 0 else Max(EntryHeight(entries[0]), EntriesHeight(entries[1..]))
  }

  function EntryHeight(e: Entry): (h: nat)
    decreases e
  {
    match e
    case Entry(key, value) => Max(Height(key), Height(value))
  }

  const LONGEST: u64 := 0xffff_ffff_ffff_ffff

  function Unlimited(nesting: nat): (lim: Limits) {
    Limits(LONGEST, nesting, LONGEST, LONGEST, LONGEST, LONGEST)
  }

  lemma {:induction false} EncodedIsCanonical(v: Value, depth: nat, nesting: nat)
    requires EncodeInto(v).Ok? && depth + Height(v) <= nesting
    ensures Canonical(Normal(v), depth, Unlimited(nesting))
    decreases v, 0
  {
    hide Head, Decode, EncodeKeys, EncodeItems, Joined, CanonicalEntries, CanonicalItems, NormalEntries, NormalItems, Sort, HasEqualNeighbours;
    match v
    case Array(items) => EncodedItemsAreCanonical(items, depth + 1, nesting);
    case Map(entries) => EncodedMapIsCanonical(entries, depth, nesting);
    case Tag(_, item) => EncodedIsCanonical(item, depth + 1, nesting);
    case _ =>
  }

  lemma {:induction false} EncodedItemsAreCanonical(items: seq<Value>, depth: nat, nesting: nat)
    requires EncodeItems(items).Ok? && depth + ItemsHeight(items) <= nesting
    ensures CanonicalItems(NormalItems(items), depth, Unlimited(nesting))
    decreases items
  {
    hide EncodeInto, Canonical;
    if items != [] {
      EncodedIsCanonical(items[0], depth, nesting);
      EncodedItemsAreCanonical(items[1..], depth, nesting);
      assert NormalItems(items)[1..] == NormalItems(items[1..]);
    }
  }

  lemma {:induction false} EncodedMapIsCanonical(entries: seq<Entry>, depth: nat, nesting: nat)
    requires EncodeInto(Map(entries)).Ok? && depth + 1 + EntriesHeight(entries) <= nesting
    ensures Canonical(Normal(Map(entries)), depth, Unlimited(nesting))
    decreases entries, 1
  {
    hide EncodeInto, NormalEntries, EncodeKeys, LengthFirstLt, Sort, MapItems, Joined, CanonicalEntry, CanonicalEntries, EntriesHeight;
    EncodedMapParts(entries);
    EncodedMapSorted(entries);
    EncodedEntriesAreCanonical(entries, depth + 1, nesting);
    var s := Sort(NormalEntries(entries), LengthFirstLt);
    forall i | 0 <= i < |s| ensures CanonicalEntry(s[i].item, depth + 1, Unlimited(nesting)) {
      assert s[i] in multiset(NormalEntries(entries));
    }
    StrictEntriesAreCanonical(s, depth + 1, None, Unlimited(nesting));
  }

  lemma {:induction false} EncodedEntriesAreCanonical(entries: seq<Entry>, depth: nat, nesting: nat)
    requires EncodeKeys(entries).Ok? && depth + EntriesHeight(entries) <= nesting
    requires forall k :: k in EncodeKeys(entries).value ==> k.item.Ok?
    ensures forall k :: k in NormalEntries(entries) ==> CanonicalEntry(k.item, depth, Unlimited(nesting))
    decreases entries, 0
  {
    hide EncodeEntry, NormalEntry, CanonicalEntry;
    if entries != [] {
      var k := EncodeEntry(entries[0]).value;
      var ks := EncodeKeys(entries[1..]).value;
      assert EncodeKeys(entries).value == [k] + ks;
      assert k in EncodeKeys(entries).value && forall x :: x in ks ==> x in EncodeKeys(entries).value;
      EncodedEntryIsCanonical(entries[0], depth, nesting);
      EncodedEntriesAreCanonical(entries[1..], depth, nesting);
    }
  }

  lemma {:induction false} EncodedEntryIsCanonical(e: Entry, depth: nat, nesting: nat)
    requires EncodeEntry(e).Ok? && EncodeEntry(e).value.item.Ok? && depth + EntryHeight(e) <= nesting
    ensures CanonicalEntry(NormalEntry(e).item, depth, Unlimited(nesting))
    decreases e
  {
    hide Raw, Decode;
    match e
    case Entry(key, value) =>
      EncodedIsCanonical(key, depth, nesting);
      EncodedIsCanonical(value, depth, nesting);
  }

  // ----- what is canonical within the limits encodes

  lemma {:induction false} CanonicalEncodes(v: Value, depth: nat)
    requires Canonical(Normal(v), depth, DEFAULT_LIMITS) && |Raw(Normal(v))| <= DEFAULT_LIMITS.messageBytes
    ensures EncodeInto(v) == Ok(Raw(Normal(v)))
    decreases v, 0
  {
    hide Head, Decode;
    match v
    case Array(items) => CanonicalItemsEncode(items, depth + 1);
    case Map(entries) => CanonicalMapEncodes(entries, depth);
    case Tag(_, item) => CanonicalEncodes(item, depth + 1);
    case _ =>
  }

  lemma {:induction false} CanonicalItemsEncode(items: seq<Value>, depth: nat)
    requires CanonicalItems(NormalItems(items), depth, DEFAULT_LIMITS)
    requires |RawItems(NormalItems(items))| <= DEFAULT_LIMITS.messageBytes
    ensures EncodeItems(items) == Ok(RawItems(NormalItems(items)))
    decreases items
  {
    hide EncodeInto, Canonical, Raw;
    if items != [] {
      assert NormalItems(items)[1..] == NormalItems(items[1..]);
      CanonicalEncodes(items[0], depth);
      CanonicalItemsEncode(items[1..], depth);
    }
  }

  lemma {:induction false} RawEntriesBound(entries: seq<Entry>, e: Entry)
    requires e in entries
    ensures |Raw(e.key)| + |Raw(e.value)| <= |RawEntries(entries)|
  {
    hide Raw;
    if entries[0] != e {
      assert e in entries[1..];
      RawEntriesBound(entries[1..], e);
    }
  }

  lemma {:induction false} CanonicalMapEncodes(entries: seq<Entry>, depth: nat)
    requires Canonical(Normal(Map(entries)), depth, DEFAULT_LIMITS)
    requires |Raw(Normal(Map(entries)))| <= DEFAULT_LIMITS.messageBytes
    ensures EncodeInto(Map(entries)) == Ok(Raw(Normal(Map(entries))))
    decreases entries, 1
  {
    hide EncodeInto, Head, NormalEntries, EncodeKeys, LengthFirstLt, CanonicalEntry, CanonicalEntries, RawEntries, Sort;
    var n := NormalEntries(entries);
    var s := Sort(n, LengthFirstLt);
    var es := ItemsOf(s);
    CanonicalEntriesAreStrict(es, depth + 1, None, DEFAULT_LIMITS);
    forall k | k in n
      ensures CanonicalEntry(k.item, depth + 1, DEFAULT_LIMITS)
      ensures |Raw(k.item.key)| + |Raw(k.item.value)| <= DEFAULT_LIMITS.messageBytes
    {
      assert k in multiset(s);
      var i :| 0 <= i < |s| && s[i] == k;
      assert es[i] == k.item;
      RawEntriesBound(es, k.item);
    }
    CanonicalKeysEncode(entries, depth + 1);
    AscendingMapEncodes(entries);
  }

  lemma StrictKeysDiffer(s: seq<Keyed<Bytes, Entry>>)
    requires UnderOwnKey(s) && StrictlyAscending(OwnKeys(ItemsOf(s)), LengthFirstLt)
    ensures !HasEqualNeighbours(MapItems(s, ValueResult))
  {
    hide LengthFirstLt, ItemsOf, MapItems;
    KeyOrderIsTotal();
    var es := OwnKeys(ItemsOf(s));
    forall i | 0 < i < |s| ensures s[i - 1].key != s[i].key {
      assert es[i - 1].key == s[i - 1].key && es[i].key == s[i].key;
      assert LengthFirstLt(es[i - 1].key, es[i].key);
    }
  }

  lemma EncodeMapFrom(entries: seq<Entry>, keyed: seq<Keyed<Bytes, Result<Bytes, EncodeError>>>, joined: Bytes)
    requires EncodeKeys(entries) == Ok(keyed) && |keyed| < U64_LIMIT
    requires !HasEqualNeighbours(Sort(keyed, LengthFirstLt)) && Joined(Sort(keyed, LengthFirstLt)) == Ok(joined)
    ensures EncodeInto(Map(entries)) == Ok(Head(5, |keyed|) + joined)
  {
    hide Head, EncodeKeys, LengthFirstLt, Sort, Joined, HasEqualNeighbours;
  }

  lemma AscendingMapEncodes(entries: seq<Entry>)
    requires EncodeKeys(entries) == Ok(MapItems(NormalEntries(entries), ValueResult))
    requires StrictlyAscending(OwnKeys(ItemsOf(Sort(NormalEntries(entries), LengthFirstLt))), LengthFirstLt)
    requires |entries| < U64_LIMIT
    ensures EncodeInto(Map(entries)) == Ok(Raw(Normal(Map(entries))))
  {
    hide *;
    var s := Sort(NormalEntries(entries), LengthFirstLt);
    NormalEntriesOwnKeys(entries);
    SortCommutesWithMap(NormalEntries(entries), ValueResult, LengthFirstLt);
    StrictKeysDiffer(s);
    JoinedIsRaw(s);
    EncodeMapFrom(entries, MapItems(NormalEntries(entries), ValueResult), RawEntries(ItemsOf(s)));
    RawNormalMap(entries);
  }

  lemma RawNormalMap(entries: seq<Entry>)
    ensures Raw(Normal(Map(entries))) == Head(5, |entries|) + RawEntries(ItemsOf(Sort(NormalEntries(entries), LengthFirstLt)))
  {
    hide Head, NormalEntries, LengthFirstLt, Sort, RawEntries, ItemsOf;
  }

  lemma {:induction false} CanonicalKeysEncode(entries: seq<Entry>, depth: nat)
    requires forall k :: k in NormalEntries(entries) ==>
      && CanonicalEntry(k.item, depth, DEFAULT_LIMITS)
      && |Raw(k.item.key)| + |Raw(k.item.value)| <= DEFAULT_LIMITS.messageBytes
    ensures EncodeKeys(entries) == Ok(MapItems(NormalEntries(entries), ValueResult))
    decreases entries, 0
  {
    hide EncodeEntry, NormalEntry, CanonicalEntry, Raw;
    if entries != [] {
      var n := NormalEntries(entries);
      assert n[0] in n && n[1..] == NormalEntries(entries[1..]) && forall x :: x in n[1..] ==> x in n;
      CanonicalEntryEncodes(entries[0], depth);
      CanonicalKeysEncode(entries[1..], depth);
    }
  }

  lemma {:induction false} CanonicalEntryEncodes(e: Entry, depth: nat)
    requires var k := NormalEntry(e);
      && CanonicalEntry(k.item, depth, DEFAULT_LIMITS)
      && |Raw(k.item.key)| + |Raw(k.item.value)| <= DEFAULT_LIMITS.messageBytes
    ensures EncodeEntry(e) == Ok(Keyed(NormalEntry(e).key, ValueResult(NormalEntry(e).item)))
    decreases e
  {
    hide Raw, Canonical, DecodeWithLimits, EncodeInto;
    match e
    case Entry(key, value) =>
      CanonicalEncodes(key, depth);
      CanonicalEncodes(value, depth);
      CanonicalWidens(Normal(key), depth, DEFAULT_LIMITS, 0, DEFAULT_LIMITS);
      DecodeExactly(Raw(Normal(key)), Normal(key), DEFAULT_LIMITS);
  }

  // ----- canonical values are their own normal form

  lemma {:induction false} NormalFixesCanonical(v: Value, depth: nat, lim: Limits)
    requires Canonical(v, depth, lim)
    ensures Normal(v) == v
    decreases v, 0
  {
    match v
    case Array(items) => NormalFixesItems(items, depth + 1, lim);
    case Map(entries) => NormalFixesMap(entries, depth + 1, lim);
    case Tag(_, item) => NormalFixesCanonical(item, depth + 1, lim);
    case _ =>
  }

  lemma {:induction false} NormalFixesItems(items: seq<Value>, depth: nat, lim: Limits)
    requires CanonicalItems(items, depth, lim)
    ensures NormalItems(items) == items
    decreases items
  {
    if items != [] {
      NormalFixesCanonical(items[0], depth, lim);
      NormalFixesItems(items[1..], depth, lim);
    }
  }

  lemma {:induction false} NormalFixesMap(entries: seq<Entry>, depth: nat, lim: Limits)
    requires CanonicalEntries(entries, depth, None, lim)
    ensures ItemsOf(Sort(NormalEntries(entries), LengthFirstLt)) == entries
    decreases entries, 1
  {
    hide LengthFirstLt, CanonicalEntry, CanonicalEntries, NormalEntries;
    CanonicalEntriesAreStrict(entries, depth, None, lim);
    NormalFixesEntries(entries, depth, lim);
    KeyOrderIsTotal();
    SortFixesAscending(OwnKeys(entries), LengthFirstLt);
  }

  lemma {:induction false} NormalFixesEntries(entries: seq<Entry>, depth: nat, lim: Limits)
    requires forall i :: 0 <= i < |entries| ==> CanonicalEntry(entries[i], depth, lim)
    ensures NormalEntries(entries) == OwnKeys(entries)
    decreases entries, 0
  {
    hide CanonicalEntry, NormalEntry;
    if entries != [] {
      NormalFixesEntry(entries[0], depth, lim);
      NormalFixesEntries(entries[1..], depth, lim);
    }
  }

  lemma {:induction false} NormalFixesEntry(e: Entry, depth: nat, lim: Limits)
    requires CanonicalEntry(e, depth, lim)
    ensures NormalEntry(e) == Keyed(Raw(e.key), e)
    decreases e
  {
    match e
    case Entry(key, value) =>
      NormalFixesCanonical(key, depth, lim);
      NormalFixesCanonical(value, depth, lim);
  }

  // ----- the theorems

  /** Two canonical values, under whatever limits, with the same encoding are the same value. */
  lemma RawIsInjective(v: Value, lv: Limits, w: Value, lw: Limits)
    requires Canonical(v, 0, lv) && Canonical(w, 0, lw) && Raw(v) == Raw(w)
    ensures v == w
  {
    hide *;
    var lim := Wider(lv, lw);
    CanonicalWidens(v, 0, lv, 0, lim);
    CanonicalWidens(w, 0, lw, 0, lim);
    ItemComplete(v, [], 0, lim);
    ItemComplete(w, [], 0, lim);
  }

  /** Encoding computes the normal form: it succeeds exactly when the normal form is within the profile, its bytes are
      the encoding of the normal form, and they decode to the normal form. */
  lemma EncodeExactly(v: Value, b: Bytes)
    ensures Encode(v) == Ok(b)
      <==> Canonical(Normal(v), 0, DEFAULT_LIMITS) && b == Raw(Normal(v)) && |b| <= DEFAULT_LIMITS.messageBytes
    ensures Encode(v) == Ok(b) ==> Decode(b) == Ok(Normal(v))
  {
    hide EncodeInto, DecodeWithLimits, Canonical, Raw, Normal;
    if Encode(v) == Ok(b) {
      EncodeIntoIsRaw(v);
      var w := Decode(b).value;
      DecodeExactly(b, w, DEFAULT_LIMITS);
      EncodedIsCanonical(v, 0, Height(v));
      RawIsInjective(w, DEFAULT_LIMITS, Normal(v), Unlimited(Height(v)));
    }
    if Canonical(Normal(v), 0, DEFAULT_LIMITS) && b == Raw(Normal(v)) && |b| <= DEFAULT_LIMITS.messageBytes {
      CanonicalEncodes(v, 0);
      DecodeExactly(b, Normal(v), DEFAULT_LIMITS);
    }
  }

  /** Strong canonicality: what decodes re-encodes to the same bytes, without any re-sorting. */
  lemma DecodeThenEncode(b: Bytes)
    requires Decode(b).Ok?
    ensures Encode(Decode(b).value) == Ok(b)
    ensures Normal(Decode(b).value) == Decode(b).value
  {
    hide Encode, DecodeWithLimits, Canonical, Raw, Normal;
    var v := Decode(b).value;
    DecodeExactly(b, v, DEFAULT_LIMITS);
    NormalFixesCanonical(v, 0, DEFAULT_LIMITS);
    EncodeExactly(v, b);
  }

  /** Two encodable values have equal bytes exactly when they have the same normal form. */
  lemma EqualBytesIffSameNormalForm(v: Value, w: Value)
    requires Encode(v).Ok? && Encode(w).Ok?
    ensures Encode(v).value == Encode(w).value <==> Normal(v) == Normal(w)
  {
    hide Encode, Decode, Canonical, Raw, Normal;
    EncodeExactly(v, Encode(v).value);
    EncodeExactly(w, Encode(w).value);
  }

  /** For unsigned keys the length-first order, the bytewise order and the numeric order are the same. */
  lemma UnsignedKeyOrdersCoincide(m: u64, n: u64)
    ensures LengthFirstLt(Raw(Unsigned(m)), Raw(Unsigned(n))) <==> m < n
    ensures LexLt(Raw(Unsigned(m)), Raw(Unsigned(n))) <==> m < n
  {
    if m < n {
      SmallerArgumentIsFirst(0, m, n);
    } else if n < m {
      SmallerArgumentIsFirst(0, n, m);
    }
    KeyOrderIsTotal();
    LexTrichotomy(Raw(Unsigned(m)), Raw(Unsigned(n)));
  }

  /** Heads of one major type are ordered by their arguments, and are no longer for smaller ones. */
  lemma SmallerArgumentIsFirst(major: nat, m: u64, n: u64)
    requires major <= 7 && m < n
    ensures LengthFirstLt(Head(major, m), Head(major, n)) && LexLt(Head(major, m), Head(major, n))
  {
    hide BigEndian, LexLt;
    var a, b := Head(major, m), Head(major, n);
    HeadSplits(major, m);
    HeadSplits(major, n);
    if Additional(m) == Additional(n) && n > 23 {
      Pow256Values();
      BigEndianOrder(m, n, Width(Additional(n)));
      LexStep(a, b);
    } else {
      LexStep(a, b);
    }
  }

  lemma LexStep(a: Bytes, b: Bytes)
    requires a != [] && b != []
    ensures LexLt(a, b) <==> a[0] < b[0] || (a[0] == b[0] && LexLt(a[1..], b[1..]))
  {
  }

  lemma {:induction false} BigEndianOrder(m: nat, n: nat, width: nat)
    requires m < n < Pow256(width)
    ensures LexLt(BigEndian(m, width), BigEndian(n, width))
  {
    var p, q := BigEndian(m / 256, width - 1), BigEndian(n / 256, width - 1);
    if m / 256 < n / 256 {
      BigEndianOrder(m / 256, n / 256, width - 1);
      LexLtExtends(p, q, [m % 256], [n % 256]);
    } else {
      LexLtPrefix(p, [m % 256], [n % 256]);
    }
  }

  lemma {:induction false} LexLtExtends(a: Bytes, b: Bytes, x: Bytes, y: Bytes)
    requires LexLt(a, b) && |a| == |b|
    ensures LexLt(a + x, b + y)
  {
    assert (a + x)[1..] == a[1..] + x && (b + y)[1..] == b[1..] + y;
    if a[0] == b[0] {
      LexLtExtends(a[1..], b[1..], x, y);
    }
  }

  lemma {:induction false} LexLtPrefix(p: Bytes, x: Bytes, y: Bytes)
    requires LexLt(x, y)
    ensures LexLt(p + x, p + y)
  {
    if p == [] {
      assert p + x == x && p + y == y;
    } else {
      assert (p + x)[1..] == p[1..] + x && (p + y)[1..] == p[1..] + y;
      LexLtPrefix(p[1..], x, y);
    }
  }
}
