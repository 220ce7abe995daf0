/** Why a message is refused: the error is that of the first fault in it, told from the grammar. */
module CborFaults {
  import opened ByteStrings
  import opened Results
  import opened Cbor
  import Utf8

  // ----- faults, told from the bytes and the grammar

  /** A head that no value has: indefinite, unsupported, cut off, or longer than it need be. */
  ghost predicate HeadFault(s: Bytes, e: DecodeError)
    requires s != []
  {
    var major, low := s[0] as int / 32, s[0] as int % 32;
    if low == 31 then e == IndefiniteLength
    else if major == 7 then !(20 <= low <= 22) && e == UnsupportedType
    else if low >= 28 then e == IndefiniteLength
    else low >= 24 && (if |s| < 1 + Width(low) then e == UnexpectedEof else e == NonCanonicalInteger && LongHead(s, major, Width(low)))
  }

  /** The number in the `w` bytes after the first has a shorter head. */
  ghost predicate LongHead(s: Bytes, major: nat, w: nat)
    requires major <= 7 && |s| >= 1 + w
  {
    exists n: nat :: s[1..1 + w] == BigEndian(n, w) && n < Pow256(w) && |Head(major, n)| < 1 + w
  }

  /** What is wrong about `s` right after a proper head, whatever is nested in it. */
  ghost predicate ContentFault(major: nat, n: u64, s: Bytes, lim: Limits, e: DecodeError) {
    match major
    case 1 => n > I64_MAX && e == IntegerOutOfRange
    case 2 => if n > lim.byteStringBytes then e == CollectionTooLarge(ByteStringKind) else |s| < n && e == UnexpectedEof
    case 3 =>
      if n > lim.textStringBytes then e == CollectionTooLarge(TextStringKind)
      else if |s| < n then e == UnexpectedEof
      else !Utf8.WellFormed(s[..n]) && e == InvalidUtf8
    case 4 => n > lim.arrayEntries && e == CollectionTooLarge(ArrayKind)
    case 5 => n > lim.mapEntries && e == CollectionTooLarge(MapKind)
    case 6 => n != SIGN1_TAG && e == UnsupportedTag(n)
    case _ => false
  }

  /** `s` is proper items, fewer than `n`, and then `rest`. */
  ghost predicate ItemsThen(items: seq<Value>, rest: Bytes, n: nat, s: Bytes, depth: nat, lim: Limits) {
    |items| < n && s == RawItems(items) + rest && CanonicalItems(items, depth, lim)
  }

  /** `s` is proper entries, fewer than `n`, and then `rest`. */
  ghost predicate EntriesThen(entries: seq<Entry>, rest: Bytes, n: nat, s: Bytes, depth: nat, previous: Option<Bytes>, lim: Limits) {
    |entries| < n && s == RawEntries(entries) + rest && CanonicalEntries(entries, depth, previous, lim)
  }

  ghost predicate ItemThen(key: Value, rest: Bytes, s: Bytes, depth: nat, lim: Limits) {
    s == Raw(key) + rest && Canonical(key, depth, lim)
  }

  ghost predicate HeadThenRest(major: nat, n: u64, rest: Bytes, s: Bytes) {
    major <= 6 && s == Head(major, n) + rest
  }

  function LastKey(entries: seq<Entry>, previous: Option<Bytes>): (k: Option<Bytes>) {
    if entries == [] then previous else Some(Raw(entries[|entries| - 1].key))
  }

  /** Too few proper items, and then a fault. */
  ghost predicate FaultyItems(n: nat, s: Bytes, depth: nat, lim: Limits, e: DecodeError)
    decreases lim.nesting + 1 - depth, 2
  {
    exists items, rest :: ItemsThen(items, rest, n, s, depth, lim) && Fault(rest, depth, lim, e)
  }

  /** A fault in a key, a proper key that is out of place, or a fault in its value. */
  ghost predicate FaultyEntry(s: Bytes, last: Option<Bytes>, depth: nat, lim: Limits, e: DecodeError)
    decreases lim.nesting + 1 - depth, 2
  {
    || Fault(s, depth, lim, e)
    || exists key, rest :: ItemThen(key, rest, s, depth, lim)
         && if last.Some? && !LengthFirstLt(last.value, Raw(key)) then e == NonCanonicalMapOrder else Fault(rest, depth, lim, e)
  }

  /** Too few proper entries, and then a fault in the next one. */
  ghost predicate FaultyEntries(n: nat, s: Bytes, depth: nat, previous: Option<Bytes>, lim: Limits, e: DecodeError)
    decreases lim.nesting + 1 - depth, 3
  {
    exists entries, rest :: EntriesThen(entries, rest, n, s, depth, previous, lim) && FaultyEntry(rest, LastKey(entries, previous), depth, lim, e)
  }

  /** A fault in what a proper head announces. */
  ghost predicate NestedFault(major: nat, n: u64, s: Bytes, depth: nat, lim: Limits, e: DecodeError)
    requires depth <= lim.nesting
    decreases lim.nesting + 1 - depth, 0
  {
    match major
    case 4 => n <= lim.arrayEntries && FaultyItems(n, s, depth + 1, lim, e)
    case 5 => n <= lim.mapEntries && FaultyEntries(n, s, depth + 1, None, lim, e)
    case 6 => n == SIGN1_TAG && Fault(s, depth + 1, lim, e)
    case _ => false
  }

  /** `e` is the first fault of `s` as an item at nesting level `depth`. */
  ghost predicate Fault(s: Bytes, depth: nat, lim: Limits, e: DecodeError)
    decreases lim.nesting + 1 - depth, 1
  {
    if depth > lim.nesting then e == NestingTooDeep
    else if s == [] then e == UnexpectedEof
    else
      || HeadFault(s, e)
      || exists major: nat, n: u64, rest :: HeadThenRest(major, n, rest, s) && (ContentFault(major, n, rest, lim, e) || NestedFault(major, n, rest, depth, lim, e))
  }

  // ----- heads

  lemma MinimalIsShortest(major: nat, n: nat, low: nat)
    requires major <= 7 && 24 <= low <= 27 && n < Pow256(Width(low))
    ensures Minimal(Width(low), n) <==> |Head(major, n)| >= 1 + Width(low)
  {
    Pow256Values();
  }

  /** A number in a given width is longer than need be exactly when it is not minimal there. */
  lemma LongHeadExactly(s: Bytes, major: nat, low: nat)
    requires major <= 7 && 24 <= low <= 27 && |s| >= 1 + Width(low)
    ensures FromBigEndian(s[1..][..Width(low)]) < Pow256(Width(low))
    ensures LongHead(s, major, Width(low)) <==> !Minimal(Width(low), FromBigEndian(s[1..][..Width(low)]))
  {
    hide BigEndian, FromBigEndian, Pow256, Head, Minimal, Width;
    var w := Width(low);
    var b := s[1..1 + w];
    assert s[1..][..w] == b;
    ToFromBigEndian(b);
    MinimalIsShortest(major, FromBigEndian(b), low);
    forall n: nat | b == BigEndian(n, w) && n < Pow256(w) ensures n == FromBigEndian(b) {
      FromToBigEndian(n, w);
    }
  }

  /** A head is refused for its own sake exactly when it has a fault, and else it is the head of a number. */
  lemma HeadsExactly(s: Bytes, e: DecodeError)
    requires s != [] && (s[0] as int / 32 < 7 || s[0] as int % 32 == 31)
    ensures HeadFault(s, e) <==> (if s[0] as int % 32 == 31 then e == IndefiniteLength else Argument(s[0] as int % 32, s[1..]) == Err(e))
  {
    hide FromBigEndian, BigEndian, LongHead, Minimal;
    var major, low := s[0] as int / 32, s[0] as int % 32;
    if 24 <= low <= 27 && |s| >= 1 + Width(low) {
      LongHeadExactly(s, major, low);
    }
  }

  /** Bytes begin with one proper head at most. */
  lemma OneHead(major: nat, n: u64, rest: Bytes, s: Bytes)
    requires HeadThenRest(major, n, rest, s)
    ensures s != [] && s[0] as int / 32 == major && s[0] as int % 32 < 28 && Argument(s[0] as int % 32, s[1..]) == Ok(Parsed(n, rest))
  {
    hide Head, Argument;
    HeadParses(major, n, rest);
  }

  lemma ArgumentIsSmall(low: nat, s: Bytes)
    ensures Argument(low, s).Ok? ==> low < 28
  {
  }

  // ----- the parser finds the first fault

  /** Bytes begin with one proper item at most. */
  lemma OneItem(x: Value, t: Bytes, y: Value, u: Bytes, depth: nat, lim: Limits)
    requires Canonical(x, depth, lim) && Canonical(y, depth, lim) && Raw(x) + t == Raw(y) + u
    ensures x == y && t == u
  {
    ItemExactly(Raw(x) + t, x, t, depth, lim);
    ItemExactly(Raw(x) + t, y, u, depth, lim);
  }

  lemma {:induction false} FaultsExactly(s: Bytes, depth: nat, lim: Limits, e: DecodeError)
    ensures Item(s, depth, lim) == Err(e) <==> Fault(s, depth, lim, e)
    decreases lim.nesting + 1 - depth, 2
  {
    hide HeadFault, ContentFault, NestedFault, Argument, Head, Content, HeadThenRest, Simple;
    if depth <= lim.nesting && s != [] {
      var major, low := s[0] as int / 32, s[0] as int % 32;
      if major == 7 && low != 31 {
        SimplesExactly(s, e);
        NoHead(s);
      } else {
        HeadsExactly(s, e);
        if low != 31 && Argument(low, s[1..]).Ok? {
          var p := Argument(low, s[1..]).value;
          BeginsWithHead(s);
          ContentsExactly(major, p.value, p.rest, depth, lim, e);
          forall major': nat, n': u64, rest | HeadThenRest(major', n', rest, s) ensures major' == major && n' == p.value && rest == p.rest {
            OneHead(major', n', rest, s);
          }
        } else {
          NoHead(s);
        }
      }
    }
  }

  lemma SimplesExactly(s: Bytes, e: DecodeError)
    requires s != [] && s[0] as int / 32 == 7 && s[0] as int % 32 != 31
    ensures Simple(s[0] as int % 32, s[1..]) == Err(e) <==> HeadFault(s, e)
  {
  }

  lemma NoHead(s: Bytes)
    requires s != [] && (s[0] as int / 32 == 7 || s[0] as int % 32 == 31 || Argument(s[0] as int % 32, s[1..]).Err?)
    ensures forall major: nat, n: u64, rest :: !HeadThenRest(major, n, rest, s)
  {
    hide Argument, Head;
    forall major: nat, n: u64, rest ensures !HeadThenRest(major, n, rest, s) {
      if HeadThenRest(major, n, rest, s) {
        OneHead(major, n, rest, s);
      }
    }
  }

  lemma BeginsWithHead(s: Bytes)
    requires s != [] && s[0] as int / 32 < 7 && Argument(s[0] as int % 32, s[1..]).Ok?
    ensures var p := Argument(s[0] as int % 32, s[1..]).value; HeadThenRest(s[0] as int / 32, p.value, p.rest, s)
  {
    hide Argument, Head;
    ArgumentIsHead(s[0] as int / 32, s[0] as int % 32, s[1..]);
    assert s == [s[0]] + s[1..];
  }

  lemma {:induction false} ContentsExactly(major: nat, n: u64, s: Bytes, depth: nat, lim: Limits, e: DecodeError)
    requires major <= 6 && depth <= lim.nesting
    ensures Content(major, n, s, depth, lim) == Err(e) <==> ContentFault(major, n, s, lim, e) || NestedFault(major, n, s, depth, lim, e)
    decreases lim.nesting + 1 - depth, 0
  {
    hide Items, Entries, Fault, FaultyItems, FaultyEntries, Item;
    match major
    case 4 => if n <= lim.arrayEntries { ItemsExactly(s, n, depth + 1, lim, e); }
    case 5 => if n <= lim.mapEntries { EntriesExactly(s, n, depth + 1, None, lim, e); }
    case 6 => FaultsExactly(s, depth + 1, lim, e);
    case _ =>
  }

  lemma {:induction false} ItemsExactly(s: Bytes, count: nat, depth: nat, lim: Limits, e: DecodeError)
    ensures Items(s, count, depth, lim) == Err(e) <==> FaultyItems(count, s, depth, lim, e)
    decreases lim.nesting + 1 - depth, 3, count
  {
    hide Item, Fault, Raw, Canonical, FaultyItems;
    if count == 0 {
      NoItems(s, depth, lim, e);
    } else {
      FaultsExactly(s, depth, lim, e);
      if Item(s, depth, lim).Ok? {
        var x := Item(s, depth, lim).value;
        ItemSound(s, depth, lim);
        ItemsExactly(x.rest, count - 1, depth, lim, e);
        LaterItem(x.value, x.rest, s, count - 1, depth, lim, e);
      } else {
        FirstItem(s, count, depth, lim, e);
      }
    }
  }

  lemma NoItems(s: Bytes, depth: nat, lim: Limits, e: DecodeError)
    ensures !FaultyItems(0, s, depth, lim, e)
  {
  }

  lemma FirstItem(s: Bytes, count: nat, depth: nat, lim: Limits, e: DecodeError)
    requires count > 0 && Item(s, depth, lim).Err?
    ensures FaultyItems(count, s, depth, lim, e) <==> Fault(s, depth, lim, e)
  {
    hide Item, Fault, Raw, Canonical;
    assert s == RawItems([]) + s;
    assert ItemsThen([], s, count, s, depth, lim);
    forall items: seq<Value>, rest | ItemsThen(items, rest, count, s, depth, lim) ensures rest == s {
      if items != [] {
        assert items == [items[0]] + items[1..];
        RawItemsCons(items[0], items[1..], rest);
        ItemComplete(items[0], RawItems(items[1..]) + rest, depth, lim);
        assert false;
      }
    }
  }

  /** Items in front of which an item is put. */
  lemma ItemBefore(x: Value, t: Bytes, items: seq<Value>, rest: Bytes, n: nat, depth: nat, lim: Limits)
    requires Canonical(x, depth, lim) && ItemsThen(items, rest, n, t, depth, lim)
    ensures ItemsThen([x] + items, rest, n + 1, Raw(x) + t, depth, lim)
  {
    hide Raw, Canonical;
    RawItemsCons(x, items, rest);
    assert ([x] + items)[1..] == items;
  }

  /** What is left of items that begin with a given one. */
  lemma ItemsBehind(x: Value, t: Bytes, items: seq<Value>, rest: Bytes, n: nat, depth: nat, lim: Limits)
    requires Canonical(x, depth, lim) && items != [] && ItemsThen(items, rest, n + 1, Raw(x) + t, depth, lim)
    ensures ItemsThen(items[1..], rest, n, t, depth, lim)
  {
    hide Raw, Canonical;
    assert items == [items[0]] + items[1..];
    RawItemsCons(items[0], items[1..], rest);
    OneItem(x, t, items[0], RawItems(items[1..]) + rest, depth, lim);
  }

  lemma NoItemYet(rest: Bytes, n: nat, s: Bytes, depth: nat, lim: Limits)
    requires ItemsThen([], rest, n, s, depth, lim)
    ensures rest == s
  {
  }

  lemma LaterItem(x: Value, t: Bytes, s: Bytes, n: nat, depth: nat, lim: Limits, e: DecodeError)
    requires s == Raw(x) + t && Canonical(x, depth, lim) && !Fault(s, depth, lim, e)
    ensures FaultyItems(n + 1, s, depth, lim, e) <==> FaultyItems(n, t, depth, lim, e)
  {
    hide Fault, Raw, Canonical, ItemsThen;
    var more := n + 1;
    if FaultyItems(n, t, depth, lim, e) {
      var items, rest :| ItemsThen(items, rest, n, t, depth, lim) && Fault(rest, depth, lim, e);
      ItemBefore(x, t, items, rest, n, depth, lim);
    }
    if FaultyItems(more, s, depth, lim, e) {
      var items: seq<Value>, rest :| ItemsThen(items, rest, more, s, depth, lim) && Fault(rest, depth, lim, e);
      if items == [] {
        NoItemYet(rest, more, s, depth, lim);
      }
      ItemsBehind(x, t, items, rest, n, depth, lim);
    }
  }

  /** How reading one entry fails, if it does. */
  function EntryError(s: Bytes, depth: nat, previous: Option<Bytes>, lim: Limits): (e: Option<DecodeError>) {
    match Item(s, depth, lim)
    case Err(e) => Some(e)
    case Ok(k) =>
      if previous.Some? && !LengthFirstLt(previous.value, Raw(k.value)) then Some(NonCanonicalMapOrder)
      else match Item(k.rest, depth, lim)
        case Err(e) => Some(e)
        case Ok(_) => None
  }

  lemma {:induction false} EntryExactly(s: Bytes, depth: nat, previous: Option<Bytes>, lim: Limits, e: DecodeError)
    ensures EntryError(s, depth, previous, lim) == Some(e) <==> FaultyEntry(s, previous, depth, lim, e)
    decreases lim.nesting + 1 - depth, 3
  {
    hide Item, Fault, Raw, Canonical, LengthFirstLt;
    FaultsExactly(s, depth, lim, e);
    if Item(s, depth, lim).Ok? {
      ItemSound(s, depth, lim);
      var k := Item(s, depth, lim).value;
      FaultsExactly(k.rest, depth, lim, e);
      assert ItemThen(k.value, k.rest, s, depth, lim);
      forall key, rest | ItemThen(key, rest, s, depth, lim) ensures key == k.value && rest == k.rest {
        OneItem(key, rest, k.value, k.rest, depth, lim);
      }
    } else {
      forall key, rest ensures !ItemThen(key, rest, s, depth, lim) {
        if ItemThen(key, rest, s, depth, lim) {
          ItemComplete(key, rest, depth, lim);
        }
      }
    }
  }

  lemma {:induction false} EntriesExactly(s: Bytes, count: nat, depth: nat, previous: Option<Bytes>, lim: Limits, e: DecodeError)
    ensures Entries(s, count, depth, previous, lim) == Err(e) <==> FaultyEntries(count, s, depth, previous, lim, e)
    decreases lim.nesting + 1 - depth, 4, count
  {
    hide Item, Fault, Raw, Canonical, FaultyEntries, FaultyEntry, LengthFirstLt;
    if count == 0 {
      NoEntries(s, depth, previous, lim, e);
    } else {
      EntryExactly(s, depth, previous, lim, e);
      if EntryError(s, depth, previous, lim).Some? {
        FirstEntry(s, count, depth, previous, lim, e);
        if Item(s, depth, lim).Ok? {
          ItemSound(s, depth, lim);
          ConsumedIsPrefix(Raw(Item(s, depth, lim).value.value), Item(s, depth, lim).value.rest);
        }
      } else {
        var k := Item(s, depth, lim).value;
        ItemSound(s, depth, lim);
        ConsumedIsPrefix(Raw(k.value), k.rest);
        ItemSound(k.rest, depth, lim);
        var x := Item(k.rest, depth, lim).value;
        EntriesExactly(x.rest, count - 1, depth, Some(Raw(k.value)), lim, e);
        LaterEntry(Entry(k.value, x.value), x.rest, s, count - 1, depth, previous, lim, e);
      }
    }
  }

  lemma NoEntries(s: Bytes, depth: nat, previous: Option<Bytes>, lim: Limits, e: DecodeError)
    ensures !FaultyEntries(0, s, depth, previous, lim, e)
  {
  }

  lemma FirstEntry(s: Bytes, count: nat, depth: nat, previous: Option<Bytes>, lim: Limits, e: DecodeError)
    requires count > 0 && EntryError(s, depth, previous, lim).Some?
    ensures FaultyEntries(count, s, depth, previous, lim, e) <==> FaultyEntry(s, previous, depth, lim, e)
  {
    hide Item, FaultyEntry, Raw, Canonical, LengthFirstLt;
    assert s == RawEntries([]) + s;
    assert EntriesThen([], s, count, s, depth, previous, lim);
    forall entries: seq<Entry>, rest | EntriesThen(entries, rest, count, s, depth, previous, lim) ensures entries == [] && rest == s {
      if entries != [] {
        assert entries == [entries[0]] + entries[1..];
        RawEntriesCons(entries[0].key, entries[0].value, entries[1..], rest);
        EntryComplete(entries[0], RawEntries(entries[1..]) + rest, depth, lim);
        assert false;
      }
    }
  }

  /** Entries in front of which an entry is put. */
  lemma EntryBefore(first: Entry, t: Bytes, entries: seq<Entry>, rest: Bytes, n: nat, depth: nat, previous: Option<Bytes>, lim: Limits)
    requires CanonicalEntry(first, depth, lim) && (previous.Some? ==> LengthFirstLt(previous.value, Raw(first.key)))
    requires EntriesThen(entries, rest, n, t, depth, Some(Raw(first.key)), lim)
    ensures EntriesThen([first] + entries, rest, n + 1, Raw(first.key) + (Raw(first.value) + t), depth, previous, lim)
    ensures LastKey([first] + entries, previous) == LastKey(entries, Some(Raw(first.key)))
  {
    hide Raw, Canonical, LengthFirstLt;
    KeyAndValue(first, depth, lim);
    RawEntriesCons(first.key, first.value, entries, rest);
    CanonicalEntriesCons(first, entries, depth, previous, lim);
  }

  /** What is left of entries that begin with a given one. */
  lemma EntriesBehind(first: Entry, t: Bytes, entries: seq<Entry>, rest: Bytes, n: nat, depth: nat, previous: Option<Bytes>, lim: Limits)
    requires CanonicalEntry(first, depth, lim) && entries != []
    requires EntriesThen(entries, rest, n + 1, Raw(first.key) + (Raw(first.value) + t), depth, previous, lim)
    ensures EntriesThen(entries[1..], rest, n, t, depth, Some(Raw(first.key)), lim)
    ensures LastKey(entries, previous) == LastKey(entries[1..], Some(Raw(first.key)))
  {
    hide Raw, Canonical, LengthFirstLt;
    var e, later := entries[0], RawEntries(entries[1..]) + rest;
    assert entries == [e] + entries[1..];
    RawEntriesCons(e.key, e.value, entries[1..], rest);
    KeyAndValue(first, depth, lim);
    KeyAndValue(e, depth, lim);
    OneItem(first.key, Raw(first.value) + t, e.key, Raw(e.value) + later, depth, lim);
    OneItem(first.value, t, e.value, later, depth, lim);
  }

  lemma LaterEntry(first: Entry, t: Bytes, s: Bytes, n: nat, depth: nat, previous: Option<Bytes>, lim: Limits, e: DecodeError)
    requires s == Raw(first.key) + (Raw(first.value) + t) && CanonicalEntry(first, depth, lim)
    requires (previous.Some? ==> LengthFirstLt(previous.value, Raw(first.key))) && !FaultyEntry(s, previous, depth, lim, e)
    ensures FaultyEntries(n + 1, s, depth, previous, lim, e) <==> FaultyEntries(n, t, depth, Some(Raw(first.key)), lim, e)
  {
    hide FaultyEntry, Raw, CanonicalEntry, LengthFirstLt, EntriesThen, LastKey;
    var last, more := Some(Raw(first.key)), n + 1;
    if FaultyEntries(n, t, depth, last, lim, e) {
      var entries, rest :| EntriesThen(entries, rest, n, t, depth, last, lim) && FaultyEntry(rest, LastKey(entries, last), depth, lim, e);
      EntryBefore(first, t, entries, rest, n, depth, previous, lim);
    }
    if FaultyEntries(more, s, depth, previous, lim, e) {
      var entries: seq<Entry>, rest :| EntriesThen(entries, rest, more, s, depth, previous, lim) && FaultyEntry(rest, LastKey(entries, previous), depth, lim, e);
      if entries == [] {
        NoneYet(rest, more, s, depth, previous, lim);
      }
      EntriesBehind(first, t, entries, rest, n, depth, previous, lim);
    }
  }

  lemma NoneYet(rest: Bytes, n: nat, s: Bytes, depth: nat, previous: Option<Bytes>, lim: Limits)
    requires EntriesThen([], rest, n, s, depth, previous, lim)
    ensures rest == s && LastKey([], previous) == previous
  {
  }

  lemma KeyAndValue(e: Entry, depth: nat, lim: Limits)
    requires CanonicalEntry(e, depth, lim)
    ensures Canonical(e.key, depth, lim) && Canonical(e.value, depth, lim)
  {
  }

  // ----- whole messages

  /** Why a message is refused: its size first, then its first fault, then what stands after a proper value. */
  lemma RefusedExactly(input: Bytes, lim: Limits, e: DecodeError)
    ensures DecodeWithLimits(input, lim) == Err(e) <==>
      if |input| > lim.messageBytes then e == MessageTooLarge
      else Fault(input, 0, lim, e) || (e == TrailingBytes && exists v, rest :: ItemThen(v, rest, input, 0, lim) && rest != [])
  {
    hide Item, Fault, Raw, Canonical;
    FaultsExactly(input, 0, lim, e);
    if Item(input, 0, lim).Ok? {
      ItemSound(input, 0, lim);
      var p := Item(input, 0, lim).value;
      assert ItemThen(p.value, p.rest, input, 0, lim);
    }
    forall v, rest | ItemThen(v, rest, input, 0, lim) ensures Item(input, 0, lim) == Ok(Parsed(v, rest)) {
      ItemComplete(v, rest, 0, lim);
    }
  }

  // ----- more input

  predicate Settled<T>(r: Result<T, DecodeError>) {
    r.Err? && r.error != UnexpectedEof
  }

  lemma ArgumentSettles(additional: nat, s: Bytes, t: Bytes)
    ensures Settled(Argument(additional, s)) ==> Argument(additional, s + t) == Argument(additional, s)
    ensures Argument(additional, s).Ok? ==> Argument(additional, s + t) == Ok(Parsed(Argument(additional, s).value.value, Argument(additional, s).value.rest + t))
  {
    if 24 <= additional <= 27 && |s| >= Width(additional) {
      var w := Width(additional);
      assert (s + t)[..w] == s[..w] && (s + t)[w..] == s[w..] + t;
    }
  }

  lemma OkExtends(s: Bytes, t: Bytes, depth: nat, lim: Limits)
    requires Item(s, depth, lim).Ok?
    ensures Item(s + t, depth, lim) == Ok(Parsed(Item(s, depth, lim).value.value, Item(s, depth, lim).value.rest + t))
  {
    hide Item, Canonical, Raw;
    var p := Item(s, depth, lim).value;
    ItemSound(s, depth, lim);
    assert Raw(p.value) + p.rest + t == Raw(p.value) + (p.rest + t);
    ItemExactly(s + t, p.value, p.rest + t, depth, lim);
  }

  /** An error other than running out of input is there to stay, whatever follows. */
  lemma {:induction false} ErrorsSettle(s: Bytes, t: Bytes, depth: nat, lim: Limits)
    requires Settled(Item(s, depth, lim))
    ensures Item(s + t, depth, lim) == Item(s, depth, lim)
    decreases lim.nesting + 1 - depth, 1
  {
    hide Argument, Content;
    if depth <= lim.nesting {
      var major, low := s[0] as int / 32, s[0] as int % 32;
      assert (s + t)[0] == s[0] && (s + t)[1..] == s[1..] + t;
      ArgumentSettles(low, s[1..], t);
      if low != 31 && major < 7 && Argument(low, s[1..]).Ok? {
        var n := Argument(low, s[1..]).value;
        ContentSettles(major, n.value, n.rest, t, depth, lim);
      }
    }
  }

  lemma {:induction false} ContentSettles(major: nat, n: u64, s: Bytes, t: Bytes, depth: nat, lim: Limits)
    requires major <= 6 && depth <= lim.nesting && Settled(Content(major, n, s, depth, lim))
    ensures Content(major, n, s + t, depth, lim) == Content(major, n, s, depth, lim)
    decreases lim.nesting + 1 - depth, 0
  {
    hide Items, Entries, Item, Utf8.WellFormed;
    match major
    case 3 => if n <= |s| { assert (s + t)[..n] == s[..n]; }
    case 4 => if n <= lim.arrayEntries { ItemsSettle(s, n, t, depth + 1, lim); }
    case 5 => if n <= lim.mapEntries { EntriesSettle(s, n, t, depth + 1, None, lim); }
    case 6 => if n == SIGN1_TAG { ErrorsSettle(s, t, depth + 1, lim); }
    case _ =>
  }

  lemma {:induction false} ItemsSettle(s: Bytes, count: nat, t: Bytes, depth: nat, lim: Limits)
    requires Settled(Items(s, count, depth, lim))
    ensures Items(s + t, count, depth, lim) == Items(s, count, depth, lim)
    decreases lim.nesting + 1 - depth, 2, count
  {
    hide Item;
    if count > 0 {
      if Item(s, depth, lim).Ok? {
        OkExtends(s, t, depth, lim);
        ItemsSettle(Item(s, depth, lim).value.rest, count - 1, t, depth, lim);
      } else {
        ErrorsSettle(s, t, depth, lim);
      }
    }
  }

  lemma {:induction false} EntriesSettle(s: Bytes, count: nat, t: Bytes, depth: nat, previous: Option<Bytes>, lim: Limits)
    requires Settled(Entries(s, count, depth, previous, lim))
    ensures Entries(s + t, count, depth, previous, lim) == Entries(s, count, depth, previous, lim)
    decreases lim.nesting + 1 - depth, 2, count
  {
    hide Item, LengthFirstLt;
    if count > 0 {
      if Item(s, depth, lim).Ok? {
        OkExtends(s, t, depth, lim);
        var k := Item(s, depth, lim).value;
        ItemSound(s, depth, lim);
        SameKey(Raw(k.value), k.rest, t);
        if previous.None? || LengthFirstLt(previous.value, Consumed(s, k.rest)) {
          if Item(k.rest, depth, lim).Ok? {
            OkExtends(k.rest, t, depth, lim);
            EntriesSettle(Item(k.rest, depth, lim).value.rest, count - 1, t, depth, Some(Consumed(s, k.rest)), lim);
          } else {
            ErrorsSettle(k.rest, t, depth, lim);
          }
        }
      } else {
        ErrorsSettle(s, t, depth, lim);
      }
    }
  }

  lemma SameKey(key: Bytes, rest: Bytes, t: Bytes)
    ensures Consumed(key + rest + t, rest + t) == Consumed(key + rest, rest) == key
  {
    assert key + rest + t == key + (rest + t);
    ConsumedIsPrefix(key, rest + t);
    ConsumedIsPrefix(key, rest);
  }

  /** An accepted message that is cut short anywhere is told to have ended too soon. */
  lemma TruncationIsEof(input: Bytes, n: nat, lim: Limits)
    requires DecodeWithLimits(input, lim).Ok? && n < |input|
    ensures DecodeWithLimits(input[..n], lim) == Err(UnexpectedEof)
  {
    hide Item;
    var s, t := input[..n], input[n..];
    assert s + t == input;
    if Item(s, 0, lim).Ok? {
      OkExtends(s, t, 0, lim);
    } else if Settled(Item(s, 0, lim)) {
      ErrorsSettle(s, t, 0, lim);
    }
  }
}
