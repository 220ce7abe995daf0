/** The Rust parser and encoder as they run: a cursor over the input, and a growing output buffer. */
module CborMachine {
  import opened ByteStrings
  import opened Results
  import opened Sorting
  import opened Cbor
  import opened CborEncoding
  import Utf8

  class Parser {
    const input: Bytes
    const limits: Limits
    var offset: nat

    ghost predicate Valid()
      reads this
    {
      offset <= |input|
    }

    ghost function Rest(): (s: Bytes)
      requires Valid()
      reads this
    {
      input[offset..]
    }

    /** `r` and the new cursor are what the grammar `spec` prescribes. */
    ghost predicate Follows<T>(r: Result<T, DecodeError>, spec: Result<Parsed<T>, DecodeError>)
      requires Valid()
      reads this
    {
      match spec
      case Ok(p) => r == Ok(p.value) && Rest() == p.rest
      case Err(e) => r == Err(e)
    }

    constructor (input: Bytes, limits: Limits)
      ensures Valid() && offset == 0 && this.input == input && this.limits == limits
    {
      this.input := input;
      this.limits := limits;
      offset := 0;
    }

    method TakeByte() returns (r: Result<byte, DecodeError>)
      requires Valid()
      modifies this`offset
      ensures Valid() && old(offset) <= offset
      ensures old(Rest()) == [] ==> r == Err(UnexpectedEof)
      ensures old(Rest()) != [] ==> r == Ok(old(Rest())[0]) && Rest() == old(Rest())[1..]
    {
      if offset == |input| {
        return Err(UnexpectedEof);
      }
      r := Ok(input[offset]);
      offset := offset + 1;
    }

    method TakeBytes(length: nat) returns (r: Result<Bytes, DecodeError>)
      requires Valid()
      modifies this`offset
      ensures Valid() && old(offset) <= offset
      ensures Follows(r, Take(length, old(Rest())))
    {
      var end := offset + length;
      if end > |input| {
        return Err(UnexpectedEof);
      }
      assert Rest()[..length] == input[offset..end] && Rest()[length..] == input[end..];
      r := Ok(input[offset..end]);
      offset := end;
    }

    method ReadArgument(additional: nat) returns (r: Result<u64, DecodeError>)
      requires Valid()
      modifies this`offset
      ensures Valid() && old(offset) <= offset
      ensures Follows(r, Argument(additional, old(Rest())))
    {
      hide FromBigEndian;
      if additional <= 23 {
        return Ok(additional);
      }
      if additional > 27 {
        return Err(IndefiniteLength);
      }
      var w := Width(additional);
      var b := TakeBytes(w);
      if b.Err? {
        return Err(b.error);
      }
      ToFromBigEndian(b.value);
      Pow256Values();
      var n := FromBigEndian(b.value);
      r := if Minimal(w, n) then Ok(n) else Err(NonCanonicalInteger);
    }

    method ReadValue(depth: nat) returns (r: Result<Value, DecodeError>)
      requires Valid()
      modifies this`offset
      ensures Valid() && old(offset) <= offset
      ensures Follows(r, Item(old(Rest()), depth, limits))
      decreases limits.nesting + 1 - depth, 2
    {
      hide Argument, Content;
      if depth > limits.nesting {
        return Err(NestingTooDeep);
      }
      var initial := TakeByte();
      if initial.Err? {
        return Err(initial.error);
      }
      var major, additional := initial.value as int / 32, initial.value as int % 32;
      if additional == 31 {
        return Err(IndefiniteLength);
      }
      if major == 7 {
        r := if additional == 20 then Ok(Bool(false)) else if additional == 21 then Ok(Bool(true))
             else if additional == 22 then Ok(Null) else Err(UnsupportedType);
        return;
      }
      var n := ReadArgument(additional);
      if n.Err? {
        return Err(n.error);
      }
      r := ReadContent(major, n.value, depth);
    }

    method ReadContent(major: nat, n: u64, depth: nat) returns (r: Result<Value, DecodeError>)
      requires Valid() && major <= 6 && depth <= limits.nesting
      modifies this`offset
      ensures Valid() && old(offset) <= offset
      ensures Follows(r, Content(major, n, old(Rest()), depth, limits))
      decreases limits.nesting + 1 - depth, 1
    {
      hide Item, Items, Entries;
      if major == 0 {
        r := Ok(Unsigned(n));
      } else if major == 1 {
        r := if n > I64_MAX then Err(IntegerOutOfRange) else Ok(Negative(-1 - n as int));
      } else if major == 2 {
        r := ReadByteString(n);
      } else if major == 3 {
        r := ReadTextString(n);
      } else if major == 4 {
        if n > limits.arrayEntries {
          return Err(CollectionTooLarge(ArrayKind));
        }
        var items := ReadItems(n, depth + 1);
        r := if items.Ok? then Ok(Array(items.value)) else Err(items.error);
      } else if major == 5 {
        if n > limits.mapEntries {
          return Err(CollectionTooLarge(MapKind));
        }
        var entries := ReadEntries(n, depth + 1);
        r := if entries.Ok? then Ok(Map(entries.value)) else Err(entries.error);
      } else {
        if n != SIGN1_TAG {
          return Err(UnsupportedTag(n));
        }
        var item := ReadValue(depth + 1);
        r := if item.Ok? then Ok(Tag(n, item.value)) else Err(item.error);
      }
    }

    method ReadByteString(n: u64) returns (r: Result<Value, DecodeError>)
      requires Valid()
      modifies this`offset
      ensures Valid() && old(offset) <= offset
      ensures Follows(r, Content(2, n, old(Rest()), 0, limits))
    {
      if n > limits.byteStringBytes {
        return Err(CollectionTooLarge(ByteStringKind));
      }
      var b := TakeBytes(n);
      r := if b.Ok? then Ok(ByteString(b.value)) else Err(b.error);
    }

    method ReadTextString(n: u64) returns (r: Result<Value, DecodeError>)
      requires Valid()
      modifies this`offset
      ensures Valid() && old(offset) <= offset
      ensures Follows(r, Content(3, n, old(Rest()), 0, limits))
    {
      hide Utf8.WellFormed;
      if n > limits.textStringBytes {
        return Err(CollectionTooLarge(TextStringKind));
      }
      var b := TakeBytes(n);
      if b.Err? {
        return Err(b.error);
      }
      if !Utf8.WellFormed(b.value) {
        return Err(InvalidUtf8);
      }
      r := Ok(TextString(b.value));
    }

    /** The array loop. */
    method ReadItems(length: nat, depth: nat) returns (r: Result<seq<Value>, DecodeError>)
      requires Valid()
      modifies this`offset
      ensures Valid() && old(offset) <= offset
      ensures Follows(r, Items(old(Rest()), length, depth, limits))
      decreases limits.nesting + 1 - depth, 3
    {
      hide Item;
      var values: seq<Value> := [];
      ghost var start := Rest();
      AfterNothing(Items(start, length, depth, limits));
      for i := 0 to length
        invariant Valid() && old(offset) <= offset
        invariant Items(start, length, depth, limits) == After(values, Items(Rest(), length - i, depth, limits))
      {
        var item := ReadValue(depth);
        if item.Err? {
          return Err(item.error);
        }
        AfterOne(values, item.value, Items(Rest(), length - i - 1, depth, limits));
        values := values + [item.value];
      }
      assert values + [] == values;
      r := Ok(values);
    }

    /** The map loop, which remembers the previous encoded key. */
    method ReadEntries(length: nat, depth: nat) returns (r: Result<seq<Entry>, DecodeError>)
      requires Valid()
      modifies this`offset
      ensures Valid() && old(offset) <= offset
      ensures Follows(r, Entries(old(Rest()), length, depth, None, limits))
      decreases limits.nesting + 1 - depth, 3
    {
      hide Item, LengthFirstLt;
      var entries: seq<Entry> := [];
      var previous: Option<Bytes> := None;
      ghost var start := Rest();
      AfterNothing(Entries(start, length, depth, None, limits));
      for i := 0 to length
        invariant Valid() && old(offset) <= offset
        invariant Entries(start, length, depth, None, limits) == After(entries, Entries(Rest(), length - i, depth, previous, limits))
      {
        var keyStart := offset;
        ghost var before := Rest();
        var key := ReadValue(depth);
        if key.Err? {
          return Err(key.error);
        }
        var keyBytes := input[keyStart..offset];
        assert keyBytes == Consumed(before, Rest());
        if previous.Some? && !LengthFirstLt(previous.value, keyBytes) {
          return Err(NonCanonicalMapOrder);
        }
        var value := ReadValue(depth);
        if value.Err? {
          return Err(value.error);
        }
        var entry := Entry(key.value, value.value);
        AfterOne(entries, entry, Entries(Rest(), length - i - 1, depth, Some(keyBytes), limits));
        previous := Some(keyBytes);
        entries := entries + [entry];
      }
      assert entries + [] == entries;
      r := Ok(entries);
    }
  }

  method RunDecode(input: Bytes, limits: Limits) returns (r: Result<Value, DecodeError>)
    ensures r == DecodeWithLimits(input, limits)
  {
    hide Item;
    if |input| > limits.messageBytes {
      return Err(MessageTooLarge);
    }
    var parser := new Parser(input, limits);
    var value := parser.ReadValue(0);
    if value.Err? {
      return Err(value.error);
    }
    if parser.offset != |input| {
      return Err(TrailingBytes);
    }
    r := value;
  }

  // ----- encoding into a buffer

  class Output {
    var bytes: Bytes

    constructor ()
      ensures bytes == []
    {
      bytes := [];
    }

    method Push(more: Bytes)
      modifies this
      ensures bytes == old(bytes) + more
    {
      bytes := bytes + more;
    }

    method WriteHead(major: nat, value: u64)
      requires major <= 7
      modifies this
      ensures bytes == old(bytes) + Head(major, value)
    {
      if value <= 23 {
        Push([32 * major + value]);
      } else if value <= 0xff {
        Push([32 * major + 24] + BigEndian(value, 1));
      } else if value <= 0xffff {
        Push([32 * major + 25]);
        Push(BigEndian(value, 2));
      } else if value <= 0xffff_ffff {
        Push([32 * major + 26]);
        Push(BigEndian(value, 4));
      } else {
        Push([32 * major + 27]);
        Push(BigEndian(value, 8));
      }
    }
  }

  /** Success appended exactly `spec` to the buffer; failure is `spec`'s failure. */
  ghost predicate Wrote(before: Bytes, after: Bytes, r: Result<(), EncodeError>, spec: Result<Bytes, EncodeError>) {
    match spec
    case Ok(b) => r == Ok(()) && after == before + b
    case Err(e) => r == Err(e)
  }

  method RunEncode(value: Value) returns (r: Result<Bytes, EncodeError>)
    ensures r == Encode(value)
    decreases value, 1
  {
    hide EncodeInto, Decode;
    var output := new Output();
    var wrote := RunEncodeInto(value, output);
    if wrote.Err? {
      return Err(wrote.error);
    }
    assert output.bytes == EncodeInto(value).value;
    var check := RunDecode(output.bytes, DEFAULT_LIMITS);
    assert Decode(output.bytes) == check by {
      DecodeIsDefault(output.bytes);
    }
    r := if check.Ok? then Ok(output.bytes) else Err(Profile(check.error));
  }

  lemma DecodeIsDefault(input: Bytes)
    ensures Decode(input) == DecodeWithLimits(input, DEFAULT_LIMITS)
  {
    hide DecodeWithLimits;
  }

  method RunEncodeInto(value: Value, output: Output) returns (r: Result<(), EncodeError>)
    modifies output
    ensures Wrote(old(output.bytes), output.bytes, r, EncodeInto(value))
    decreases value, 0
  {
    hide Head, EncodeItems, EncodeKeys, Joined, Sort;
    match value
    case Unsigned(n) =>
      output.WriteHead(0, n);
      r := Ok(());
    case Negative(i) =>
      if i >= 0 {
        return Err(NegativeOutOfRange);
      }
      output.WriteHead(1, -1 - i);
      r := Ok(());
    case ByteString(b) =>
      r := RunEncodeString(2, b, output);
    case TextString(t) =>
      r := RunEncodeString(3, t, output);
    case Array(items) =>
      r := RunEncodeArray(items, output);
    case Map(entries) =>
      r := RunEncodeMap(entries, output);
    case Tag(tag, item) =>
      if tag != SIGN1_TAG {
        return Err(Profile(UnsupportedTag(tag)));
      }
      output.WriteHead(6, tag);
      r := RunEncodeInto(item, output);
    case Bool(b) =>
      output.Push(if b then [0xf5] else [0xf4]);
      r := Ok(());
    case Null =>
      output.Push([0xf6]);
      r := Ok(());
  }

  method RunEncodeString(major: nat, b: Bytes, output: Output) returns (r: Result<(), EncodeError>)
    requires major <= 7
    modifies output
    ensures |b| >= U64_LIMIT ==> r == Err(LengthOutOfRange)
    ensures |b| < U64_LIMIT ==> r == Ok(()) && output.bytes == old(output.bytes) + (Head(major, |b|) + b)
  {
    if |b| >= U64_LIMIT {
      return Err(LengthOutOfRange);
    }
    output.WriteHead(major, |b|);
    output.Push(b);
    r := Ok(());
  }

  method RunEncodeArray(items: seq<Value>, output: Output) returns (r: Result<(), EncodeError>)
    modifies output
    ensures Wrote(old(output.bytes), output.bytes, r, EncodeInto(Array(items)))
    decreases items
  {
    hide Head, EncodeInto;
    EncodeArrayUnfolds(items);
    if |items| >= U64_LIMIT {
      return Err(LengthOutOfRange);
    }
    output.WriteHead(4, |items|);
    ghost var front, written: Bytes := output.bytes, [];
    PrefixedTwice([], [], EncodeItems(items));
    assert items[0..] == items;
    for i := 0 to |items|
      invariant output.bytes == front + written
      invariant EncodeItems(items) == Prefixed(written, EncodeItems(items[i..]))
    {
      assert items[i..][0] == items[i] && items[i..][1..] == items[i + 1..];
      var x := RunEncodeInto(items[i], output);
      if x.Err? {
        return x;
      }
      ghost var b := EncodeInto(items[i]).value;
      PrefixedTwice(written, b, EncodeItems(items[i + 1..]));
      assert front + written + b == front + (written + b);
      written := written + b;
    }
    r := Ok(());
  }

  ghost function Prefixed(done: Bytes, more: Result<Bytes, EncodeError>): (r: Result<Bytes, EncodeError>) {
    match more
    case Ok(b) => Ok(done + b)
    case Err(e) => Err(e)
  }

  lemma PrefixedTwice(a: Bytes, b: Bytes, more: Result<Bytes, EncodeError>)
    ensures Prefixed([], more) == more
    ensures Prefixed(a, Prefixed(b, more)) == Prefixed(a + b, more)
  {
    if more.Ok? {
      assert [] + more.value == more.value;
      assert a + (b + more.value) == a + b + more.value;
    }
  }

  lemma EncodeArrayUnfolds(items: seq<Value>)
    ensures EncodeInto(Array(items)) ==
      if |items| >= U64_LIMIT then Err(LengthOutOfRange) else Prefixed(Head(4, |items|), EncodeItems(items))
  {
    hide Head, EncodeItems;
  }

  lemma EncodeMapUnfolds(entries: seq<Entry>)
    ensures EncodeInto(Map(entries)) == EncodeMap(entries)
  {
    hide Head, EncodeKeys, Sort, HasEqualNeighbours, Joined;
  }

  ghost function EncodeMap(entries: seq<Entry>): (r: Result<Bytes, EncodeError>) {
    var keyed :- EncodeKeys(entries);
    var sorted := Sort(keyed, LengthFirstLt);
    if HasEqualNeighbours(sorted) then Err(DuplicateMapKey)
    else if |sorted| >= U64_LIMIT then Err(LengthOutOfRange)
    else Prefixed(Head(5, |sorted|), Joined(sorted))
  }

  ghost function EncodeValue(e: Entry): (r: Result<Bytes, EncodeError>) {
    EncodeInto(e.value)
  }

  /** Encodes every key on its own, in the order given. */
  method RunEncodeKeys(entries: seq<Entry>) returns (r: Result<seq<Keyed<Bytes, Entry>>, EncodeError>)
    ensures match EncodeKeys(entries)
      case Ok(keyed) => r.Ok? && keyed == MapItems(r.value, EncodeValue)
        && (forall k :: k in r.value ==> k.item in entries && Encode(k.item.key) == Ok(k.key))
      case Err(e) => r == Err(e)
    decreases entries, 0
  {
    hide Encode, EncodeInto;
    if entries == [] {
      return Ok([]);
    }
    EncodeEntryUnfolds(entries[0]);
    var first := RunEncodeKey(entries[0]);
    if first.Err? {
      return Err(first.error);
    }
    var others := RunEncodeKeys(entries[1..]);
    if others.Err? {
      return others;
    }
    r := Ok([Keyed(first.value, entries[0])] + others.value);
    assert r.value[1..] == others.value;
  }

  lemma EncodeEntryUnfolds(e: Entry)
    ensures EncodeEntry(e) == match Encode(e.key) case Ok(k) => Ok(Keyed(k, EncodeValue(e))) case Err(x) => Err(x)
  {
    hide Encode, EncodeInto;
  }

  method RunEncodeKey(e: Entry) returns (r: Result<Bytes, EncodeError>)
    ensures r == Encode(e.key)
    decreases e
  {
    hide Encode;
    match e
    case Entry(key, _) => r := RunEncode(key);
  }

  method RunEncodeMap(entries: seq<Entry>, output: Output) returns (r: Result<(), EncodeError>)
    modifies output
    ensures Wrote(old(output.bytes), output.bytes, r, EncodeInto(Map(entries)))
    decreases entries, 1
  {
    hide Head, EncodeInto, Encode, EncodeKeys, Sort, LengthFirstLt, MapItems;
    EncodeMapUnfolds(entries);
    var keyed := RunEncodeKeys(entries);
    if keyed.Err? {
      return Err(keyed.error);
    }
    var sorted := Sort(keyed.value, LengthFirstLt);
    SortCommutesWithMap(keyed.value, EncodeValue, LengthFirstLt);
    ghost var spec := MapItems(sorted, EncodeValue);
    assert forall i :: 0 <= i < |sorted| ==> spec[i].key == sorted[i].key;
    if HasEqualNeighbours(sorted) {
      var i :| 0 < i < |sorted| && sorted[i - 1].key == sorted[i].key;
      assert spec[i - 1].key == spec[i].key;
      return Err(DuplicateMapKey);
    }
    assert !HasEqualNeighbours(spec);
    if |sorted| >= U64_LIMIT {
      return Err(LengthOutOfRange);
    }
    forall k | k in sorted ensures k.item in entries && Encode(k.item.key) == Ok(k.key) {
      assert k in multiset(keyed.value);
    }
    output.WriteHead(5, |sorted|);
    r := RunEncodeEntries(sorted, entries, output);
  }

  method RunEncodeEntries(sorted: seq<Keyed<Bytes, Entry>>, ghost entries: seq<Entry>, output: Output) returns (r: Result<(), EncodeError>)
    requires forall k :: k in sorted ==> k.item in entries && Encode(k.item.key) == Ok(k.key)
    modifies output
    ensures Wrote(old(output.bytes), output.bytes, r, Joined(MapItems(sorted, EncodeValue)))
    decreases entries, 0
  {
    hide EncodeInto, Encode;
    ghost var front, written: Bytes := output.bytes, [];
    ghost var spec := MapItems(sorted, EncodeValue);
    PrefixedTwice([], [], Joined(spec));
    assert spec[0..] == spec;
    for i := 0 to |sorted|
      invariant output.bytes == front + written
      invariant Joined(spec) == Prefixed(written, Joined(spec[i..]))
    {
      assert spec[i..][0] == spec[i] && spec[i..][1..] == spec[i + 1..];
      assert sorted[i] in sorted;
      var x := RunEncodeEntry(sorted[i], output);
      if x.Err? {
        return x;
      }
      ghost var b := spec[i].key + spec[i].item.value;
      PrefixedTwice(written, b, Joined(spec[i + 1..]));
      assert front + written + b == front + (written + b);
      written := written + b;
    }
    r := Ok(());
  }

  method RunEncodeEntry(k: Keyed<Bytes, Entry>, output: Output) returns (r: Result<(), EncodeError>)
    requires Encode(k.item.key) == Ok(k.key)
    modifies output
    ensures Wrote(old(output.bytes), output.bytes, r, Prefixed(k.key, EncodeInto(k.item.value)))
    decreases k.item
  {
    hide EncodeInto, Decode;
    match k.item
    case Entry(key, value) =>
      r := RunEncodeInto(key, output);
      r := RunEncodeInto(value, output);
  }
}
