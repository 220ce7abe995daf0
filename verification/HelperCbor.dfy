/** The helper's own CBOR parser, and its agreement with the broker's. */
module HelperCbor {
  import opened ByteStrings
  import opened Results
  import opened Cbor
  import Utf8

  datatype ManifestError =
    | MalformedCbor
    | NonCanonicalCbor
    | UnsupportedVersion
    | MissingField
    | UnknownField
    | InvalidField
    | DuplicateInput
    | InputOrderInvalid
    | ActionGraphInvalid

  const MAX_MANIFEST_BYTES: u64 := 0x10_0000
  const MAX_NESTING: nat := 16
  const MAX_STRING_BYTES: u64 := 65_536
  const MAX_GRAPH_ACTIONS: u64 := 16_384
  const MAX_MAP_ENTRIES: u64 := 128

  // ----- the parser as a function of the remaining input

  function HelperArgument(additional: nat, s: Bytes): (r: Result<Parsed<u64>, ManifestError>) {
    if additional <= 23 then Ok(Parsed(additional, s))
    else if additional > 27 then Err(NonCanonicalCbor)
    else
      var w := Width(additional);
      if |s| < w then Err(MalformedCbor)
      else
        var n := FromBigEndian(s[..w]);
        ToFromBigEndian(s[..w]); Pow256Values();
        if Minimal(w, n) then Ok(Parsed(n, s[w..])) else Err(NonCanonicalCbor)
  }

  function HelperItem(s: Bytes, depth: nat): (r: Result<Parsed<Value>, ManifestError>)
    decreases MAX_NESTING + 1 - depth, 0, 1
  {
    if depth > MAX_NESTING then Err(InvalidField)
    else if s == [] then Err(MalformedCbor)
    else
      var major, additional := s[0] as int / 32, s[0] as int % 32;
      if additional == 31 then Err(NonCanonicalCbor)
      else if major == 7 && additional == 22 then Ok(Parsed(Null, s[1..]))
      else if major >= 6 then Err(MalformedCbor)
      else
        var n :- HelperArgument(additional, s[1..]);
        HelperContent(major, n.value, n.rest, depth)
  }

  function HelperContent(major: nat, n: u64, s: Bytes, depth: nat): (r: Result<Parsed<Value>, ManifestError>)
    requires major <= 5 && depth <= MAX_NESTING
    decreases MAX_NESTING + 1 - depth, 0, 0
  {
    match major
    case 0 => Ok(Parsed(Unsigned(n), s))
    case 1 => if n > I64_MAX then Err(InvalidField) else Ok(Parsed(Negative(-1 - n as int), s))
    case 2 => if n > MAX_STRING_BYTES || n > |s| then Err(InvalidField) else Ok(Parsed(ByteString(s[..n]), s[n..]))
    case 3 =>
      if n > MAX_STRING_BYTES || n > |s| || !Utf8.WellFormed(s[..n]) then Err(InvalidField)
      else Ok(Parsed(TextString(s[..n]), s[n..]))
    case 4 =>
      if n > MAX_GRAPH_ACTIONS then Err(InvalidField)
      else
        var xs :- HelperItems(s, n, depth + 1);
        Ok(Parsed(Array(xs.value), xs.rest))
    case _ =>
      if n > MAX_MAP_ENTRIES then Err(InvalidField)
      else
        var es :- HelperEntries(s, n, depth + 1, []);
        Ok(Parsed(Map(es.value), es.rest))
  }

  function HelperItems(s: Bytes, count: nat, depth: nat): (r: Result<Parsed<seq<Value>>, ManifestError>)
    decreases MAX_NESTING + 1 - depth, 1, count
  {
    if count == 0 then Ok(Parsed([], s))
    else
      var x :- HelperItem(s, depth);
      var xs :- HelperItems(x.rest, count - 1, depth);
      Ok(Parsed([x.value] + xs.value, xs.rest))
  }

  /** An empty `previous` stands for "no key yet". */
  function HelperEntries(s: Bytes, count: nat, depth: nat, previous: Bytes): (r: Result<Parsed<seq<Entry>>, ManifestError>)
    decreases MAX_NESTING + 1 - depth, 1, count
  {
    if count == 0 then Ok(Parsed([], s))
    else
      var k :- HelperItem(s, depth);
      var keyBytes := Consumed(s, k.rest);
      if previous != [] && !LengthFirstLt(previous, keyBytes) then Err(NonCanonicalCbor)
      else
        var x :- HelperItem(k.rest, depth);
        var es :- HelperEntries(x.rest, count - 1, depth, keyBytes);
        Ok(Parsed([Entry(k.value, x.value)] + es.value, es.rest))
  }

  function HelperParse(input: Bytes): (r: Result<Value, ManifestError>) {
    if |input| > MAX_MANIFEST_BYTES then Err(InvalidField)
    else
      var p :- HelperItem(input, 0);
      if p.rest != [] then Err(MalformedCbor) else Ok(p.value)
  }

  // ----- the parser as it runs

  class CborParser {
    const input: Bytes
    var offset: nat

    ghost predicate Valid()
      reads this
    {
      offset <= |input|
    }

    ghost function Rest(): (s: Bytes)
      requires Valid()
      reads this
    {
      input[offset..]
    }

    ghost predicate Follows<T>(r: Result<T, ManifestError>, spec: Result<Parsed<T>, ManifestError>)
      requires Valid()
      reads this
    {
      match spec
      case Ok(p) => r == Ok(p.value) && Rest() == p.rest
      case Err(e) => r == Err(e)
    }

    constructor (input: Bytes)
      ensures Valid() && offset == 0 && this.input == input
    {
      this.input := input;
      offset := 0;
    }

    method ReadArgument(additional: nat) returns (r: Result<u64, ManifestError>)
      requires Valid()
      modifies this`offset
      ensures Valid() && old(offset) <= offset
      ensures Follows(r, HelperArgument(additional, old(Rest())))
    {
      if additional <= 23 {
        return Ok(additional);
      }
      if additional > 27 {
        return Err(NonCanonicalCbor);
      }
      var w := Width(additional);
      if |input| - offset < w {
        return Err(MalformedCbor);
      }
      ghost var start := Rest();
      var parsed := 0;
      for index := 0 to w
        invariant Valid() && offset == old(offset) + index
        invariant parsed == FromBigEndian(start[..index])
      {
        assert start[..index + 1][..index] == start[..index];
        parsed := 256 * parsed + input[offset] as int;
        offset := offset + 1;
      }
      ToFromBigEndian(start[..w]);
      Pow256Values();
      assert Rest() == start[w..];
      r := if Minimal(w, parsed) then Ok(parsed) else Err(NonCanonicalCbor);
    }

    method ReadValue(depth: nat) returns (r: Result<Value, ManifestError>)
      requires Valid()
      modifies this`offset
      ensures Valid() && old(offset) <= offset
      ensures Follows(r, HelperItem(old(Rest()), depth))
      decreases MAX_NESTING + 1 - depth, 2
    {
      hide HelperArgument, HelperContent;
      if depth > MAX_NESTING {
        return Err(InvalidField);
      }
      if offset == |input| {
        return Err(MalformedCbor);
      }
      var initial := input[offset];
      offset := offset + 1;
      var major, additional := initial as int / 32, initial as int % 32;
      if additional == 31 {
        return Err(NonCanonicalCbor);
      }
      if major == 7 && additional == 22 {
        return Ok(Null);
      }
      if major >= 6 {
        return Err(MalformedCbor);
      }
      assert Rest() == old(Rest())[1..];
      var n := ReadArgument(additional);
      if n.Err? {
        return Err(n.error);
      }
      r := ReadContent(major, n.value, depth);
    }

    method ReadContent(major: nat, n: u64, depth: nat) returns (r: Result<Value, ManifestError>)
      requires Valid() && major <= 5 && depth <= MAX_NESTING
      modifies this`offset
      ensures Valid() && old(offset) <= offset
      ensures Follows(r, HelperContent(major, n, old(Rest()), depth))
      decreases MAX_NESTING + 1 - depth, 1
    {
      hide HelperItem, HelperItems, HelperEntries;
      if major == 0 {
        r := Ok(Unsigned(n));
      } else if major == 1 {
        r := if n > I64_MAX then Err(InvalidField) else Ok(Negative(-1 - n as int));
      } else if major <= 3 {
        r := ReadString(major, n, depth);
      } else if major == 4 {
        if n > MAX_GRAPH_ACTIONS {
          return Err(InvalidField);
        }
        var items := ReadItems(n, depth + 1);
        r := if items.Ok? then Ok(Array(items.value)) else Err(items.error);
      } else {
        if n > MAX_MAP_ENTRIES {
          return Err(InvalidField);
        }
        var entries := ReadEntries(n, depth + 1);
        r := if entries.Ok? then Ok(Map(entries.value)) else Err(entries.error);
      }
    }

    method ReadString(major: nat, n: u64, depth: nat) returns (r: Result<Value, ManifestError>)
      requires Valid() && 2 <= major <= 3 && depth <= MAX_NESTING
      modifies this`offset
      ensures Valid() && old(offset) <= offset
      ensures Follows(r, HelperContent(major, n, old(Rest()), depth))
    {
      hide Utf8.WellFormed;
      if n > MAX_STRING_BYTES || n > |input| - offset {
        return Err(InvalidField);
      }
      var bytes := input[offset..offset + n];
      assert bytes == Rest()[..n] && input[offset + n..] == Rest()[n..];
      if major == 2 {
        r := Ok(ByteString(bytes));
      } else {
        var valid := Utf8.ValidUtf8(bytes);
        if !valid {
          return Err(InvalidField);
        }
        r := Ok(TextString(bytes));
      }
      offset := offset + n;
    }

    method ReadItems(length: nat, depth: nat) returns (r: Result<seq<Value>, ManifestError>)
      requires Valid()
      modifies this`offset
      ensures Valid() && old(offset) <= offset
      ensures Follows(r, HelperItems(old(Rest()), length, depth))
      decreases MAX_NESTING + 1 - depth, 3
    {
      hide HelperItem;
      var items: seq<Value> := [];
      ghost var start := Rest();
      AfterNothing(HelperItems(start, length, depth));
      for index := 0 to length
        invariant Valid() && old(offset) <= offset
        invariant HelperItems(start, length, depth) == After(items, HelperItems(Rest(), length - index, depth))
      {
        var item := ReadValue(depth);
        if item.Err? {
          return Err(item.error);
        }
        AfterOne(items, item.value, HelperItems(Rest(), length - index - 1, depth));
        items := items + [item.value];
      }
      assert items + [] == items;
      r := Ok(items);
    }

    method ReadEntries(length: nat, depth: nat) returns (r: Result<seq<Entry>, ManifestError>)
      requires Valid()
      modifies this`offset
      ensures Valid() && old(offset) <= offset
      ensures Follows(r, HelperEntries(old(Rest()), length, depth, []))
      decreases MAX_NESTING + 1 - depth, 3
    {
      hide HelperItem, LengthFirstLt;
      var entries: seq<Entry> := [];
      var previous: Bytes := [];
      ghost var start := Rest();
      AfterNothing(HelperEntries(start, length, depth, []));
      for index := 0 to length
        invariant Valid() && old(offset) <= offset
        invariant HelperEntries(start, length, depth, []) == After(entries, HelperEntries(Rest(), length - index, depth, previous))
      {
        var keyStart := offset;
        ghost var before := Rest();
        var key := ReadValue(depth);
        if key.Err? {
          return Err(key.error);
        }
        var keyBytes := input[keyStart..offset];
        assert keyBytes == Consumed(before, Rest());
        if previous != [] && !LengthFirstLt(previous, keyBytes) {
          return Err(NonCanonicalCbor);
        }
        previous := keyBytes;
        var value := ReadValue(depth);
        if value.Err? {
          return Err(value.error);
        }
        var entry := Entry(key.value, value.value);
        AfterOne(entries, entry, HelperEntries(Rest(), length - index - 1, depth, keyBytes));
        entries := entries + [entry];
      }
      assert entries + [] == entries;
      r := Ok(entries);
    }

    method Parse() returns (r: Result<Value, ManifestError>)
      requires Valid() && offset == 0
      modifies this`offset
      ensures r == HelperParse(input)
    {
      hide HelperItem;
      if |input| > MAX_MANIFEST_BYTES {
        return Err(InvalidField);
      }
      r := ReadValue(0);
      if r.Ok? && offset != |input| {
        return Err(MalformedCbor);
      }
    }
  }

  // ----- agreement with the broker's parser

  /** The helper's limits: those of the broker, except that text may be as long as a byte string. */
  const HELPER_LIMITS := DEFAULT_LIMITS.(textStringBytes := MAX_STRING_BYTES)

  /** No boolean and no tag, at any depth. */
  predicate Plain(v: Value)
    decreases v
  {
    match v
    case Array(items) => PlainItems(items)
    case Map(entries) => PlainEntries(entries)
    case Tag(_, _) => false
    case Bool(_) => false
    case _ => true
  }

  predicate PlainItems(items: seq<Value>)
    decreases items
  {
    items == [] || (Plain(items[0]) && PlainItems(items[1..]))
  }

  predicate PlainEntries(entries: seq<Entry>)
    decreases entries
  {
    entries == [] || (PlainEntry(entries[0]) && PlainEntries(entries[1..]))
  }

  predicate PlainEntry(e: Entry)
    decreases e
  {
    match e
    case Entry(key, value) => Plain(key) && Plain(value)
  }

  /** `h` is `r` where the value is plain, and a failure elsewhere. */
  ghost predicate Agree<T>(h: Result<Parsed<T>, ManifestError>, r: Result<Parsed<T>, DecodeError>, plain: T -> bool) {
    && (h.Ok? <==> r.Ok? && plain(r.value.value))
    && (h.Ok? ==> h.value == r.value)
  }

  lemma ArgumentsAgree(additional: nat, s: Bytes)
    ensures HelperArgument(additional, s).Ok? <==> Argument(additional, s).Ok?
    ensures Argument(additional, s).Ok? ==> HelperArgument(additional, s).value == Argument(additional, s).value
  {
    hide FromBigEndian;
  }

  lemma {:induction false} ItemsOfBothAgree(s: Bytes, depth: nat)
    ensures Agree(HelperItem(s, depth), Item(s, depth, HELPER_LIMITS), Plain)
    decreases MAX_NESTING + 1 - depth, 0, 1
  {
    hide Argument, HelperArgument, Content, HelperContent;
    if depth <= MAX_NESTING && s != [] {
      var major, additional := s[0] as int / 32, s[0] as int % 32;
      ArgumentsAgree(additional, s[1..]);
      if major < 7 && additional != 31 && Argument(additional, s[1..]).Ok? {
        var n := Argument(additional, s[1..]).value;
        if major == 6 {
          TagIsNotPlain(n.value, n.rest, depth);
        } else {
          ContentsAgree(major, n.value, n.rest, depth);
        }
      }
    }
  }

  lemma TagIsNotPlain(n: u64, s: Bytes, depth: nat)
    requires depth <= MAX_NESTING
    ensures var r := Content(6, n, s, depth, HELPER_LIMITS); r.Ok? ==> !Plain(r.value.value)
  {
    hide Item;
  }

  lemma {:induction false} ContentsAgree(major: nat, n: u64, s: Bytes, depth: nat)
    requires major <= 5 && depth <= MAX_NESTING
    ensures Agree(HelperContent(major, n, s, depth), Content(major, n, s, depth, HELPER_LIMITS), Plain)
    decreases MAX_NESTING + 1 - depth, 0, 0
  {
    hide Item, Items, Entries, HelperItems, HelperEntries, Utf8.WellFormed, PlainItems, PlainEntries;
    if major == 4 {
      ArraysAgree(s, n, depth + 1);
    } else if major == 5 {
      MapsAgree(s, n, depth + 1, []);
    }
  }

  lemma {:induction false} ArraysAgree(s: Bytes, count: nat, depth: nat)
    ensures Agree(HelperItems(s, count, depth), Items(s, count, depth, HELPER_LIMITS), PlainItems)
    decreases MAX_NESTING + 1 - depth, 1, count
  {
    hide Item, HelperItem, Plain;
    if count > 0 {
      ItemsOfBothAgree(s, depth);
      if Item(s, depth, HELPER_LIMITS).Ok? {
        var x := Item(s, depth, HELPER_LIMITS).value;
        ArraysAgree(x.rest, count - 1, depth);
        var xs := Items(x.rest, count - 1, depth, HELPER_LIMITS);
        if xs.Ok? {
          assert ([x.value] + xs.value.value)[1..] == xs.value.value;
        }
      }
    }
  }

  lemma {:induction false} MapsAgree(s: Bytes, count: nat, depth: nat, previous: Bytes)
    ensures Agree(HelperEntries(s, count, depth, previous), Entries(s, count, depth, if previous == [] then None else Some(previous), HELPER_LIMITS), PlainEntries)
    decreases MAX_NESTING + 1 - depth, 1, count
  {
    hide Item, HelperItem, Plain, LengthFirstLt, Raw, Head;
    if count > 0 {
      ItemsOfBothAgree(s, depth);
      if Item(s, depth, HELPER_LIMITS).Ok? {
        var k := Item(s, depth, HELPER_LIMITS).value;
        KeyIsNotEmpty(s, depth);
        ItemsOfBothAgree(k.rest, depth);
        if Item(k.rest, depth, HELPER_LIMITS).Ok? {
          var x := Item(k.rest, depth, HELPER_LIMITS).value;
          var keyBytes := Consumed(s, k.rest);
          MapsAgree(x.rest, count - 1, depth, keyBytes);
          var es := Entries(x.rest, count - 1, depth, Some(keyBytes), HELPER_LIMITS);
          if es.Ok? {
            assert ([Entry(k.value, x.value)] + es.value.value)[1..] == es.value.value;
          }
        }
      }
    }
  }

  /** An encoded key is never empty, so the helper may use the empty string for "no key yet". */
  lemma KeyIsNotEmpty(s: Bytes, depth: nat)
    requires Item(s, depth, HELPER_LIMITS).Ok?
    ensures Consumed(s, Item(s, depth, HELPER_LIMITS).value.rest) != []
  {
    hide Item, Canonical;
    ItemSound(s, depth, HELPER_LIMITS);
    var p := Item(s, depth, HELPER_LIMITS).value;
    RawIsNotEmpty(p.value, depth, HELPER_LIMITS);
  }

  lemma RawIsNotEmpty(v: Value, depth: nat, lim: Limits)
    requires Canonical(v, depth, lim)
    ensures Raw(v) != []
  {
    hide Head;
    if Headed(v) {
      RawHasHead(v, depth, lim);
    }
  }

  /** Every text, at every depth, has at most `max` bytes. */
  predicate TextsWithin(v: Value, max: nat)
    decreases v
  {
    match v
    case TextString(t) => |t| <= max
    case Array(items) => ItemTextsWithin(items, max)
    case Map(entries) => EntryTextsWithin(entries, max)
    case Tag(_, item) => TextsWithin(item, max)
    case _ => true
  }

  predicate ItemTextsWithin(items: seq<Value>, max: nat)
    decreases items
  {
    items == [] || (TextsWithin(items[0], max) && ItemTextsWithin(items[1..], max))
  }

  predicate EntryTextsWithin(entries: seq<Entry>, max: nat)
    decreases entries
  {
    entries == [] || (OneEntryTextsWithin(entries[0], max) && EntryTextsWithin(entries[1..], max))
  }

  predicate OneEntryTextsWithin(e: Entry, max: nat)
    decreases e
  {
    match e
    case Entry(key, value) => TextsWithin(key, max) && TextsWithin(value, max)
  }

  lemma {:induction false} TextLimitIsTheDifference(v: Value, depth: nat)
    ensures Canonical(v, depth, DEFAULT_LIMITS)
      <==> Canonical(v, depth, HELPER_LIMITS) && TextsWithin(v, DEFAULT_LIMITS.textStringBytes)
    decreases v
  {
    match v
    case Array(items) => TextLimitOfItems(items, depth + 1);
    case Map(entries) => TextLimitOfEntries(entries, depth + 1, None);
    case Tag(_, item) => TextLimitIsTheDifference(item, depth + 1);
    case _ =>
  }

  lemma {:induction false} TextLimitOfItems(items: seq<Value>, depth: nat)
    ensures CanonicalItems(items, depth, DEFAULT_LIMITS)
      <==> CanonicalItems(items, depth, HELPER_LIMITS) && ItemTextsWithin(items, DEFAULT_LIMITS.textStringBytes)
    decreases items
  {
    hide Canonical, TextsWithin;
    if items != [] {
      TextLimitIsTheDifference(items[0], depth);
      TextLimitOfItems(items[1..], depth);
    }
  }

  lemma {:induction false} TextLimitOfEntries(entries: seq<Entry>, depth: nat, previous: Option<Bytes>)
    ensures CanonicalEntries(entries, depth, previous, DEFAULT_LIMITS)
      <==> CanonicalEntries(entries, depth, previous, HELPER_LIMITS) && EntryTextsWithin(entries, DEFAULT_LIMITS.textStringBytes)
    decreases entries
  {
    hide CanonicalEntry, OneEntryTextsWithin, Raw, LengthFirstLt;
    if entries != [] {
      TextLimitOfEntry(entries[0], depth);
      TextLimitOfEntries(entries[1..], depth, Some(Raw(entries[0].key)));
    }
  }

  lemma {:induction false} TextLimitOfEntry(e: Entry, depth: nat)
    ensures CanonicalEntry(e, depth, DEFAULT_LIMITS)
      <==> CanonicalEntry(e, depth, HELPER_LIMITS) && OneEntryTextsWithin(e, DEFAULT_LIMITS.textStringBytes)
    decreases e
  {
    match e
    case Entry(key, value) =>
      TextLimitIsTheDifference(key, depth);
      TextLimitIsTheDifference(value, depth);
  }

  /** The helper's parser accepts exactly the one encoding of each plain normal form within its size limit. */
  lemma HelperExactly(input: Bytes, v: Value)
    ensures HelperParse(input) == Ok(v)
      <==> Canonical(v, 0, HELPER_LIMITS) && Plain(v) && input == Raw(v) && |input| <= MAX_MANIFEST_BYTES
  {
    hide HelperItem, Item, Canonical, Plain, Raw;
    ItemsOfBothAgree(input, 0);
    ItemExactly(input, v, [], 0, HELPER_LIMITS);
    assert Raw(v) + [] == Raw(v);
  }

  /** What the helper accepts with short texts is exactly what the broker accepts without booleans and tags, as the
      same value. */
  lemma ParsersAgree(input: Bytes, v: Value)
    ensures HelperParse(input) == Ok(v) && TextsWithin(v, DEFAULT_LIMITS.textStringBytes)
      <==> Decode(input) == Ok(v) && Plain(v)
  {
    hide HelperItem, Item, Canonical, TextsWithin, Plain, Raw;
    ItemsOfBothAgree(input, 0);
    DecodeExactly(input, v, DEFAULT_LIMITS);
    DecodeExactly(input, v, HELPER_LIMITS);
    TextLimitIsTheDifference(v, 0);
  }
}
