/** Integer-keyed maps: reading their fields, and why the fields determine the encoding. */
module Fields {
  import opened ByteStrings
  import opened Results
  import opened Cbor
  import opened CborEncoding
  import opened Sequences
  import Sorting
  import Utf8

  datatype SchemaError =
    | Undecodable(error: DecodeError)
    | Unencodable(failure: EncodeError)
    | ProtocolMismatch(actual: u64)
    | MissingField(field: u64)
    | UnknownField(field: u64)
    | WrongType(field: u64)
    | InvalidField(field: u64)
    | RootNotMap

  type FieldMap = map<u64, Value>

  function Collect(entries: seq<Entry>): (r: Result<FieldMap, SchemaError>) {
    if entries == [] then Ok(map[])
    else
      var e := entries[|entries| - 1];
      var earlier :- Collect(entries[..|entries| - 1]);
      if !e.key.Unsigned? then Err(RootNotMap)
      else if e.key.n in earlier then Err(InvalidField(e.key.n))
      else Ok(earlier[e.key.n := e.value])
  }

  function FieldsOf(v: Value): (r: Result<FieldMap, SchemaError>) {
    if v.Map? then Collect(v.entries) else Err(RootNotMap)
  }

  method ReadFields(v: Value) returns (r: Result<FieldMap, SchemaError>)
    ensures r == FieldsOf(v)
  {
    if !v.Map? {
      return Err(RootNotMap);
    }
    var fields: FieldMap := map[];
    var i := 0;
    while i < |v.entries|
      invariant i <= |v.entries| && Collect(v.entries[..i]) == Ok(fields)
    {
      assert v.entries[..i + 1][..i] == v.entries[..i];
      var e := v.entries[i];
      if !e.key.Unsigned? || e.key.n in fields {
        CollectFails(v.entries, i + 1);
        return Err(if e.key.Unsigned? then InvalidField(e.key.n) else RootNotMap);
      }
      fields := fields[e.key.n := e.value];
      i := i + 1;
    }
    assert v.entries[..i] == v.entries;
    return Ok(fields);
  }

  lemma {:induction false} CollectFails(entries: seq<Entry>, i: nat)
    requires i <= |entries| && Collect(entries[..i]).Err?
    ensures Collect(entries) == Collect(entries[..i])
  {
    if i == |entries| {
      assert entries[..i] == entries;
    } else {
      assert entries[..|entries| - 1][..i] == entries[..i];
      CollectFails(entries[..|entries| - 1], i);
    }
  }

  // ----- what collecting finds

  function KeyOf(e: Entry): Value {
    e.key
  }

  /** `m` is what `entries` say, each key once. */
  ghost predicate Describes(entries: seq<Entry>, m: FieldMap) {
    && Distinct(Mapped(KeyOf, entries))
    && (forall e :: e in entries ==> e.key.Unsigned? && e.key.n in m && m[e.key.n] == e.value)
    && (forall k :: k in m ==> Entry(Unsigned(k), m[k]) in entries)
  }

  lemma DescribesGrows(entries: seq<Entry>, e: Entry, m: FieldMap)
    requires Describes(entries, m) && e.key.Unsigned? && e.key.n !in m
    ensures Describes(entries + [e], m[e.key.n := e.value])
  {
    var longer := entries + [e];
    assert forall i :: 0 <= i < |entries| ==> longer[i] in entries;
    forall k | k in m[e.key.n := e.value] ensures Entry(Unsigned(k), m[e.key.n := e.value][k]) in longer {
      if k == e.key.n {
        assert longer[|entries|] == Entry(Unsigned(k), e.value);
      }
    }
  }

  lemma {:induction false} CollectDescribes(entries: seq<Entry>)
    requires Collect(entries).Ok?
    ensures Describes(entries, Collect(entries).value)
  {
    hide Describes, Mapped;
    if entries == [] {
      DescribesNothing();
    } else {
      var n := |entries| - 1;
      CollectDescribes(entries[..n]);
      DescribesGrows(entries[..n], entries[n], Collect(entries[..n]).value);
      assert entries[..n] + [entries[n]] == entries;
    }
  }

  lemma DescribesNothing()
    ensures Describes([], map[])
  {
  }

  lemma DistinctShrinks(entries: seq<Entry>)
    requires entries != [] && Distinct(Mapped(KeyOf, entries))
    ensures var n := |entries| - 1;
      Distinct(Mapped(KeyOf, entries[..n])) && forall i :: 0 <= i < n ==> entries[i].key != entries[n].key
  {
    var n := |entries| - 1;
    var keys := Mapped(KeyOf, entries);
    assert Mapped(KeyOf, entries[..n]) == keys[..n];
    forall i | 0 <= i < n ensures entries[i].key != entries[n].key {
      assert keys[i] != keys[n];
    }
  }

  lemma DescribesShrinks(entries: seq<Entry>, m: FieldMap)
    requires Describes(entries, m) && entries != []
    ensures var e := entries[|entries| - 1]; e.key.Unsigned? && e.key.n in m && Describes(entries[..|entries| - 1], m - {e.key.n})
  {
    hide Distinct, Mapped;
    var n := |entries| - 1;
    var e, init := entries[n], entries[..n];
    assert e in entries;
    DistinctShrinks(entries);
    forall other | other in init ensures other in entries && other.key != e.key {
      var i :| 0 <= i < n && init[i] == other;
      assert entries[i] == other;
    }
    forall k | k in m - {e.key.n} ensures Entry(Unsigned(k), m[k]) in init {
      StillListed(entries, Entry(Unsigned(k), m[k]));
    }
  }

  lemma StillListed(entries: seq<Entry>, e: Entry)
    requires e in entries && e != entries[|entries| - 1]
    ensures e in entries[..|entries| - 1]
  {
    var i :| 0 <= i < |entries| && entries[i] == e;
    assert entries[..|entries| - 1][i] == e;
  }

  lemma {:induction false} DescribedCollects(entries: seq<Entry>, m: FieldMap)
    requires Describes(entries, m)
    ensures Collect(entries) == Ok(m)
  {
    hide Describes, Mapped;
    if entries == [] {
      NothingDescribed(m);
    } else {
      DescribesShrinks(entries, m);
      var e := entries[|entries| - 1];
      DescribedCollects(entries[..|entries| - 1], m - {e.key.n});
      LastDescribed(entries, m);
    }
  }

  lemma NothingDescribed(m: FieldMap)
    requires Describes([], m)
    ensures m == map[]
  {
    assert forall k :: k !in m;
  }

  lemma LastDescribed(entries: seq<Entry>, m: FieldMap)
    requires Describes(entries, m) && entries != []
    ensures var e := entries[|entries| - 1]; e.key.Unsigned? && e.key.n in m && (m - {e.key.n})[e.key.n := e.value] == m
  {
    assert entries[|entries| - 1] in entries;
  }

  /** Unsigned keys, each once, are all that collecting asks for. */
  lemma {:induction false} DistinctCollects(entries: seq<Entry>)
    requires Distinct(Mapped(KeyOf, entries)) && forall i :: 0 <= i < |entries| ==> entries[i].key.Unsigned?
    ensures Collect(entries).Ok?
  {
    hide Distinct, Mapped, Describes;
    if entries != [] {
      var n := |entries| - 1;
      DistinctShrinks(entries);
      DistinctCollects(entries[..n]);
      CollectDescribes(entries[..n]);
      NewKey(entries[..n], Collect(entries[..n]).value, entries[n]);
    }
  }

  lemma NewKey(entries: seq<Entry>, m: FieldMap, e: Entry)
    requires Describes(entries, m) && e.key.Unsigned? && forall i :: 0 <= i < |entries| ==> entries[i].key != e.key
    ensures e.key.n !in m
  {
    forall k | k in m ensures k != e.key.n {
      var i :| 0 <= i < |entries| && entries[i] == Entry(Unsigned(k), m[k]);
    }
  }

  /** The order in which a map lists its fields does not matter to what they are. */
  lemma PermutedFields(a: seq<Entry>, b: seq<Entry>)
    requires multiset(a) == multiset(b) && Collect(a).Ok?
    ensures Collect(b) == Collect(a)
  {
    var m := Collect(a).value;
    CollectDescribes(a);
    MapKeepsPermutation(KeyOf, a, b);
    DistinctCarriesOver(Mapped(KeyOf, a), Mapped(KeyOf, b));
    forall e ensures e in a <==> e in b {
      assert e in a <==> e in multiset(a);
      assert e in b <==> e in multiset(b);
    }
    DescribedCollects(b, m);
  }

  // ----- the fields determine the normal form

  lemma KeysDistinctEntriesDistinct(entries: seq<Entry>)
    requires Distinct(Mapped(KeyOf, entries))
    ensures Distinct(entries)
  {
    forall i, j | 0 <= i < j < |entries| ensures entries[i] != entries[j] {
      assert Mapped(KeyOf, entries)[i] != Mapped(KeyOf, entries)[j];
    }
  }

  lemma SameFieldsSameEntries(a: seq<Entry>, b: seq<Entry>)
    requires Collect(a).Ok? && Collect(b) == Collect(a)
    ensures multiset(a) == multiset(b)
  {
    CollectDescribes(a);
    CollectDescribes(b);
    KeysDistinctEntriesDistinct(a);
    KeysDistinctEntriesDistinct(b);
    forall e ensures multiset(a)[e] == multiset(b)[e] {
      CountOnce(a, e);
      CountOnce(b, e);
      assert e in a <==> e in b;
      assert e in a <==> e in multiset(a);
      assert e in b <==> e in multiset(b);
    }
  }

  lemma {:induction false} NormalEntriesMap(entries: seq<Entry>)
    ensures NormalEntries(entries) == Mapped(NormalEntry, entries)
  {
    hide NormalEntry;
    if entries != [] {
      NormalEntriesMap(entries[1..]);
      assert NormalEntries(entries) == [NormalEntry(entries[0])] + NormalEntries(entries[1..]);
      assert Mapped(NormalEntry, entries)[1..] == Mapped(NormalEntry, entries[1..]);
    }
  }

  function SortKey(k: Sorting.Keyed<Bytes, Entry>): Bytes {
    k.key
  }

  lemma RawUnsignedInjective(m: u64, n: u64)
    requires Raw(Unsigned(m)) == Raw(Unsigned(n))
    ensures m == n
  {
    hide Raw, LexLt;
    UnsignedKeyOrdersCoincide(m, n);
    UnsignedKeyOrdersCoincide(n, m);
    LexTrichotomy(Raw(Unsigned(m)), Raw(Unsigned(n)));
  }

  /** Distinct integer keys have distinct encodings, so sorting them leaves no equal neighbours. */
  lemma SortKeysDiffer(entries: seq<Entry>, m: FieldMap)
    requires Describes(entries, m)
    ensures Distinct(Mapped(SortKey, NormalEntries(entries)))
  {
    hide Raw;
    NormalEntriesMap(entries);
    var keys := Mapped(SortKey, NormalEntries(entries));
    forall i, j | 0 <= i < j < |entries| ensures keys[i] != keys[j] {
      assert entries[i] in entries && entries[j] in entries;
      assert Mapped(KeyOf, entries)[i] != Mapped(KeyOf, entries)[j];
      NormalOfUnsigned(entries[i]);
      NormalOfUnsigned(entries[j]);
      if keys[i] == keys[j] {
        RawUnsignedInjective(entries[i].key.n, entries[j].key.n);
      }
    }
  }

  lemma NormalOfUnsigned(e: Entry)
    requires e.key.Unsigned?
    ensures NormalEntry(e) == Sorting.Keyed(Raw(e.key), Entry(e.key, Normal(e.value)))
  {
  }

  lemma SortedStrictly(entries: seq<Entry>, m: FieldMap)
    requires Describes(entries, m)
    ensures Sorting.StrictlyAscending(Sorting.Sort(NormalEntries(entries), LengthFirstLt), LengthFirstLt)
  {
    hide Describes, Mapped, Sorting.Sort, NormalEntries, LengthFirstLt, Sorting.StrictlyAscending, Sorting.Ascending;
    var sorted := Sorting.Sort(NormalEntries(entries), LengthFirstLt);
    SortKeysDiffer(entries, m);
    MapKeepsPermutation(SortKey, NormalEntries(entries), sorted);
    DistinctCarriesOver(Mapped(SortKey, NormalEntries(entries)), Mapped(SortKey, sorted));
    KeyOrderIsTotal();
    Sorting.SortAscends(NormalEntries(entries), LengthFirstLt);
    NoEqualNeighbours(sorted);
    Sorting.DistinctNeighboursAscendStrictly(sorted, LengthFirstLt);
  }

  lemma NoEqualNeighbours(s: seq<Sorting.Keyed<Bytes, Entry>>)
    requires Distinct(Mapped(SortKey, s))
    ensures !Sorting.HasEqualNeighbours(s)
  {
    forall i | 0 < i < |s| ensures s[i - 1].key != s[i].key {
      assert Mapped(SortKey, s)[i - 1] != Mapped(SortKey, s)[i];
    }
  }

  /** Two maps with the same fields, in whatever order, have the same normal form. */
  lemma SameFieldsSameNormal(a: seq<Entry>, b: seq<Entry>)
    requires Collect(a).Ok? && Collect(b) == Collect(a)
    ensures Normal(Value.Map(a)) == Normal(Value.Map(b))
  {
    hide Describes, NormalEntries, Collect, Sorting.Sort, LengthFirstLt, Sorting.StrictlyAscending;
    CollectDescribes(a);
    CollectDescribes(b);
    SameFieldsSameEntries(a, b);
    NormalEntriesMap(a);
    NormalEntriesMap(b);
    MapKeepsPermutation(NormalEntry, a, b);
    SortedStrictly(a, Collect(a).value);
    SortedStrictly(b, Collect(a).value);
    KeyOrderIsTotal();
    Sorting.AscendingIsUnique(Sorting.Sort(NormalEntries(a), LengthFirstLt), Sorting.Sort(NormalEntries(b), LengthFirstLt), LengthFirstLt);
  }

  function NormalFields(m: FieldMap): (n: FieldMap) {
    map k | k in m :: Normal(m[k])
  }

  function Item(k: Sorting.Keyed<Bytes, Entry>): Entry {
    k.item
  }

  lemma {:induction false} ItemsOfMap(s: seq<Sorting.Keyed<Bytes, Entry>>)
    ensures Sorting.ItemsOf(s) == Mapped(Item, s)
  {
  }

  lemma NormalDescribed(entries: seq<Entry>, m: FieldMap)
    requires Describes(entries, m)
    ensures Describes(Mapped(Item, Mapped(NormalEntry, entries)), NormalFields(m))
  {
    var normal := Mapped(Item, Mapped(NormalEntry, entries));
    forall i | 0 <= i < |entries| ensures entries[i].key.Unsigned? && normal[i] == Entry(entries[i].key, Normal(entries[i].value)) {
      assert entries[i] in entries;
      NormalOfUnsigned(entries[i]);
    }
    hide NormalEntry, Raw, Normal;
    forall i, j | 0 <= i < j < |normal| ensures Mapped(KeyOf, normal)[i] != Mapped(KeyOf, normal)[j] {
      assert Mapped(KeyOf, entries)[i] != Mapped(KeyOf, entries)[j];
    }
    forall k | k in m ensures Entry(Unsigned(k), Normal(m[k])) in normal {
      var i :| 0 <= i < |entries| && entries[i] == Entry(Unsigned(k), m[k]);
      assert normal[i] == Entry(Unsigned(k), Normal(m[k]));
    }
  }

  /** Normalising a map normalises its fields and changes nothing else about them. */
  lemma FieldsOfNormal(entries: seq<Entry>)
    requires Collect(entries).Ok?
    ensures FieldsOf(Normal(Value.Map(entries))) == Ok(NormalFields(Collect(entries).value))
  {
    hide Describes, NormalEntries, NormalEntry, Collect, Sorting.Sort, LengthFirstLt, NormalFields, Mapped;
    var m := Collect(entries).value;
    CollectDescribes(entries);
    NormalEntriesMap(entries);
    NormalDescribed(entries, m);
    var normal := Mapped(Item, Mapped(NormalEntry, entries));
    var sorted := Sorting.Sort(NormalEntries(entries), LengthFirstLt);
    ItemsOfMap(sorted);
    MapKeepsPermutation(Item, NormalEntries(entries), sorted);
    DescribedCollects(normal, NormalFields(m));
    PermutedFields(normal, Mapped(Item, sorted));
  }

  // ----- parts of canonical values are canonical

  /** A decoded map whose keys are all unsigned has no key twice. */
  lemma DecodedMapCollects(b: Bytes)
    requires Decode(b).Ok? && Decode(b).value.Map?
    requires forall i :: 0 <= i < |Decode(b).value.entries| ==> Decode(b).value.entries[i].key.Unsigned?
    ensures Collect(Decode(b).value.entries).Ok?
  {
    hide DecodeWithLimits, Raw, Canonical, CanonicalEntries, OwnKeys, Sorting.StrictlyAscending, Collect, LengthFirstLt;
    var v := Decode(b).value;
    DecodeExactly(b, v, DEFAULT_LIMITS);
    MapIsCanonical(v, 0);
    CanonicalEntriesAreStrict(v.entries, 1, None, DEFAULT_LIMITS);
    StrictIsDistinct(v.entries);
    DistinctCollects(v.entries);
  }

  lemma MapIsCanonical(v: Value, depth: nat)
    requires Canonical(v, depth, DEFAULT_LIMITS) && v.Map?
    ensures CanonicalEntries(v.entries, depth + 1, None, DEFAULT_LIMITS)
  {
  }

  lemma StrictIsDistinct(entries: seq<Entry>)
    requires Sorting.StrictlyAscending(OwnKeys(entries), LengthFirstLt)
    ensures Distinct(Mapped(KeyOf, entries))
  {
    hide LexLt, Raw;
    var keys := OwnKeys(entries);
    forall i, j | 0 <= i < j < |entries| ensures Mapped(KeyOf, entries)[i] != Mapped(KeyOf, entries)[j] {
      assert LengthFirstLt(keys[i].key, keys[j].key);
      LexTrichotomy(keys[i].key, keys[j].key);
    }
  }

  lemma {:induction false} CanonicalField(entries: seq<Entry>, depth: nat, previous: Option<Bytes>, lim: Limits, e: Entry)
    requires CanonicalEntries(entries, depth, previous, lim) && e in entries
    ensures Canonical(e.value, depth, lim)
  {
    if e == entries[0] {
      CanonicalPart(e, depth, lim);
    } else {
      CanonicalField(entries[1..], depth, Some(Raw(entries[0].key)), lim, e);
    }
  }

  lemma CanonicalPart(e: Entry, depth: nat, lim: Limits)
    requires CanonicalEntry(e, depth, lim)
    ensures Canonical(e.value, depth, lim)
  {
  }

  /** The fields of what was decoded are already normal. */
  lemma DecodedFieldsAreNormal(b: Bytes)
    requires Decode(b).Ok? && FieldsOf(Decode(b).value).Ok?
    ensures var m := FieldsOf(Decode(b).value).value;
      && NormalFields(m) == m
      && forall k :: k in m ==> Normal(m[k]) == m[k] && (m[k].Negative? ==> m[k].i < 0)
  {
    hide Collect, CanonicalEntries, Normal, DecodeWithLimits, Describes, Raw;
    var v := Decode(b).value;
    var m := FieldsOf(v).value;
    DecodeExactly(b, v, DEFAULT_LIMITS);
    CollectDescribes(v.entries);
    forall k | k in m ensures Normal(m[k]) == m[k] && (m[k].Negative? ==> m[k].i < 0) {
      DescribedEntry(v.entries, m, k);
      CanonicalField(v.entries, 1, None, DEFAULT_LIMITS, Entry(Unsigned(k), m[k]));
      NormalFixesCanonical(m[k], 1, DEFAULT_LIMITS);
    }
  }

  lemma DescribedEntry(entries: seq<Entry>, m: FieldMap, k: u64)
    requires Describes(entries, m) && k in m
    ensures Entry(Unsigned(k), m[k]) in entries
  {
  }

  /**
   * Layered canonicality, for whatever turns fields into messages: if the fields of decoded bytes are also what
   * `entries` list, in any order, then encoding `entries` gives back those bytes.
   */
  lemma ReencodesFields(b: Bytes, entries: seq<Entry>)
    requires Decode(b).Ok? && FieldsOf(Decode(b).value).Ok? && Collect(entries) == FieldsOf(Decode(b).value)
    ensures Encode(Value.Map(entries)) == Ok(b)
  {
    hide Encode, DecodeWithLimits, Normal, Collect, Canonical, Raw;
    var v := Decode(b).value;
    DecodeExactly(b, v, DEFAULT_LIMITS);
    SameFieldsSameNormal(v.entries, entries);
    NormalFixesCanonical(v, 0, DEFAULT_LIMITS);
    EncodeExactly(Value.Map(entries), b);
  }

  /** And encoding `entries` gives bytes whose fields are theirs, each in normal form. */
  lemma DecodesFields(entries: seq<Entry>, b: Bytes)
    requires Collect(entries).Ok? && Encode(Value.Map(entries)) == Ok(b)
    ensures Decode(b).Ok? && FieldsOf(Decode(b).value) == Ok(NormalFields(Collect(entries).value))
  {
    hide Encode, DecodeWithLimits, Normal, Collect, Canonical, Raw, NormalFields;
    EncodeExactly(Value.Map(entries), b);
    FieldsOfNormal(entries);
  }

  // ----- listing fields

  function Field(k: u64, v: Value): (e: Entry) {
    Entry(Unsigned(k), v)
  }

  /** Entries under consecutive keys. */
  function Consecutive(first: u64, values: seq<Value>): (entries: seq<Entry>)
    requires first + |values| < U64_LIMIT
    ensures |entries| == |values|
    ensures forall i :: 0 <= i < |values| ==> entries[i] == Field(first + i, values[i])
  {
    seq(|values|, i requires 0 <= i < |values| => Field(first + i, values[i]))
  }

  function Block(first: u64, values: seq<Value>): (m: FieldMap)
    requires first + |values| < U64_LIMIT
    ensures forall k: u64 :: k in m <==> first <= k < first + |values|
    ensures forall k: u64 :: k in m ==> m[k] == values[k - first]
  {
    if values == [] then map[]
    else Block(first, values[..|values| - 1])[first + |values| - 1 := values[|values| - 1]]
  }

  lemma ConsecutiveDescribes(first: u64, values: seq<Value>)
    requires first + |values| < U64_LIMIT
    ensures Describes(Consecutive(first, values), Block(first, values))
  {
    hide Block, Consecutive;
    var entries, m := Consecutive(first, values), Block(first, values);
    ConsecutiveKeysDiffer(first, values);
    forall e | e in entries ensures e.key.Unsigned? && e.key.n in m && m[e.key.n] == e.value {
      var i :| 0 <= i < |entries| && entries[i] == e;
    }
    forall k | k in m ensures Entry(Unsigned(k), m[k]) in entries {
      assert entries[k - first] == Entry(Unsigned(k), m[k]);
    }
  }

  lemma ConsecutiveKeysDiffer(first: u64, values: seq<Value>)
    requires first + |values| < U64_LIMIT
    ensures Distinct(Mapped(KeyOf, Consecutive(first, values)))
  {
    hide Consecutive;
    var keys := Mapped(KeyOf, Consecutive(first, values));
    forall i, j | 0 <= i < j < |keys| ensures keys[i] != keys[j] {
      assert keys[i] == Unsigned(first + i) && keys[j] == Unsigned(first + j);
    }
  }

  lemma DescribesTogether(a: seq<Entry>, m: FieldMap, b: seq<Entry>, n: FieldMap)
    requires Describes(a, m) && Describes(b, n) && m.Keys !! n.Keys
    ensures Describes(a + b, m + n)
  {
    var all := a + b;
    forall i | 0 <= i < |a| ensures a[i].key.Unsigned? && a[i].key.n !in n {
      assert a[i] in a;
    }
    forall i, j | 0 <= i < j < |all| ensures Mapped(KeyOf, all)[i] != Mapped(KeyOf, all)[j] {
      if j < |a| {
        assert Mapped(KeyOf, a)[i] != Mapped(KeyOf, a)[j];
      } else if |a| <= i {
        assert Mapped(KeyOf, b)[i - |a|] != Mapped(KeyOf, b)[j - |a|];
      } else {
        assert all[i] in a && all[j] in b;
      }
    }
  }

  // ----- reading one field

  function Required(m: FieldMap, k: u64): (r: Result<Value, SchemaError>)
    ensures r.Ok? <==> k in m
    ensures r.Ok? ==> r.value == m[k]
  {
    if k in m then Ok(m[k]) else Err(MissingField(k))
  }

  function RequiredUnsigned(m: FieldMap, k: u64): (r: Result<u64, SchemaError>)
    ensures r.Ok? <==> k in m && m[k].Unsigned?
    ensures r.Ok? ==> m[k] == Unsigned(r.value)
  {
    var v :- Required(m, k);
    if v.Unsigned? then Ok(v.n) else Err(WrongType(k))
  }

  function Signed(i: i64): (v: Value) {
    if i >= 0 then Unsigned(i) else Negative(i)
  }

  function RequiredSigned(m: FieldMap, k: u64): (r: Result<i64, SchemaError>)
    ensures r.Ok? ==> k in m && ((m[k].Negative? ==> m[k].i < 0) ==> m[k] == Signed(r.value))
    ensures k in m && (exists i: i64 :: m[k] == Signed(i)) ==> r.Ok?
  {
    var v :- Required(m, k);
    if v.Unsigned? then (if v.n <= I64_MAX then Ok(v.n) else Err(InvalidField(k)))
    else if v.Negative? then Ok(v.i)
    else Err(WrongType(k))
  }

  function RequiredBounded(m: FieldMap, k: u64, least: nat, most: nat): (r: Result<Bytes, SchemaError>)
    ensures r.Ok? <==> k in m && m[k].ByteString? && least <= |m[k].bytes| <= most
    ensures r.Ok? ==> m[k] == ByteString(r.value)
  {
    var v :- Required(m, k);
    if !v.ByteString? then Err(WrongType(k))
    else if least <= |v.bytes| <= most then Ok(v.bytes)
    else Err(InvalidField(k))
  }

  function RequiredBytes(m: FieldMap, k: u64, length: nat): (r: Result<Bytes, SchemaError>)
    ensures r.Ok? <==> k in m && m[k].ByteString? && |m[k].bytes| == length
    ensures r.Ok? ==> m[k] == ByteString(r.value)
  {
    RequiredBounded(m, k, length, length)
  }

  function RequiredText(m: FieldMap, k: u64, most: nat): (r: Result<Utf8.Text, SchemaError>)
    ensures r.Ok? <==> k in m && m[k].TextString? && |m[k].utf8| <= most
    ensures r.Ok? ==> m[k] == TextString(r.value)
  {
    var v :- Required(m, k);
    if !v.TextString? then Err(WrongType(k))
    else if |v.utf8| <= most then Ok(v.utf8)
    else Err(InvalidField(k))
  }

  function NonEmpty(t: Utf8.Text, k: u64): (r: Result<Utf8.Text, SchemaError>) {
    if t == [] then Err(InvalidField(k)) else Ok(t)
  }

  const VERSION: u64 := 1

  function Version(m: FieldMap): (r: Result<(), SchemaError>)
    ensures r.Ok? <==> 1 in m && m[1] == Unsigned(VERSION)
  {
    var actual :- RequiredUnsigned(m, 1);
    if actual == VERSION then Ok(()) else Err(ProtocolMismatch(actual))
  }

  function Unknown(m: FieldMap, known: set<u64>): (u: set<u64>) {
    set k | k in m && k !in known
  }

  predicate IsLeastOf(k: u64, s: set<u64>) {
    k in s && forall other :: other in s ==> k <= other
  }

  lemma {:induction false} LeastOfExists(s: set<u64>)
    requires s != {}
    ensures exists k: u64 :: IsLeastOf(k, s)
    decreases |s|
  {
    var x: u64 :| x in s;
    var rest := s - {x};
    if rest == {} {
      assert s == {x};
      assert IsLeastOf(x, s);
    } else {
      LeastOfExists(rest);
      var y: u64 :| IsLeastOf(y, rest);
      assert forall other :: other in s ==> other == x || other in rest;
      assert IsLeastOf(if x < y then x else y, s);
    }
  }

  /** The first key, in ascending order, that the message does not have. */
  function RejectUnknown(m: FieldMap, known: set<u64>): (r: Result<(), SchemaError>)
    ensures r.Ok? <==> m.Keys <= known
  {
    var unknown := Unknown(m, known);
    if unknown == {} then
      assert forall k :: k in m ==> k in known || k in unknown;
      Ok(())
    else
      LeastOfExists(unknown);
      var k: u64 :| k in unknown && IsLeastOf(k, unknown);
      assert k in m && k !in known;
      Err(UnknownField(k))
  }

  // ----- consecutive listings are already in key order

  lemma SimpleIsNormal(v: Value)
    requires v.Unsigned? || v.Negative? || v.ByteString? || v.TextString?
    ensures Normal(v) == v
  {
  }

  lemma NormalConsecutive(first: u64, values: seq<Value>)
    requires first + |values| < U64_LIMIT && forall i :: 0 <= i < |values| ==> Normal(values[i]) == values[i]
    ensures Normal(Value.Map(Consecutive(first, values))) == Value.Map(Consecutive(first, values))
  {
    hide Consecutive, Normal, NormalEntries, NormalEntry, Sorting.Sort, LengthFirstLt, Sorting.ItemsOf, Mapped;
    var entries := Consecutive(first, values);
    KeyedConsecutive(first, values);
    ConsecutiveAscends(first, values);
    KeyOrderIsTotal();
    Sorting.SortFixesAscending(NormalEntries(entries), LengthFirstLt);
    NormalOfMap(entries);
    ItemsOfMap(NormalEntries(entries));
    ItemsBack(entries);
  }

  lemma NormalOfMap(entries: seq<Entry>)
    ensures Normal(Value.Map(entries)) == Value.Map(Sorting.ItemsOf(Sorting.Sort(NormalEntries(entries), LengthFirstLt)))
  {
  }

  /** Entries that normalise to themselves. */
  predicate Steady(entries: seq<Entry>) {
    forall i :: 0 <= i < |entries| ==> NormalEntry(entries[i]) == Sorting.Keyed(Raw(entries[i].key), entries[i])
  }

  lemma KeyedConsecutive(first: u64, values: seq<Value>)
    requires first + |values| < U64_LIMIT && forall i :: 0 <= i < |values| ==> Normal(values[i]) == values[i]
    ensures Steady(Consecutive(first, values))
    ensures NormalEntries(Consecutive(first, values)) == Mapped(NormalEntry, Consecutive(first, values))
  {
    hide NormalEntries, Raw;
    var entries := Consecutive(first, values);
    NormalEntriesMap(entries);
    forall i | 0 <= i < |entries| ensures NormalEntry(entries[i]) == Sorting.Keyed(Raw(entries[i].key), entries[i]) {
      NormalOfUnsigned(entries[i]);
    }
  }

  lemma ConsecutiveAscends(first: u64, values: seq<Value>)
    requires first + |values| < U64_LIMIT && Steady(Consecutive(first, values))
    requires NormalEntries(Consecutive(first, values)) == Mapped(NormalEntry, Consecutive(first, values))
    ensures Sorting.StrictlyAscending(NormalEntries(Consecutive(first, values)), LengthFirstLt)
  {
    hide NormalEntries, Raw, LengthFirstLt, NormalEntry;
    var entries := Consecutive(first, values);
    var s := NormalEntries(entries);
    forall i, j | 0 <= i < j < |s| ensures LengthFirstLt(s[i].key, s[j].key) {
      assert entries[i] == Field(first + i, values[i]) && entries[j] == Field(first + j, values[j]);
      UnsignedKeyOrdersCoincide(first + i, first + j);
    }
  }

  /** Whatever the values, normalising a consecutive listing normalises them in place. */
  lemma NormalOfConsecutive(first: u64, values: seq<Value>, normal: seq<Value>)
    requires first + |values| < U64_LIMIT && |normal| == |values| && forall i :: 0 <= i < |values| ==> normal[i] == Normal(values[i])
    ensures Normal(Value.Map(Consecutive(first, values))) == Value.Map(Consecutive(first, normal))
  {
    hide Consecutive, Normal, NormalEntry, NormalEntries, LengthFirstLt, Raw, Sorting.Sort;
    var entries := Consecutive(first, values);
    var s := NormalEntries(entries);
    EachNormalEntry(entries);
    forall i | 0 <= i < |values| ensures s[i] == Sorting.Keyed(Raw(Unsigned(first + i)), Field(first + i, normal[i])) {
      NormalOfUnsigned(entries[i]);
    }
    forall i, j | 0 <= i < j < |s| ensures LengthFirstLt(s[i].key, s[j].key) {
      UnsignedKeyOrdersCoincide(first + i, first + j);
    }
    KeyOrderIsTotal();
    Sorting.SortFixesAscending(s, LengthFirstLt);
    NormalOfMap(entries);
    assert Sorting.ItemsOf(s) == Consecutive(first, normal);
  }

  /** A consecutive listing is in normal form exactly when its values are. */
  lemma ConsecutiveCanonical(first: u64, values: seq<Value>, depth: nat)
    requires first + |values| < U64_LIMIT && |values| <= DEFAULT_LIMITS.mapEntries && depth <= DEFAULT_LIMITS.nesting
    ensures Canonical(Value.Map(Consecutive(first, values)), depth, DEFAULT_LIMITS)
       <==> forall i :: 0 <= i < |values| ==> Canonical(values[i], depth + 1, DEFAULT_LIMITS)
  {
    hide Consecutive, Canonical, CanonicalEntries, CanonicalEntry, LengthFirstLt, Raw;
    var entries := Consecutive(first, values);
    MapCanonicalWhen(entries, depth);
    forall i | 0 <= i < |values| ensures CanonicalEntry(entries[i], depth + 1, DEFAULT_LIMITS) <==> Canonical(values[i], depth + 1, DEFAULT_LIMITS) {
      assert entries[i] == Field(first + i, values[i]);
      FieldCanonical(first + i, values[i], depth);
    }
    if CanonicalEntries(entries, depth + 1, None, DEFAULT_LIMITS) {
      CanonicalEntriesAreStrict(entries, depth + 1, None, DEFAULT_LIMITS);
    }
    if forall i :: 0 <= i < |values| ==> Canonical(values[i], depth + 1, DEFAULT_LIMITS) {
      var s := OwnKeys(entries);
      forall i, j | 0 <= i < j < |s| ensures LengthFirstLt(s[i].key, s[j].key) {
        assert entries[i] == Field(first + i, values[i]) && entries[j] == Field(first + j, values[j]);
        UnsignedKeyOrdersCoincide(first + i, first + j);
      }
      StrictEntriesAreCanonical(s, depth + 1, None, DEFAULT_LIMITS);
      assert Sorting.ItemsOf(s) == entries;
    }
  }

  lemma MapCanonicalWhen(entries: seq<Entry>, depth: nat)
    requires |entries| <= DEFAULT_LIMITS.mapEntries && depth <= DEFAULT_LIMITS.nesting
    ensures Canonical(Value.Map(entries), depth, DEFAULT_LIMITS) <==> CanonicalEntries(entries, depth + 1, None, DEFAULT_LIMITS)
  {
  }

  lemma FieldCanonical(k: u64, v: Value, depth: nat)
    ensures CanonicalEntry(Field(k, v), depth + 1, DEFAULT_LIMITS) <==> Canonical(v, depth + 1, DEFAULT_LIMITS)
  {
  }

  lemma ItemsBack(entries: seq<Entry>)
    requires Steady(entries) && NormalEntries(entries) == Mapped(NormalEntry, entries)
    ensures Mapped(Item, NormalEntries(entries)) == entries
  {
    hide NormalEntries, NormalEntry;
    assert |Mapped(Item, NormalEntries(entries))| == |entries|;
  }

  lemma ConsecutiveCollects(first: u64, values: seq<Value>)
    requires first + |values| < U64_LIMIT
    ensures Collect(Consecutive(first, values)) == Ok(Block(first, values))
  {
    hide *;
    ConsecutiveDescribes(first, values);
    DescribedCollects(Consecutive(first, values), Block(first, values));
  }

  /** A normal value with the fields of a consecutive listing is that listing. */
  lemma NestedIs(v: Value, first: u64, values: seq<Value>)
    requires first + |values| < U64_LIMIT && forall i :: 0 <= i < |values| ==> Normal(values[i]) == values[i]
    requires Normal(v) == v && FieldsOf(v) == Ok(Block(first, values))
    ensures v == Value.Map(Consecutive(first, values))
  {
    hide Consecutive, Block, Normal, Collect;
    ConsecutiveCollects(first, values);
    SameFieldsSameNormal(v.entries, Consecutive(first, values));
    NormalConsecutive(first, values);
  }

  // ----- bytes and fields

  predicate ProperNegatives(m: FieldMap) {
    forall k :: k in m && m[k].Negative? ==> m[k].i < 0
  }

  function CborFields(input: Bytes): (r: Result<FieldMap, SchemaError>) {
    match Decode(input)
    case Ok(v) => FieldsOf(v)
    case Err(e) => Err(Undecodable(e))
  }

  function EncodeEntries(entries: seq<Entry>): (r: Result<Bytes, SchemaError>) {
    match Encode(Value.Map(entries))
    case Ok(b) => Ok(b)
    case Err(e) => Err(Unencodable(e))
  }

  lemma DecodedFields(b: Bytes)
    requires CborFields(b).Ok?
    ensures Decode(b).Ok? && FieldsOf(Decode(b).value) == CborFields(b)
    ensures ProperNegatives(CborFields(b).value) && NormalFields(CborFields(b).value) == CborFields(b).value
    ensures forall k :: k in CborFields(b).value ==> Normal(CborFields(b).value[k]) == CborFields(b).value[k]
  {
    hide Decode, FieldsOf, Normal;
    DecodedFieldsAreNormal(b);
  }

  /** If decoded fields are also what `entries` list, in any order, encoding `entries` gives back the bytes. */
  lemma Reencodes(b: Bytes, entries: seq<Entry>)
    requires CborFields(b).Ok? && Collect(entries) == CborFields(b)
    ensures EncodeEntries(entries) == Ok(b)
  {
    hide Collect, Encode, Decode, FieldsOf;
    DecodedFields(b);
    ReencodesFields(b, entries);
  }

  /** The fields of encoded entries are theirs, each in normal form. */
  lemma Redecodes(entries: seq<Entry>)
    requires Collect(entries).Ok? && EncodeEntries(entries).Ok?
    ensures CborFields(EncodeEntries(entries).value) == Ok(NormalFields(Collect(entries).value))
  {
    hide Collect, Encode, Decode, FieldsOf, NormalFields;
    DecodesFields(entries, EncodeEntries(entries).value);
  }
}
