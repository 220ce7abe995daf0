/** The helper's plan manifest: what it accepts, and that its bytes are determined by what it says. */
module PlanManifest {
  import opened ByteStrings
  import opened Vocabulary
  import opened Results
  import opened Cbor
  import opened HelperCbor
  import A = ActionGraph
  import E = CborEncoding
  import Sorting

  const MAX_INPUTS: nat := 16_384

  datatype SealedInput = SealedInput(digest: Bytes, role: u64)

  datatype Manifest = Manifest(
    planDigest: Bytes,
    inputs: seq<SealedInput>,
    graph: A.Graph,
    policyDigest: Bytes,
    createdUtc: i64,
    toolchain: Bytes,
    prestate: Bytes)

  // ----- fields

  function FindKey(entries: seq<Entry>, k: u64): (i: Option<nat>)
    ensures i.Some? ==> i.value < |entries| && entries[i.value].key == Unsigned(k)
  {
    if entries == [] then None
    else if entries[0].key == Unsigned(k) then Some(0)
    else
      var rest := FindKey(entries[1..], k);
      if rest.Some? then Some(rest.value + 1) else None
  }

  function MapField(v: Value, k: u64): (f: Option<Value>) {
    if !v.Map? || FindKey(v.entries, k).None? then None else Some(v.entries[FindKey(v.entries, k).value].value)
  }

  /** Exactly the fields 1 to `n`, as far as counting and looking them up tells. */
  predicate HasFields(v: Value, n: nat)
    requires n < U64_LIMIT
  {
    v.Map? && |v.entries| == n && forall k: u64 :: 1 <= k <= n ==> FindKey(v.entries, k).Some?
  }

  function DigestIn(v: Value, k: u64): (d: Option<Bytes>)
    ensures d.Some? ==> MapField(v, k) == Some(ByteString(d.value))
  {
    var f := MapField(v, k);
    if f.Some? && f.value.ByteString? && |f.value.bytes| == 32 then Some(f.value.bytes) else None
  }

  function TextIn(v: Value, k: u64, most: nat, mayBeEmpty: bool): (t: Option<Bytes>)
    ensures t.Some? ==> MapField(v, k).Some? && MapField(v, k).value.TextString? && MapField(v, k).value.utf8 == t.value
  {
    var f := MapField(v, k);
    if f.Some? && f.value.TextString? && |f.value.utf8| <= most && (mayBeEmpty || f.value.utf8 != []) then Some(f.value.utf8) else None
  }

  function NumberIn(v: Value, k: u64): (n: Option<u64>)
    ensures n.Some? ==> MapField(v, k) == Some(Unsigned(n.value))
  {
    var f := MapField(v, k);
    if f.Some? && f.value.Unsigned? then Some(f.value.n) else None
  }

  // ----- actions

  function Parents(items: seq<Value>): (r: Option<seq<nat>>)
    ensures r.Some? ==> |r.value| == |items| && forall i :: 0 <= i < |items| ==> items[i].Unsigned? && r.value[i] == items[i].n
  {
    if items == [] then Some([])
    else
      var earlier := Parents(items[..|items| - 1]);
      var last := items[|items| - 1];
      if earlier.None? || !last.Unsigned? || last.n > 0xffff_ffff then None else Some(earlier.value + [last.n as int])
  }

  function ParentsIn(v: Value): (r: Option<seq<nat>>)
    ensures r.Some? ==> MapField(v, 8).Some? && MapField(v, 8).value.Array? && Parents(MapField(v, 8).value.items) == r
  {
    var f := MapField(v, 8);
    if f.Some? && f.value.Array? && |f.value.items| <= A.MAX_GRAPH_ACTIONS then Parents(f.value.items) else None
  }

  function ParseAction(v: Value): (r: Option<A.PackageAction>) {
    var name, architecture := TextIn(v, 1, 255, false), TextIn(v, 2, 64, false);
    var installed, target := TextIn(v, 3, 256, true), TextIn(v, 4, 256, false);
    var kind, origin := NumberIn(v, 5), TextIn(v, 6, 512, false);
    var digest, parents := DigestIn(v, 7), ParentsIn(v);
    var archive, delta := NumberIn(v, 9), NumberIn(v, 10);
    if !HasFields(v, 10) || name.None? || !SchemaName(name.value) || architecture.None? || installed.None? || target.None?
       || origin.None? || kind != Some(A.INSTALL) || archive.None? || delta.None? || digest.None? || parents.None? then None
    else
      Some(A.PackageAction(name.value, architecture.value, installed.value, target.value, A.INSTALL, origin.value, digest.value,
                           archive.value, delta.value, parents.value))
  }

  function ParseActions(items: seq<Value>): (r: Option<A.Graph>)
    ensures r.Some? ==> |r.value| == |items|
  {
    if items == [] then Some([])
    else
      var earlier, last := ParseActions(items[..|items| - 1]), ParseAction(items[|items| - 1]);
      if earlier.None? || last.None? then None else Some(earlier.value + [last.value])
  }

  // ----- sealed inputs

  function ParseInput(v: Value): (r: Option<SealedInput>) {
    var digest, role := DigestIn(v, 1), NumberIn(v, 2);
    if !HasFields(v, 2) || digest.None? || role.None? || role.value == 0 then None
    else Some(SealedInput(digest.value, role.value))
  }

  function ParseInputs(items: seq<Value>): (r: Result<seq<SealedInput>, ManifestError>)
    ensures r.Ok? ==> |r.value| == |items|
  {
    if items == [] then Ok([])
    else
      var earlier :- ParseInputs(items[..|items| - 1]);
      var next := ParseInput(items[|items| - 1]);
      if next.None? then Err(InvalidField)
      else if earlier != [] && !LexLt(earlier[|earlier| - 1].digest, next.value.digest) then
        Err(if earlier[|earlier| - 1].digest == next.value.digest then DuplicateInput else InputOrderInvalid)
      else Ok(earlier + [next.value])
  }

  // ----- manifests

  /** The time as stored: an unsigned time keeps its low 64 bits and is read as signed. */
  function CreatedIn(v: Value): (c: Option<i64>) {
    var f := MapField(v, 6);
    if f.None? then None
    else if f.value.Unsigned? then Some(if f.value.n <= I64_MAX then f.value.n else f.value.n - U64_LIMIT)
    else if f.value.Negative? then Some(f.value.i)
    else None
  }

  function ParseGraph(v: Value): (r: Option<A.Graph>) {
    var f := MapField(v, 4);
    if f.None? || !f.value.Array? || |f.value.items| > A.MAX_GRAPH_ACTIONS then None
    else
      var g := ParseActions(f.value.items);
      if g.None? || A.Normalized(g.value) != Some(g.value) then None else g
  }

  function ParseRoot(v: Value): (r: Result<Manifest, ManifestError>) {
    if !v.Map? then Err(MalformedCbor)
    else if |v.entries| > 8 then Err(UnknownField)
    else if |v.entries| < 8 then Err(MissingField)
    else if !HasFields(v, 8) then Err(UnknownField)
    else if NumberIn(v, 1) != Some(1) then Err(UnsupportedVersion)
    else
      var plan, policy, prestate := DigestIn(v, 2), DigestIn(v, 5), DigestIn(v, 8);
      var created, toolchain := CreatedIn(v), TextIn(v, 7, 128, false);
      if plan.None? || policy.None? || prestate.None? || created.None? || toolchain.None? then Err(InvalidField)
      else
        var f := MapField(v, 3);
        if f.None? || !f.value.Array? || |f.value.items| > MAX_INPUTS then Err(InvalidField)
        else
          var inputs :- ParseInputs(f.value.items);
          var graph := ParseGraph(v);
          if graph.None? then Err(ActionGraphInvalid)
          else Ok(Manifest(plan.value, inputs, graph.value, policy.value, created.value, toolchain.value, prestate.value))
  }

  function Parse(encoded: Bytes): (r: Result<Manifest, ManifestError>) {
    var root :- HelperParse(encoded);
    ParseRoot(root)
  }

  /** The loop over the sealed inputs, which carries the previous digest. */
  method ReadInputs(items: seq<Value>) returns (r: Result<seq<SealedInput>, ManifestError>)
    ensures r == ParseInputs(items)
  {
    hide ParseInput, LexLt;
    var inputs: seq<SealedInput> := [];
    var previous: Option<Bytes> := None;
    var i := 0;
    while i < |items|
      invariant i <= |items| && |inputs| == i && ParseInputs(items[..i]) == Ok(inputs)
      invariant previous == (if i == 0 then None else Some(inputs[i - 1].digest))
    {
      assert items[..i + 1][..i] == items[..i];
      var parsed := ParseInput(items[i]);
      if parsed.None? {
        InputsFail(items, i + 1);
        return Err(InvalidField);
      }
      if previous.Some? && !LexLt(previous.value, parsed.value.digest) {
        InputsFail(items, i + 1);
        return Err(if previous.value == parsed.value.digest then DuplicateInput else InputOrderInvalid);
      }
      previous := Some(parsed.value.digest);
      inputs := inputs + [parsed.value];
      i := i + 1;
    }
    assert items[..i] == items;
    return Ok(inputs);
  }

  lemma {:induction false} InputsFail(items: seq<Value>, i: nat)
    requires i <= |items| && ParseInputs(items[..i]).Err?
    ensures ParseInputs(items) == ParseInputs(items[..i])
  {
    if i == |items| {
      assert items[..i] == items;
    } else {
      assert items[..|items| - 1][..i] == items[..i];
      InputsFail(items[..|items| - 1], i);
    }
  }

  // ----- what an accepted manifest is

  lemma {:induction false} InputsAscend(items: seq<Value>)
    requires ParseInputs(items).Ok?
    ensures forall i, j :: 0 <= i < j < |items| ==> LexLt(ParseInputs(items).value[i].digest, ParseInputs(items).value[j].digest)
    ensures forall i :: 0 <= i < |items| ==> ParseInputs(items).value[i].role != 0
  {
    hide LexLt, ParseInput;
    if items != [] {
      var n := |items| - 1;
      InputsAscend(items[..n]);
      var earlier, all := ParseInputs(items[..n]).value, ParseInputs(items).value;
      RolePresent(items[n]);
      forall i | 0 <= i < n ensures LexLt(all[i].digest, all[n].digest) {
        if i < n - 1 {
          assert LexLt(earlier[i].digest, earlier[n - 1].digest);
          LexTransitive(all[i].digest, all[n - 1].digest, all[n].digest);
        }
      }
    }
  }

  lemma RolePresent(v: Value)
    ensures ParseInput(v).Some? ==> ParseInput(v).value.role != 0
  {
  }

  /** An accepted manifest lists its inputs in strictly ascending order and its graph in normal form, which a second pass would leave alone. */
  lemma AcceptedIsNormal(encoded: Bytes)
    requires Parse(encoded).Ok?
    ensures var m := Parse(encoded).value;
      && A.Normalized(m.graph) == Some(m.graph) && A.IsNormalForm(m.graph, m.graph)
      && (forall i, j :: 0 <= i < j < |m.inputs| ==> LexLt(m.inputs[i].digest, m.inputs[j].digest))
  {
    hide A.Normalized, A.IsNormalForm, ParseInputs, LexLt, HelperParse;
    var root := HelperParse(encoded).value;
    A.NormalizedExactly(Parse(encoded).value.graph, Parse(encoded).value.graph);
    InputsAscend(MapField(root, 3).value.items);
  }

  // ----- the bytes are determined by what they say

  /** Where the fields 1 to `n` of a map stand. */
  function Places(v: Value, n: nat): (p: seq<nat>)
    requires n < U64_LIMIT && HasFields(v, n)
    ensures |p| == n && forall i :: 0 <= i < n ==> FindKey(v.entries, i + 1) == Some(p[i])
  {
    seq(n, i requires 0 <= i < n => FindKey(v.entries, i + 1).value)
  }

  lemma PlacesAscend(v: Value, n: nat, i: nat, j: nat)
    requires n < U64_LIMIT && HasFields(v, n) && i < j < n
    requires Sorting.StrictlyAscending(E.OwnKeys(v.entries), LengthFirstLt)
    ensures Places(v, n)[i] < Places(v, n)[j]
  {
    hide FindKey, Raw, LexLt;
    var p, keys := Places(v, n), E.OwnKeys(v.entries);
    E.UnsignedKeyOrdersCoincide(i + 1, j + 1);
    LexTrichotomy(Raw(Unsigned(i + 1)), Raw(Unsigned(j + 1)));
    assert p[j] < p[i] ==> LengthFirstLt(keys[p[j]].key, keys[p[i]].key);
  }

  /** In canonical order, the fields 1 to `n` of a map of `n` entries are its entries in turn. */
  lemma FieldsInTurn(v: Value, depth: nat, n: nat)
    requires n < U64_LIMIT && HasFields(v, n) && Canonical(v, depth, HELPER_LIMITS)
    ensures forall i :: 0 <= i < n ==> v.entries[i].key == Unsigned(i + 1) && MapField(v, i + 1) == Some(v.entries[i].value)
  {
    hide FindKey, Canonical, CanonicalEntries, Sorting.StrictlyAscending, E.OwnKeys, LengthFirstLt;
    EntriesCanonical(v, depth);
    E.CanonicalEntriesAreStrict(v.entries, depth + 1, None, HELPER_LIMITS);
    var p := Places(v, n);
    forall i, j | 0 <= i < j < n ensures p[i] < p[j] {
      PlacesAscend(v, n, i, j);
    }
    A.IncreasingIsIdentity(p);
    forall i | 0 <= i < n ensures v.entries[i].key == Unsigned(i + 1) && MapField(v, i + 1) == Some(v.entries[i].value) {
      assert FindKey(v.entries, i + 1) == Some(p[i]);
    }
  }

  lemma EntriesCanonical(v: Value, depth: nat)
    requires Canonical(v, depth, HELPER_LIMITS) && v.Map?
    ensures CanonicalEntries(v.entries, depth + 1, None, HELPER_LIMITS)
  {
  }

  /** Canonical maps with the same fields 1 to `n` and no others are the same map. */
  lemma SameFieldsSameMap(v: Value, w: Value, depth: nat, n: nat)
    requires n < U64_LIMIT && HasFields(v, n) && HasFields(w, n)
    requires Canonical(v, depth, HELPER_LIMITS) && Canonical(w, depth, HELPER_LIMITS)
    requires forall k: u64 :: 1 <= k <= n ==> MapField(v, k) == MapField(w, k)
    ensures v == w
  {
    hide MapField, Canonical, FindKey;
    FieldsInTurn(v, depth, n);
    FieldsInTurn(w, depth, n);
    forall i | 0 <= i < n ensures v.entries[i] == w.entries[i] {
      assert MapField(v, i + 1) == MapField(w, i + 1);
    }
    assert v.entries == w.entries;
  }

  lemma TextsEqual(v: Value, w: Value, k: u64, most: nat, mayBeEmpty: bool)
    requires TextIn(v, k, most, mayBeEmpty).Some? && TextIn(v, k, most, mayBeEmpty) == TextIn(w, k, most, mayBeEmpty)
    ensures MapField(v, k) == MapField(w, k)
  {
    hide MapField;
  }

  lemma ParentsEqual(v: Value, w: Value)
    requires ParentsIn(v).Some? && ParentsIn(v) == ParentsIn(w)
    ensures MapField(v, 8) == MapField(w, 8)
  {
    hide MapField, Parents, ParentsIn;
    assert MapField(v, 8).value.items == MapField(w, 8).value.items;
  }

  lemma ActionFields(v: Value, w: Value)
    requires ParseAction(v).Some? && ParseAction(v) == ParseAction(w)
    ensures HasFields(v, 10) && HasFields(w, 10)
    ensures forall k: u64 :: 1 <= k <= 10 ==> MapField(v, k) == MapField(w, k)
  {
    hide MapField, HasFields, TextIn, NumberIn, DigestIn, ParentsIn, SchemaName;
    TextsEqual(v, w, 1, 255, false);
    TextsEqual(v, w, 2, 64, false);
    TextsEqual(v, w, 3, 256, true);
    TextsEqual(v, w, 4, 256, false);
    TextsEqual(v, w, 6, 512, false);
    ParentsEqual(v, w);
    forall k: u64 | 1 <= k <= 10 ensures MapField(v, k) == MapField(w, k) {
      assert k == 1 || k == 2 || k == 3 || k == 4 || k == 5 || k == 6 || k == 7 || k == 8 || k == 9 || k == 10;
    }
  }

  lemma {:induction false} ActionsEqual(v: seq<Value>, w: seq<Value>, depth: nat)
    requires ParseActions(v).Some? && ParseActions(v) == ParseActions(w)
    requires forall i :: 0 <= i < |v| ==> Canonical(v[i], depth, HELPER_LIMITS)
    requires forall i :: 0 <= i < |w| ==> Canonical(w[i], depth, HELPER_LIMITS)
    ensures v == w
  {
    hide ParseAction, Canonical, HasFields, MapField;
    if v != [] {
      var n := |v| - 1;
      assert |w| == |v|;
      var a, b := ParseActions(v).value, ParseActions(w).value;
      assert ParseAction(v[n]) == Some(a[n]) && ParseAction(w[n]) == Some(b[n]);
      assert a[..n] == ParseActions(v[..n]).value && b[..n] == ParseActions(w[..n]).value;
      ActionsEqual(v[..n], w[..n], depth);
      ActionFields(v[n], w[n]);
      SameFieldsSameMap(v[n], w[n], depth, 10);
      assert v == v[..n] + [v[n]] && w == w[..n] + [w[n]];
    }
  }

  lemma InputEqual(v: Value, w: Value, depth: nat)
    requires ParseInput(v).Some? && ParseInput(v) == ParseInput(w)
    requires Canonical(v, depth, HELPER_LIMITS) && Canonical(w, depth, HELPER_LIMITS)
    ensures v == w
  {
    hide MapField, HasFields, Canonical;
    forall k: u64 | 1 <= k <= 2 ensures MapField(v, k) == MapField(w, k) {
      assert k == 1 || k == 2;
    }
    SameFieldsSameMap(v, w, depth, 2);
  }

  lemma {:induction false} InputsEqual(v: seq<Value>, w: seq<Value>, depth: nat)
    requires ParseInputs(v).Ok? && ParseInputs(v) == ParseInputs(w)
    requires forall i :: 0 <= i < |v| ==> Canonical(v[i], depth, HELPER_LIMITS)
    requires forall i :: 0 <= i < |w| ==> Canonical(w[i], depth, HELPER_LIMITS)
    ensures v == w
  {
    hide ParseInput, Canonical, LexLt;
    if v != [] {
      var n := |v| - 1;
      assert |w| == |v|;
      var a, b := ParseInputs(v).value, ParseInputs(w).value;
      assert ParseInput(v[n]) == Some(a[n]) && ParseInput(w[n]) == Some(b[n]);
      assert a[..n] == ParseInputs(v[..n]).value && b[..n] == ParseInputs(w[..n]).value;
      InputsEqual(v[..n], w[..n], depth);
      InputEqual(v[n], w[n], depth);
      assert v == v[..n] + [v[n]] && w == w[..n] + [w[n]];
    }
  }

  lemma {:induction false} ItemCanonical(items: seq<Value>, depth: nat, i: nat)
    requires CanonicalItems(items, depth, HELPER_LIMITS) && i < |items|
    ensures Canonical(items[i], depth, HELPER_LIMITS)
  {
    if i > 0 {
      ItemCanonical(items[1..], depth, i - 1);
    }
  }

  /** The elements of an array in a field of a canonical map are canonical. */
  lemma ElementsCanonical(v: Value, k: nat)
    requires Canonical(v, 0, HELPER_LIMITS) && v.Map? && k < |v.entries| && v.entries[k].value.Array?
    ensures forall i :: 0 <= i < |v.entries[k].value.items| ==> Canonical(v.entries[k].value.items[i], 2, HELPER_LIMITS)
  {
    hide Canonical, CanonicalEntries, CanonicalItems;
    EntriesCanonical(v, 0);
    EntryCanonical(v.entries, 1, None, k);
    var items := v.entries[k].value.items;
    ArrayCanonical(v.entries[k].value, 1);
    forall i | 0 <= i < |items| ensures Canonical(items[i], 2, HELPER_LIMITS) {
      ItemCanonical(items, 2, i);
    }
  }

  lemma ArrayCanonical(v: Value, depth: nat)
    requires Canonical(v, depth, HELPER_LIMITS) && v.Array?
    ensures CanonicalItems(v.items, depth + 1, HELPER_LIMITS)
  {
  }

  lemma {:induction false} EntryCanonical(entries: seq<Entry>, depth: nat, previous: Option<Bytes>, k: nat)
    requires CanonicalEntries(entries, depth, previous, HELPER_LIMITS) && k < |entries|
    ensures Canonical(entries[k].value, depth, HELPER_LIMITS)
  {
    if k == 0 {
      ValueCanonical(entries[0], depth);
    } else {
      EntryCanonical(entries[1..], depth, Some(Raw(entries[0].key)), k - 1);
    }
  }

  lemma ValueCanonical(e: Entry, depth: nat)
    requires CanonicalEntry(e, depth, HELPER_LIMITS)
    ensures Canonical(e.value, depth, HELPER_LIMITS)
  {
  }

  lemma RootArrays(v: Value)
    requires ParseRoot(v).Ok?
    ensures HasFields(v, 8)
    ensures MapField(v, 3).Some? && MapField(v, 3).value.Array? && ParseInputs(MapField(v, 3).value.items) == Ok(ParseRoot(v).value.inputs)
    ensures MapField(v, 4).Some? && MapField(v, 4).value.Array? && ParseActions(MapField(v, 4).value.items) == Some(ParseRoot(v).value.graph)
    ensures MapField(v, 6).Some? && CreatedIn(v) == Some(ParseRoot(v).value.createdUtc)
    ensures NumberIn(v, 1) == Some(1) && TextIn(v, 7, 128, false) == Some(ParseRoot(v).value.toolchain)
    ensures DigestIn(v, 2) == Some(ParseRoot(v).value.planDigest) && DigestIn(v, 5) == Some(ParseRoot(v).value.policyDigest)
    ensures DigestIn(v, 8) == Some(ParseRoot(v).value.prestate)
  {
    hide MapField, HasFields, ParseInputs, ParseActions, A.Normalized, DigestIn, TextIn, NumberIn;
  }

  /** A field of a root that holds an array, with its elements canonical. */
  lemma RootElements(v: Value, k: nat)
    requires Canonical(v, 0, HELPER_LIMITS) && HasFields(v, 8) && k < 8
    requires MapField(v, k + 1).Some? && MapField(v, k + 1).value.Array?
    ensures var items := MapField(v, k + 1).value.items; forall i :: 0 <= i < |items| ==> Canonical(items[i], 2, HELPER_LIMITS)
  {
    hide MapField, Canonical, FindKey;
    FieldsInTurn(v, 0, 8);
    ElementsCanonical(v, k);
  }

  /** Roots that parse to one manifest, with the same time field, are the same value. */
  lemma RootsEqual(v: Value, w: Value)
    requires Canonical(v, 0, HELPER_LIMITS) && Canonical(w, 0, HELPER_LIMITS)
    requires ParseRoot(v).Ok? && ParseRoot(v) == ParseRoot(w) && MapField(v, 6) == MapField(w, 6)
    ensures v == w
  {
    hide MapField, Canonical, HasFields, ParseRoot, ParseInputs, ParseActions, DigestIn, TextIn, NumberIn;
    RootArrays(v);
    RootArrays(w);
    RootElements(v, 2);
    RootElements(w, 2);
    RootElements(v, 3);
    RootElements(w, 3);
    InputsEqual(MapField(v, 3).value.items, MapField(w, 3).value.items, 2);
    ActionsEqual(MapField(v, 4).value.items, MapField(w, 4).value.items, 2);
    TextsEqual(v, w, 7, 128, false);
    forall k: u64 | 1 <= k <= 8 ensures MapField(v, k) == MapField(w, k) {
      assert k == 1 || k == 2 || k == 3 || k == 4 || k == 5 || k == 6 || k == 7 || k == 8;
    }
    SameFieldsSameMap(v, w, 0, 8);
  }

  /** Whether an accepted manifest gave its time as an unsigned number that the cast turned negative. */
  predicate TimeWrapped(encoded: Bytes)
    requires Parse(encoded).Ok?
  {
    var f := MapField(HelperParse(encoded).value, 6);
    f.Some? && f.value.Unsigned? && f.value.n > I64_MAX
  }

  /**
   * An accepted manifest's bytes are determined by what it says, but for one thing: two encodings of one manifest
   * are the same exactly when both, or neither, had their time wrapped around.
   */
  lemma ManifestDeterminesBytes(a: Bytes, b: Bytes)
    requires Parse(a).Ok? && Parse(a) == Parse(b)
    ensures a == b <==> TimeWrapped(a) == TimeWrapped(b)
  {
    hide MapField, HasFields, ParseRoot, HelperParse, Canonical, Plain, Raw;
    var v, w := HelperParse(a).value, HelperParse(b).value;
    HelperExactly(a, v);
    HelperExactly(b, w);
    RootArrays(v);
    RootArrays(w);
    if TimeWrapped(a) == TimeWrapped(b) {
      TimeIsProper(v);
      TimeIsProper(w);
      assert MapField(v, 6) == MapField(w, 6);
      RootsEqual(v, w);
    }
  }

  lemma TimeIsProper(v: Value)
    requires Canonical(v, 0, HELPER_LIMITS) && HasFields(v, 8) && MapField(v, 6).Some?
    ensures MapField(v, 6).value.Negative? ==> MapField(v, 6).value.i < 0
  {
    hide MapField, Canonical, FindKey, CanonicalEntries;
    FieldsInTurn(v, 0, 8);
    EntriesCanonical(v, 0);
    EntryCanonical(v.entries, 1, None, 5);
    NegativeIsProper(v.entries[5].value, 1);
    assert MapField(v, 5 + 1) == Some(v.entries[5].value);
  }

  lemma NegativeIsProper(v: Value, depth: nat)
    requires Canonical(v, depth, HELPER_LIMITS)
    ensures v.Negative? ==> v.i < 0
  {
  }

  /** `v` with another value in the field where the time stands. */
  function WithTime(v: Value, time: Value): (w: Value)
    requires v.Map? && FindKey(v.entries, 6).Some?
    ensures w.Map?
  {
    var i := FindKey(v.entries, 6).value;
    Value.Map(v.entries[i := Entry(Unsigned(6), time)])
  }

  lemma {:induction false} FindSameKeys(a: seq<Entry>, b: seq<Entry>, k: u64)
    requires |a| == |b| && forall i :: 0 <= i < |a| ==> a[i].key == b[i].key
    ensures FindKey(a, k) == FindKey(b, k)
  {
    if a != [] {
      FindSameKeys(a[1..], b[1..], k);
    }
  }

  lemma TimeReplaced(v: Value, time: Value, k: u64)
    requires v.Map? && FindKey(v.entries, 6).Some?
    ensures WithTime(v, time).Map? && |WithTime(v, time).entries| == |v.entries|
    ensures FindKey(WithTime(v, time).entries, k) == FindKey(v.entries, k)
    ensures MapField(WithTime(v, time), k) == if k == 6 then Some(time) else MapField(v, k)
  {
    hide FindKey;
    FindSameKeys(v.entries, WithTime(v, time).entries, k);
  }

  /** The other form of a negative time: the negative number for the unsigned one that wraps to it, and the reverse. */
  function OtherTime(time: Value): (other: Value) {
    match time
    case Unsigned(n) => if n > I64_MAX then Negative(n - U64_LIMIT) else time
    case Negative(i) => if i < 0 then Unsigned(i + U64_LIMIT) else time
    case _ => time
  }

  function OtherForm(v: Value): (w: Value)
    requires MapField(v, 6).Some?
  {
    WithTime(v, OtherTime(MapField(v, 6).value))
  }

  /** The other form of the time leaves what the root says alone. */
  lemma OtherFormParses(v: Value)
    requires ParseRoot(v).Ok? && MapField(v, 6).Some?
    ensures ParseRoot(OtherForm(v)) == ParseRoot(v) && MapField(OtherForm(v), 6) == Some(OtherTime(MapField(v, 6).value))
    ensures ParseRoot(v).value.createdUtc < 0 && MapField(v, 6) != Some(Negative(0)) ==> OtherForm(v) != v
  {
    hide FindKey, WithTime, ParseInputs, ParseActions, A.Normalized, MapField;
    var time := OtherTime(MapField(v, 6).value);
    var w := WithTime(v, time);
    HasTime(v);
    forall k: u64 ensures FindKey(w.entries, k) == FindKey(v.entries, k) && MapField(w, k) == if k == 6 then Some(time) else MapField(v, k) {
      TimeReplaced(v, time, k);
    }
    TimeReplaced(v, time, 6);
  }

  lemma HasTime(v: Value)
    requires MapField(v, 6).Some?
    ensures v.Map? && FindKey(v.entries, 6).Some? && v.entries[FindKey(v.entries, 6).value].value == MapField(v, 6).value
  {
  }

  /** Another value under one key of a canonical map keeps it canonical, and no longer if the value's encoding is not. */
  lemma {:induction false} ReplacedCanonical(entries: seq<Entry>, depth: nat, previous: Option<Bytes>, i: nat, e: Entry)
    requires CanonicalEntries(entries, depth, previous, HELPER_LIMITS) && i < |entries|
    requires CanonicalEntry(e, depth, HELPER_LIMITS) && e.key == entries[i].key
    ensures CanonicalEntries(entries[i := e], depth, previous, HELPER_LIMITS)
    ensures |RawEntries(entries[i := e])| == |RawEntries(entries)| - |Raw(entries[i].value)| + |Raw(e.value)|
  {
    hide Canonical, Raw, LengthFirstLt, CanonicalEntry;
    var replaced := entries[i := e];
    if i == 0 {
      assert replaced[1..] == entries[1..];
    } else {
      ReplacedCanonical(entries[1..], depth, Some(Raw(entries[0].key)), i - 1, e);
      assert replaced[1..] == entries[1..][i - 1 := e];
    }
  }

  lemma {:induction false} ReplacedPlain(entries: seq<Entry>, i: nat, e: Entry)
    requires PlainEntries(entries) && i < |entries| && PlainEntry(e)
    ensures PlainEntries(entries[i := e])
  {
    hide PlainEntry;
    var replaced := entries[i := e];
    if i == 0 {
      assert replaced[1..] == entries[1..];
    } else {
      ReplacedPlain(entries[1..], i - 1, e);
      assert replaced[1..] == entries[1..][i - 1 := e];
    }
  }

  lemma TimeIsCanonical(time: Value)
    ensures time.Unsigned? || (time.Negative? && time.i < 0) ==>
      CanonicalEntry(Entry(Unsigned(6), time), 1, HELPER_LIMITS) && PlainEntry(Entry(Unsigned(6), time))
    ensures time.Unsigned? && time.n > I64_MAX ==> |Raw(OtherTime(time))| <= |Raw(time)|
  {
  }

  /** The other form of an accepted root is again in normal form; of a wrapped one, it is no longer than the root. */
  lemma OtherFormCanonical(v: Value)
    requires Canonical(v, 0, HELPER_LIMITS) && Plain(v) && ParseRoot(v).Ok? && MapField(v, 6).Some?
    ensures Canonical(OtherForm(v), 0, HELPER_LIMITS) && Plain(OtherForm(v))
    ensures MapField(v, 6).value.Unsigned? && MapField(v, 6).value.n > I64_MAX ==> |Raw(OtherForm(v))| <= |Raw(v)|
  {
    hide FindKey, CanonicalEntries, PlainEntries, ParseRoot, HasFields, Raw, Canonical, Plain, CanonicalEntry, PlainEntry, OtherTime, MapField;
    HasTime(v);
    RootArrays(v);
    TimeIsProper(v);
    var i, time := FindKey(v.entries, 6).value, OtherTime(MapField(v, 6).value);
    var e := Entry(Unsigned(6), time);
    OtherIsTime(MapField(v, 6).value);
    TimeIsCanonical(MapField(v, 6).value);
    TimeIsCanonical(time);
    EntriesCanonical(v, 0);
    ReplacedCanonical(v.entries, 1, None, i, e);
    PlainMap(v);
    ReplacedPlain(v.entries, i, e);
    MapCanonical(v, v.entries[i := e]);
  }

  lemma OtherIsTime(time: Value)
    requires time.Unsigned? || (time.Negative? && time.i < 0)
    ensures OtherTime(time).Unsigned? || (OtherTime(time).Negative? && OtherTime(time).i < 0)
  {
  }

  lemma PlainMap(v: Value)
    requires Plain(v) && v.Map?
    ensures PlainEntries(v.entries)
  {
  }

  lemma MapCanonical(v: Value, entries: seq<Entry>)
    requires Canonical(v, 0, HELPER_LIMITS) && v.Map? && |entries| == |v.entries|
    requires CanonicalEntries(entries, 1, None, HELPER_LIMITS) && PlainEntries(entries)
    ensures Canonical(Value.Map(entries), 0, HELPER_LIMITS) && Plain(Value.Map(entries))
    ensures |Raw(Value.Map(entries))| - |Raw(v)| == |RawEntries(entries)| - |RawEntries(v.entries)|
  {
    hide CanonicalEntries, PlainEntries, RawEntries;
  }

  lemma RootTime(v: Value)
    requires ParseRoot(v).Ok? && Canonical(v, 0, HELPER_LIMITS)
    ensures MapField(v, 6).Some? && CreatedIn(v) == Some(ParseRoot(v).value.createdUtc)
    ensures MapField(v, 6).value.Negative? ==> MapField(v, 6).value.i < 0
  {
    hide MapField, HasFields, ParseRoot, Canonical;
    RootArrays(v);
    TimeIsProper(v);
  }

  /** A second encoding can only be the other form. */
  lemma OnlyOtherForm(a: Bytes, b: Bytes)
    requires Parse(a).Ok? && Parse(a) == Parse(b) && a != b
    ensures MapField(HelperParse(a).value, 6).Some? && Parse(a).value.createdUtc < 0
    ensures b == Raw(OtherForm(HelperParse(a).value)) && |b| <= MAX_MANIFEST_BYTES
  {
    hide MapField, ParseRoot, HelperParse, Canonical, Plain, Raw, OtherForm;
    var v, w := HelperParse(a).value, HelperParse(b).value;
    HelperExactly(a, v);
    HelperExactly(b, w);
    RootTime(v);
    RootTime(w);
    ManifestDeterminesBytes(a, b);
    OtherFormParses(v);
    OtherFormCanonical(v);
    assert MapField(w, 6).value == OtherTime(MapField(v, 6).value);
    RootsEqual(w, OtherForm(v));
  }

  /**
   * The exception is real, and exact: an accepted manifest has a second encoding exactly when its time is negative and
   * the other form of it fits the size limit, which it always does when the time was wrapped.
   */
  lemma SecondEncodingExactly(a: Bytes)
    requires Parse(a).Ok?
    ensures MapField(HelperParse(a).value, 6).Some?
    ensures (exists b :: b != a && Parse(b) == Parse(a))
       <==> Parse(a).value.createdUtc < 0 && |Raw(OtherForm(HelperParse(a).value))| <= MAX_MANIFEST_BYTES
    ensures TimeWrapped(a) ==> exists b :: b != a && Parse(b) == Parse(a)
  {
    hide MapField, ParseRoot, HelperParse, Canonical, Plain, Raw, OtherForm;
    var v := HelperParse(a).value;
    HelperExactly(a, v);
    RootTime(v);
    OtherFormParses(v);
    OtherFormCanonical(v);
    var b := Raw(OtherForm(v));
    HelperExactly(b, OtherForm(v));
    if Parse(a).value.createdUtc < 0 && |b| <= MAX_MANIFEST_BYTES {
      assert Parse(b) == Parse(a);
    }
    if exists b' :: b' != a && Parse(b') == Parse(a) {
      var b' :| b' != a && Parse(b') == Parse(a);
      OnlyOtherForm(a, b');
    }
  }
}
