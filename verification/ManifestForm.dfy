/** The one way to write a plan manifest, and that the helper accepts exactly what is written so. */
module ManifestForm {
  import opened ByteStrings
  import opened Vocabulary
  import opened Results
  import opened Cbor
  import opened HelperCbor
  import opened PlanManifest
  import A = ActionGraph
  import F = Fields
  import Utf8

  // ----- the form

  predicate IsText(b: Bytes, least: nat, most: nat) {
    least <= |b| <= most && Utf8.WellFormed(b)
  }

  predicate WritableAction(a: A.PackageAction) {
    && SchemaName(a.name) && IsText(a.name, 1, 255) && IsText(a.architecture, 1, 64) && IsText(a.installedVersion, 0, 256)
    && IsText(a.targetVersion, 1, 256) && IsText(a.origin, 1, 512)
    && a.kind == 1 && |a.debDigest| == 32
    && |a.parents| <= A.MAX_GRAPH_ACTIONS && forall i :: 0 <= i < |a.parents| ==> a.parents[i] <= 0xffff_ffff
  }

  function Numbers(ns: seq<nat>): (items: seq<Value>)
    requires forall i :: 0 <= i < |ns| ==> ns[i] <= 0xffff_ffff
    ensures |items| == |ns| && forall i :: 0 <= i < |ns| ==> items[i] == Unsigned(ns[i])
  {
    seq(|ns|, i requires 0 <= i < |ns| => Unsigned(ns[i]))
  }

  /** An action: name, architecture, installed and target version, kind, origin, digest, parents, archive size and installed size. */
  function ActionParts(a: A.PackageAction): (parts: seq<Value>)
    requires WritableAction(a)
    ensures |parts| == 10
  {
    [TextString(a.name), TextString(a.architecture), TextString(a.installedVersion), TextString(a.targetVersion), Unsigned(1),
     TextString(a.origin), ByteString(a.debDigest), Array(Numbers(a.parents)), Unsigned(a.archiveBytes), Unsigned(a.installedDeltaBytes)]
  }

  function ActionValue(a: A.PackageAction): (v: Value)
    requires WritableAction(a)
  {
    Value.Map(F.Consecutive(1, ActionParts(a)))
  }

  predicate WritableInput(i: SealedInput) {
    |i.digest| == 32 && i.role != 0
  }

  function InputValue(i: SealedInput): (v: Value) {
    Value.Map(F.Consecutive(1, [ByteString(i.digest), Unsigned(i.role)]))
  }

  predicate Writable(m: Manifest) {
    && |m.planDigest| == 32 && |m.policyDigest| == 32 && |m.prestate| == 32 && IsText(m.toolchain, 1, 128)
    && |m.inputs| <= MAX_INPUTS && (forall i :: 0 <= i < |m.inputs| ==> WritableInput(m.inputs[i]))
    && (forall i, j :: 0 <= i < j < |m.inputs| ==> LexLt(m.inputs[i].digest, m.inputs[j].digest))
    && |m.graph| <= A.MAX_GRAPH_ACTIONS && (forall i :: 0 <= i < |m.graph| ==> WritableAction(m.graph[i]))
    && A.Normalized(m.graph) == Some(m.graph)
  }

  function InputValues(inputs: seq<SealedInput>): (items: seq<Value>)
    ensures |items| == |inputs| && forall i :: 0 <= i < |inputs| ==> items[i] == InputValue(inputs[i])
  {
    seq(|inputs|, i requires 0 <= i < |inputs| => InputValue(inputs[i]))
  }

  function ActionValues(g: A.Graph): (items: seq<Value>)
    requires forall i :: 0 <= i < |g| ==> WritableAction(g[i])
    ensures |items| == |g| && forall i :: 0 <= i < |g| ==> items[i] == ActionValue(g[i])
  {
    seq(|g|, i requires 0 <= i < |g| => ActionValue(g[i]))
  }

  /** What a time field may hold for a creation time: the number itself, or for a negative one the unsigned number that wraps to it. */
  predicate TimeMeans(time: Value, created: i64) {
    if created >= 0 then time == Unsigned(created) else time == Negative(created) || time == Unsigned(created + U64_LIMIT)
  }

  function RootParts(m: Manifest, time: Value): (parts: seq<Value>)
    requires Writable(m)
    ensures |parts| == 8
  {
    [Unsigned(1), ByteString(m.planDigest), Array(InputValues(m.inputs)), Array(ActionValues(m.graph)), ByteString(m.policyDigest),
     time, TextString(m.toolchain), ByteString(m.prestate)]
  }

  function RootValue(m: Manifest, time: Value): (v: Value)
    requires Writable(m)
  {
    Value.Map(F.Consecutive(1, RootParts(m, time)))
  }

  // ----- looking fields up

  lemma {:induction false} FoundAt(first: u64, parts: seq<Value>, k: u64)
    requires first + |parts| < U64_LIMIT
    ensures FindKey(F.Consecutive(first, parts), k) == if first <= k < first + |parts| then Some(k - first) else None
    decreases |parts|
  {
    hide F.Consecutive;
    if parts != [] {
      var entries := F.Consecutive(first, parts);
      assert entries[1..] == F.Consecutive(first + 1, parts[1..]);
      FoundAt(first + 1, parts[1..], k);
      assert entries[0] == F.Field(first, parts[0]);
    }
  }

  lemma FieldIs(parts: seq<Value>, k: u64)
    requires |parts| < 100
    ensures MapField(Value.Map(F.Consecutive(1, parts)), k) == if 1 <= k <= |parts| then Some(parts[k - 1]) else None
  {
    hide F.Consecutive, FindKey;
    FoundAt(1, parts, k);
  }

  lemma HasParts(parts: seq<Value>)
    requires |parts| < 100
    ensures HasFields(Value.Map(F.Consecutive(1, parts)), |parts|)
  {
    hide F.Consecutive, FindKey;
    forall k: u64 | 1 <= k <= |parts| ensures FindKey(F.Consecutive(1, parts), k).Some? {
      FoundAt(1, parts, k);
    }
  }

  // ----- what is written parses

  lemma {:induction false} NumbersParse(ns: seq<nat>)
    requires forall i :: 0 <= i < |ns| ==> ns[i] <= 0xffff_ffff
    ensures Parents(Numbers(ns)) == Some(ns)
  {
    if ns != [] {
      var n := |ns| - 1;
      NumbersParse(ns[..n]);
      assert Numbers(ns)[..n] == Numbers(ns[..n]);
      assert ns[..n] + [ns[n]] == ns;
    }
  }

  lemma ActionParses(a: A.PackageAction)
    requires WritableAction(a)
    ensures ParseAction(ActionValue(a)) == Some(a)
  {
    hide MapField, HasFields, F.Consecutive, Parents, SchemaName, Utf8.WellFormed, Numbers;
    var parts := ActionParts(a);
    HasParts(parts);
    forall k: u64 ensures MapField(ActionValue(a), k) == if 1 <= k <= 10 then Some(parts[k - 1]) else None {
      FieldIs(parts, k);
    }
    NumbersParse(a.parents);
  }

  lemma {:induction false} ActionsParse(g: A.Graph)
    requires forall i :: 0 <= i < |g| ==> WritableAction(g[i])
    ensures ParseActions(ActionValues(g)) == Some(g)
  {
    hide WritableAction, ActionValue, ParseAction;
    if g != [] {
      var n := |g| - 1;
      ActionsParse(g[..n]);
      ActionParses(g[n]);
      assert ActionValues(g)[..n] == ActionValues(g[..n]);
      assert g[..n] + [g[n]] == g;
    }
  }

  lemma InputParses(i: SealedInput)
    requires WritableInput(i)
    ensures ParseInput(InputValue(i)) == Some(i)
  {
    hide MapField, HasFields, F.Consecutive;
    var parts := [ByteString(i.digest), Unsigned(i.role)];
    HasParts(parts);
    FieldIs(parts, 1);
    FieldIs(parts, 2);
  }

  lemma {:induction false} InputsParse(inputs: seq<SealedInput>)
    requires forall i :: 0 <= i < |inputs| ==> WritableInput(inputs[i])
    requires forall i, j :: 0 <= i < j < |inputs| ==> LexLt(inputs[i].digest, inputs[j].digest)
    ensures ParseInputs(InputValues(inputs)) == Ok(inputs)
  {
    hide WritableInput, InputValue, ParseInput, LexLt;
    if inputs != [] {
      var n := |inputs| - 1;
      InputsParse(inputs[..n]);
      InputParses(inputs[n]);
      assert InputValues(inputs)[..n] == InputValues(inputs[..n]);
      assert inputs[..n] + [inputs[n]] == inputs;
    }
  }

  lemma RootParses(m: Manifest, time: Value)
    requires Writable(m) && TimeMeans(time, m.createdUtc)
    ensures ParseRoot(RootValue(m, time)) == Ok(m) && MapField(RootValue(m, time), 6) == Some(time)
  {
    hide MapField, HasFields, F.Consecutive, ParseInputs, ParseActions, A.Normalized, Utf8.WellFormed, WritableAction, WritableInput, LexLt,
      InputValues, ActionValues;
    var parts := RootParts(m, time);
    var v := RootValue(m, time);
    HasParts(parts);
    forall k: u64 ensures MapField(v, k) == if 1 <= k <= 8 then Some(parts[k - 1]) else None {
      FieldIs(parts, k);
    }
    InputsParse(m.inputs);
    ActionsParse(m.graph);
    RootIsMap(m, time);
  }

  lemma RootIsMap(m: Manifest, time: Value)
    requires Writable(m)
    ensures RootValue(m, time).Map? && |RootValue(m, time).entries| == 8
  {
  }

  // ----- what is written is in normal form

  lemma {:induction false} ItemsCanonical(items: seq<Value>, depth: nat)
    requires forall i :: 0 <= i < |items| ==> Canonical(items[i], depth, DEFAULT_LIMITS) && Plain(items[i])
    ensures CanonicalItems(items, depth, DEFAULT_LIMITS) && PlainItems(items)
  {
    hide Canonical, Plain;
    if items != [] {
      ItemsCanonical(items[1..], depth);
    }
  }

  lemma {:induction false} EntriesPlain(entries: seq<Entry>)
    requires forall i :: 0 <= i < |entries| ==> entries[i].key.Unsigned? && Plain(entries[i].value)
    ensures PlainEntries(entries)
  {
    if entries != [] {
      EntriesPlain(entries[1..]);
    }
  }

  /** A listing of parts that are in normal form and plain is so itself. */
  lemma PartsCanonical(parts: seq<Value>, depth: nat)
    requires |parts| < 100 && depth <= 8
    requires forall i :: 0 <= i < |parts| ==> Canonical(parts[i], depth + 1, DEFAULT_LIMITS) && Plain(parts[i])
    ensures Canonical(Value.Map(F.Consecutive(1, parts)), depth, DEFAULT_LIMITS) && Plain(Value.Map(F.Consecutive(1, parts)))
  {
    hide Canonical, Plain, F.Consecutive;
    F.ConsecutiveCanonical(1, parts, depth);
    var entries := F.Consecutive(1, parts);
    forall i | 0 <= i < |entries| ensures entries[i].key.Unsigned? && Plain(entries[i].value) {
      assert entries[i] == F.Field(1 + i, parts[i]);
    }
    EntriesPlain(entries);
    MapIsPlain(entries);
  }

  lemma MapIsPlain(entries: seq<Entry>)
    requires PlainEntries(entries)
    ensures Plain(Value.Map(entries))
  {
  }

  lemma ArrayCanonicalWhen(items: seq<Value>, depth: nat)
    requires |items| <= 16_384 && depth <= 8 && CanonicalItems(items, depth + 1, DEFAULT_LIMITS) && PlainItems(items)
    ensures Canonical(Array(items), depth, DEFAULT_LIMITS) && Plain(Array(items))
  {
  }

  lemma ScalarCanonical(v: Value, depth: nat)
    requires depth <= 10
    requires v.Unsigned? || (v.Negative? && v.i < 0) || (v.ByteString? && |v.bytes| <= 65_536) || (v.TextString? && |v.utf8| <= 16_384)
    ensures Canonical(v, depth, DEFAULT_LIMITS) && Plain(v)
  {
  }

  lemma ActionCanonical(a: A.PackageAction)
    requires WritableAction(a)
    ensures Canonical(ActionValue(a), 2, DEFAULT_LIMITS) && Plain(ActionValue(a))
  {
    hide Canonical, Plain, F.Consecutive, Utf8.WellFormed, SchemaName;
    var parts := ActionParts(a);
    forall i | 0 <= i < |a.parents| ensures Canonical(Numbers(a.parents)[i], 4, DEFAULT_LIMITS) && Plain(Numbers(a.parents)[i]) {
      ScalarCanonical(Numbers(a.parents)[i], 4);
    }
    ItemsCanonical(Numbers(a.parents), 4);
    ArrayCanonicalWhen(Numbers(a.parents), 3);
    forall i | 0 <= i < 10 ensures Canonical(parts[i], 3, DEFAULT_LIMITS) && Plain(parts[i]) {
      if i != 7 {
        ScalarCanonical(parts[i], 3);
      }
    }
    PartsCanonical(parts, 2);
  }

  lemma InputCanonical(i: SealedInput)
    requires WritableInput(i)
    ensures Canonical(InputValue(i), 2, DEFAULT_LIMITS) && Plain(InputValue(i))
  {
    hide Canonical, Plain, F.Consecutive;
    ScalarCanonical(ByteString(i.digest), 3);
    ScalarCanonical(Unsigned(i.role), 3);
    PartsCanonical([ByteString(i.digest), Unsigned(i.role)], 2);
  }

  lemma RootCanonical(m: Manifest, time: Value)
    requires Writable(m) && TimeMeans(time, m.createdUtc)
    ensures Canonical(RootValue(m, time), 0, DEFAULT_LIMITS) && Plain(RootValue(m, time))
  {
    hide Canonical, Plain, F.Consecutive, Utf8.WellFormed, WritableAction, WritableInput, ActionValue, InputValue, A.Normalized, LexLt;
    var parts := RootParts(m, time);
    forall i | 0 <= i < |m.inputs| ensures Canonical(InputValues(m.inputs)[i], 2, DEFAULT_LIMITS) && Plain(InputValues(m.inputs)[i]) {
      InputCanonical(m.inputs[i]);
    }
    ItemsCanonical(InputValues(m.inputs), 2);
    ArrayCanonicalWhen(InputValues(m.inputs), 1);
    forall i | 0 <= i < |m.graph| ensures Canonical(ActionValues(m.graph)[i], 2, DEFAULT_LIMITS) && Plain(ActionValues(m.graph)[i]) {
      ActionCanonical(m.graph[i]);
    }
    ItemsCanonical(ActionValues(m.graph), 2);
    ArrayCanonicalWhen(ActionValues(m.graph), 1);
    forall i | 0 <= i < 8 ensures Canonical(parts[i], 1, DEFAULT_LIMITS) && Plain(parts[i]) {
      if i != 2 && i != 3 {
        ScalarCanonical(parts[i], 1);
      }
    }
    PartsCanonical(parts, 0);
  }

  // ----- what parses can be written

  lemma NumbersAccepted(items: seq<Value>)
    requires Parents(items).Some?
    ensures forall i :: 0 <= i < |items| ==> Parents(items).value[i] <= 0xffff_ffff
  {
    if items != [] {
      NumbersAccepted(items[..|items| - 1]);
    }
  }

  lemma ActionAccepted(v: Value)
    requires ParseAction(v).Some?
    ensures WritableAction(ParseAction(v).value)
  {
    hide MapField, HasFields, Parents, SchemaName, Utf8.WellFormed;
    TextAccepted(v, 1, 255, false);
    TextAccepted(v, 2, 64, false);
    TextAccepted(v, 3, 256, true);
    TextAccepted(v, 4, 256, false);
    TextAccepted(v, 6, 512, false);
    NumbersAccepted(MapField(v, 8).value.items);
  }

  lemma TextAccepted(v: Value, k: u64, most: nat, mayBeEmpty: bool)
    requires TextIn(v, k, most, mayBeEmpty).Some?
    ensures IsText(TextIn(v, k, most, mayBeEmpty).value, if mayBeEmpty then 0 else 1, most)
  {
    hide MapField, Utf8.WellFormed;
  }

  lemma {:induction false} ActionsAccepted(items: seq<Value>)
    requires ParseActions(items).Some?
    ensures forall i :: 0 <= i < |items| ==> WritableAction(ParseActions(items).value[i])
  {
    hide ParseAction, WritableAction;
    if items != [] {
      ActionsAccepted(items[..|items| - 1]);
      ActionAccepted(items[|items| - 1]);
    }
  }

  lemma {:induction false} InputsAccepted(items: seq<Value>)
    requires ParseInputs(items).Ok?
    ensures forall i :: 0 <= i < |items| ==> WritableInput(ParseInputs(items).value[i])
  {
    hide LexLt, MapField, HasFields;
    if items != [] {
      InputsAccepted(items[..|items| - 1]);
    }
  }

  lemma RootAccepted(v: Value)
    requires ParseRoot(v).Ok?
    ensures Writable(ParseRoot(v).value)
  {
    hide MapField, HasFields, ParseInputs, ParseActions, A.Normalized, WritableAction, WritableInput, LexLt, Utf8.WellFormed;
    var inputs, graph := MapField(v, 3).value.items, MapField(v, 4).value.items;
    RootArrays(v);
    TextAccepted(v, 7, 128, false);
    InputsAccepted(inputs);
    InputsAscend(inputs);
    ActionsAccepted(graph);
  }

  /**
   * The helper accepts some bytes as a manifest exactly when the manifest can be written and the bytes are how it is
   * written, with its time in either form that means it, within the size limit.
   */
  lemma ParsesExactly(b: Bytes, m: Manifest)
    ensures Parse(b) == Ok(m)
       <==> Writable(m) && |b| <= MAX_MANIFEST_BYTES && exists time :: TimeMeans(time, m.createdUtc) && b == Raw(RootValue(m, time))
  {
    hide ParseRoot, HelperParse, Canonical, Plain, Raw, Writable, RootValue, MapField;
    if Parse(b) == Ok(m) {
      var v := HelperParse(b).value;
      HelperExactly(b, v);
      RootAccepted(v);
      RootTime(v);
      var time := MapField(v, 6).value;
      assert TimeMeans(time, m.createdUtc);
      RootParses(m, time);
      RootCanonical(m, time);
      TextLimitIsTheDifference(RootValue(m, time), 0);
      RootsEqual(v, RootValue(m, time));
    }
    if Writable(m) && |b| <= MAX_MANIFEST_BYTES && exists time :: TimeMeans(time, m.createdUtc) && b == Raw(RootValue(m, time)) {
      var time :| TimeMeans(time, m.createdUtc) && b == Raw(RootValue(m, time));
      RootParses(m, time);
      RootCanonical(m, time);
      TextLimitIsTheDifference(RootValue(m, time), 0);
      HelperExactly(b, RootValue(m, time));
    }
  }
}
