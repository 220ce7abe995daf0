/** Why the helper refuses a well-formed root as a plan manifest, told from its entries. */
module ManifestFaults {
  import opened ByteStrings
  import opened Vocabulary
  import opened Results
  import opened Cbor
  import opened HelperCbor
  import opened PlanManifest
  import opened ManifestForm
  import A = ActionGraph

  // ----- sealed inputs

  /** The items so far are the written forms of `inputs`, which ascend. */
  ghost predicate Listed(items: seq<Value>, inputs: seq<SealedInput>) {
    && |inputs| <= |items|
    && (forall j :: 0 <= j < |inputs| ==> WritableInput(inputs[j]) && items[j] == InputValue(inputs[j]))
    && forall i, j :: 0 <= i < j < |inputs| ==> LexLt(inputs[i].digest, inputs[j].digest)
  }

  ghost predicate IsInput(v: Value, x: SealedInput) {
    WritableInput(x) && v == InputValue(x)
  }

  /** The item after `inputs` is no input, or repeats the digest before it, or comes before it in order. */
  ghost predicate FaultyAfter(items: seq<Value>, inputs: seq<SealedInput>, e: ManifestError) {
    && |inputs| < |items| && Listed(items, inputs)
    && (|| (e == InvalidField && forall x :: !IsInput(items[|inputs|], x))
        || exists x :: IsInput(items[|inputs|], x) && inputs != []
             && ((e == DuplicateInput && x.digest == inputs[|inputs| - 1].digest)
                 || (e == InputOrderInvalid && LexLt(x.digest, inputs[|inputs| - 1].digest))))
  }

  lemma InputExactly(v: Value, x: SealedInput)
    requires Canonical(v, 2, HELPER_LIMITS)
    ensures ParseInput(v) == Some(x) <==> IsInput(v, x)
  {
    hide Canonical, ParseInput, InputValue;
    if ParseInput(v) == Some(x) {
      ParsedIsWritable(v);
      InputParses(x);
      InputCanonical(x);
      TextLimitIsTheDifference(InputValue(x), 2);
      InputEqual(v, InputValue(x), 2);
    }
    if IsInput(v, x) {
      InputParses(x);
    }
  }

  lemma ParsedIsWritable(v: Value)
    ensures ParseInput(v).Some? ==> WritableInput(ParseInput(v).value)
  {
    hide MapField, HasFields;
  }

  lemma {:induction false} ListedExactly(items: seq<Value>, inputs: seq<SealedInput>)
    requires forall i :: 0 <= i < |items| ==> Canonical(items[i], 2, HELPER_LIMITS)
    ensures ParseInputs(items) == Ok(inputs) <==> |inputs| == |items| && Listed(items, inputs)
  {
    hide Canonical, ParseInput, ParseInputs, InputValue, LexLt;
    if ParseInputs(items) == Ok(inputs) {
      InputsAccepted(items);
      InputsAscend(items);
      forall j | 0 <= j < |items| ensures items[j] == InputValue(inputs[j]) {
        ParsedAt(items, j);
        InputExactly(items[j], inputs[j]);
      }
    }
    if |inputs| == |items| && Listed(items, inputs) {
      InputsParse(inputs);
      assert InputValues(inputs) == items;
    }
  }

  lemma {:induction false} ParsedAt(items: seq<Value>, j: nat)
    requires ParseInputs(items).Ok? && j < |items|
    ensures ParseInput(items[j]) == Some(ParseInputs(items).value[j])
  {
    hide ParseInput, LexLt;
    if j < |items| - 1 {
      ParsedAt(items[..|items| - 1], j);
    }
  }

  lemma {:induction false} InputsFault(items: seq<Value>, e: ManifestError)
    requires (forall i :: 0 <= i < |items| ==> Canonical(items[i], 2, HELPER_LIMITS)) && ParseInputs(items) == Err(e)
    ensures exists inputs :: FaultyAfter(items, inputs, e)
  {
    hide Canonical, ParseInput, InputValue, LexLt;
    var n := |items| - 1;
    if ParseInputs(items[..n]).Err? {
      InputsFault(items[..n], e);
      var inputs :| FaultyAfter(items[..n], inputs, e);
      assert FaultyAfter(items, inputs, e);
    } else {
      var inputs := ParseInputs(items[..n]).value;
      ListedExactly(items[..n], inputs);
      forall x ensures ParseInput(items[n]) == Some(x) <==> IsInput(items[n], x) {
        InputExactly(items[n], x);
      }
      if ParseInput(items[n]).Some? && inputs != [] {
        LexTrichotomy(inputs[n - 1].digest, ParseInput(items[n]).value.digest);
      }
      assert FaultyAfter(items, inputs, e);
    }
  }

  lemma {:induction false} FaultRefuses(items: seq<Value>, inputs: seq<SealedInput>, e: ManifestError)
    requires (forall i :: 0 <= i < |items| ==> Canonical(items[i], 2, HELPER_LIMITS)) && FaultyAfter(items, inputs, e)
    ensures ParseInputs(items) == Err(e)
  {
    hide Canonical, ParseInput, InputValue, LexLt;
    var n := |items| - 1;
    if |inputs| < n {
      assert items[..n][|inputs|] == items[|inputs|];
      FaultRefuses(items[..n], inputs, e);
    } else {
      ListedExactly(items[..n], inputs);
      forall x ensures ParseInput(items[n]) == Some(x) <==> IsInput(items[n], x) {
        InputExactly(items[n], x);
      }
      if ParseInput(items[n]).Some? && inputs != [] {
        LexTrichotomy(inputs[n - 1].digest, ParseInput(items[n]).value.digest);
      }
    }
  }

  /** The sealed inputs are refused exactly for the first item that is not the next input. */
  lemma InputsRefused(items: seq<Value>, e: ManifestError)
    requires forall i :: 0 <= i < |items| ==> Canonical(items[i], 2, HELPER_LIMITS)
    ensures ParseInputs(items) == Err(e) <==> exists inputs :: FaultyAfter(items, inputs, e)
  {
    hide Canonical, FaultyAfter, ParseInputs;
    if ParseInputs(items) == Err(e) {
      InputsFault(items, e);
    }
    if inputs :| FaultyAfter(items, inputs, e) {
      FaultRefuses(items, inputs, e);
    }
  }

  // ----- the root

  predicate IsDigest(v: Value) {
    v.ByteString? && |v.bytes| == 32
  }

  /** The fields besides the actions, as far as each can be told by itself. */
  predicate RootShape(parts: seq<Value>)
    requires |parts| == 8
  {
    && IsDigest(parts[1]) && IsDigest(parts[4]) && IsDigest(parts[7])
    && (parts[5].Unsigned? || parts[5].Negative?) && parts[6].TextString? && 1 <= |parts[6].utf8| <= 128
    && parts[2].Array? && |parts[2].items| <= MAX_INPUTS
  }

  function Parts(v: Value): (parts: seq<Value>)
    requires v.Map?
    ensures |parts| == |v.entries| && forall i :: 0 <= i < |parts| ==> parts[i] == v.entries[i].value
  {
    seq(|v.entries|, i requires 0 <= i < |v.entries| => v.entries[i].value)
  }

  predicate InTurn(v: Value)
    requires v.Map?
  {
    forall i :: 0 <= i < |v.entries| ==> v.entries[i].key.Unsigned? && v.entries[i].key.n == i + 1
  }

  /**
   * Why a well-formed root is refused: its kind, the number of its fields, their keys, the version, what each field is,
   * the first sealed input that is not the next one, and last the actions.
   */
  lemma RootRefusals(v: Value)
    requires Canonical(v, 0, HELPER_LIMITS)
    ensures var r := ParseRoot(v);
      if !v.Map? then r == Err(MalformedCbor)
      else if |v.entries| != 8 then r == Err(if |v.entries| > 8 then UnknownField else MissingField)
      else if !InTurn(v) then r == Err(UnknownField)
      else if Parts(v)[0] != Unsigned(1) then r == Err(UnsupportedVersion)
      else if !RootShape(Parts(v)) then r == Err(InvalidField)
      else if exists inputs, e :: FaultyAfter(Parts(v)[2].items, inputs, e) then exists inputs :: r.Err? && FaultyAfter(Parts(v)[2].items, inputs, r.error)
      else r.Ok? || r == Err(ActionGraphInvalid)
  {
    hide Canonical, FindKey, ParseInputs, ParseGraph, FaultyAfter;
    if v.Map? && |v.entries| == 8 {
      if HasFields(v, 8) {
        FieldsInTurn(v, 0, 8);
        if Parts(v)[2].Array? {
          RootElements(v, 2);
          var items := Parts(v)[2].items;
          forall inputs, e | FaultyAfter(items, inputs, e) ensures ParseInputs(items) == Err(e) {
            InputsRefused(items, e);
          }
          if ParseInputs(items).Err? {
            InputsRefused(items, ParseInputs(items).error);
          }
        }
      } else {
        assert !InTurn(v) by {
          if InTurn(v) {
            TurnHasFields(v);
          }
        }
      }
    }
  }

  lemma TurnHasFields(v: Value)
    requires v.Map? && |v.entries| == 8 && InTurn(v)
    ensures HasFields(v, 8)
  {
    forall k: u64 | 1 <= k <= 8 ensures FindKey(v.entries, k).Some? {
      Finds(v.entries, k - 1);
    }
  }

  lemma {:induction false} Finds(entries: seq<Entry>, i: nat)
    requires i < |entries| && entries[i].key.Unsigned?
    ensures FindKey(entries, entries[i].key.n).Some?
  {
    if i > 0 {
      Finds(entries[1..], i - 1);
    }
  }
}
