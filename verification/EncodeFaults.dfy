/** Why a value is not encoded. */
module EncodeFaults {
  import opened ByteStrings
  import opened Results
  import opened Cbor
  import opened CborEncoding
  import opened Sequences
  import Sorting

  type EncodedKey = Sorting.Keyed<Bytes, Result<Bytes, EncodeError>>

  function KeyBytes(k: EncodedKey): (b: Bytes) {
    k.key
  }

  lemma {:induction false} KeysEncode(entries: seq<Entry>)
    requires forall i :: 0 <= i < |entries| ==> Encode(entries[i].key).Ok?
    ensures EncodeKeys(entries).Ok? && |EncodeKeys(entries).value| == |entries|
    ensures forall i :: 0 <= i < |entries| ==> EncodeKeys(entries).value[i].key == Encode(entries[i].key).value
  {
    hide Encode, EncodeInto;
    if entries != [] {
      KeysEncode(entries[1..]);
      var k, ks := EncodeEntry(entries[0]).value, EncodeKeys(entries[1..]).value;
      assert EncodeKeys(entries) == Ok([k] + ks);
      assert forall i :: 1 <= i < |entries| ==> entries[1..][i - 1] == entries[i];
    }
  }

  /** Keys that repeat stand side by side once sorted. */
  lemma RepeatsMeet(keyed: seq<EncodedKey>, i: nat, j: nat)
    requires i < j < |keyed| && keyed[i].key == keyed[j].key
    ensures Sorting.HasEqualNeighbours(Sorting.Sort(keyed, LengthFirstLt))
  {
    hide Mapped, Sorting.Sort, Sorting.Ascending, LengthFirstLt, Sorting.HasEqualNeighbours;
    var s := Sorting.Sort(keyed, LengthFirstLt);
    assert Mapped(KeyBytes, keyed)[i] == Mapped(KeyBytes, keyed)[j];
    if !Sorting.HasEqualNeighbours(s) {
      KeyOrderIsTotal();
      Sorting.SortAscends(keyed, LengthFirstLt);
      Sorting.DistinctNeighboursAscendStrictly(s, LengthFirstLt);
      assert Distinct(Mapped(KeyBytes, s));
      MapKeepsPermutation(KeyBytes, s, keyed);
      DistinctCarriesOver(Mapped(KeyBytes, s), Mapped(KeyBytes, keyed));
    }
  }

  /** A map in which two keys are encoded alike is refused for that, whatever its values are. */
  lemma DuplicateKeysRefused(entries: seq<Entry>, i: nat, j: nat)
    requires forall i :: 0 <= i < |entries| ==> Encode(entries[i].key).Ok?
    requires i < j < |entries| && Normal(entries[i].key) == Normal(entries[j].key)
    ensures Encode(Value.Map(entries)) == Err(DuplicateMapKey)
  {
    hide EncodeKeys, Normal, Sorting.Sort, Sorting.HasEqualNeighbours, Joined, Head, LengthFirstLt;
    KeysEncode(entries);
    EqualBytesIffSameNormalForm(entries[i].key, entries[j].key);
    RepeatsMeet(EncodeKeys(entries).value, i, j);
  }

  /** What is written down is refused exactly as it would be refused by whoever reads it. */
  lemma ProfileRefused(v: Value)
    requires EncodeInto(v).Ok?
    ensures match Decode(Raw(Normal(v)))
      case Ok(w) => Encode(v) == Ok(Raw(Normal(v))) && w == Normal(v)
      case Err(e) => Encode(v) == Err(Profile(e))
  {
    hide EncodeInto, Raw, Normal, Decode;
    EncodeIntoIsRaw(v);
    if Decode(Raw(Normal(v))).Ok? {
      EncodeExactly(v, Raw(Normal(v)));
    }
  }
}
