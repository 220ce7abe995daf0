/** Reading a message by removing its fields, one after another, from a mutable map. */
module FieldReader {
  import opened ByteStrings
  import opened Vocabulary
  import opened Results
  import opened Cbor
  import opened Fields
  import opened Messages
  import opened Events
  import Utf8

  class Reader {
    var left: FieldMap

    constructor (m: FieldMap)
      ensures left == m
    {
      left := m;
    }

    /** Goes through the keys in ascending order and stops at the first that the message does not have. */
    method RefuseUnknown(known: set<u64>) returns (r: Result<(), SchemaError>)
      ensures r == RejectUnknown(left, known)
    {
      var keys := left.Keys;
      while keys != {}
        invariant keys <= left.Keys
        invariant forall k :: k in left && k !in keys ==> k in known
        invariant forall j, k :: j in left && j !in keys && k in keys ==> j < k
        decreases |keys|
      {
        LeastOfExists(keys);
        var k: u64 :| k in keys && IsLeastOf(k, keys);
        if k !in known {
          FirstUnknown(left, known, k);
          return Err(UnknownField(k));
        }
        keys := keys - {k};
      }
      assert left.Keys <= known;
      return Ok(());
    }

    method Take(k: u64) returns (r: Result<Value, SchemaError>)
      modifies this
      ensures r == Required(old(left), k) && left == old(left) - {k}
    {
      if k !in left {
        return Err(MissingField(k));
      }
      r := Ok(left[k]);
      left := left - {k};
    }

    method TakeUnsigned(k: u64) returns (r: Result<u64, SchemaError>)
      modifies this
      ensures r == RequiredUnsigned(old(left), k) && left == old(left) - {k}
    {
      var v :- Take(k);
      match v {
        case Unsigned(n) => return Ok(n);
        case _ => return Err(WrongType(k));
      }
    }

    method TakeSigned(k: u64) returns (r: Result<i64, SchemaError>)
      modifies this
      ensures r == RequiredSigned(old(left), k) && left == old(left) - {k}
    {
      var v :- Take(k);
      match v {
        case Unsigned(n) =>
          if n > I64_MAX {
            return Err(InvalidField(k));
          }
          return Ok(n);
        case Negative(i) => return Ok(i);
        case _ => return Err(WrongType(k));
      }
    }

    method TakeBounded(k: u64, least: nat, most: nat) returns (r: Result<Bytes, SchemaError>)
      modifies this
      ensures r == RequiredBounded(old(left), k, least, most) && left == old(left) - {k}
    {
      var v :- Take(k);
      match v {
        case ByteString(b) =>
          if !(least <= |b| <= most) {
            return Err(InvalidField(k));
          }
          return Ok(b);
        case _ => return Err(WrongType(k));
      }
    }

    method TakeOptional(k: u64, least: nat, most: nat) returns (r: Result<Option<Bytes>, SchemaError>)
      modifies this
      ensures r == OptionalBounded(old(left), k, least, most) && left == old(left) - {k}
    {
      if k !in left {
        assert left - {k} == left;
        return Ok(None);
      }
      var b :- TakeBounded(k, least, most);
      return Ok(Some(b));
    }

    method TakeVersion() returns (r: Result<(), SchemaError>)
      modifies this
      ensures r == Version(old(left)) && left == old(left) - {1}
    {
      var actual :- TakeUnsigned(1);
      if actual != VERSION {
        return Err(ProtocolMismatch(actual));
      }
      return Ok(());
    }
  }

  lemma FirstUnknown(m: FieldMap, known: set<u64>, k: u64)
    requires k in m && k !in known && forall j :: j in m && j < k ==> j in known
    ensures RejectUnknown(m, known) == Err(UnknownField(k))
  {
    assert k in Unknown(m, known);
  }

  /** What is left once every field up to `n` has been taken. */
  function Above(m: FieldMap, n: u64): (left: FieldMap) {
    map k | k in m && k > n :: m[k]
  }

  lemma AllAboveZero(m: FieldMap)
    requires 0 !in m
    ensures Above(m, 0) == m
  {
  }

  /** The next field reads as it did at first, and taking it leaves what is above it. */
  lemma NextField(m: FieldMap, n: u64)
    requires n < 100
    ensures Above(m, n) - {n + 1} == Above(m, n + 1)
    ensures RequiredUnsigned(Above(m, n), n + 1) == RequiredUnsigned(m, n + 1)
    ensures RequiredSigned(Above(m, n), n + 1) == RequiredSigned(m, n + 1)
  {
  }

  lemma NextBytes(m: FieldMap, n: u64, least: nat, most: nat)
    requires n < 100
    ensures Above(m, n) - {n + 1} == Above(m, n + 1)
    ensures RequiredBounded(Above(m, n), n + 1, least, most) == RequiredBounded(m, n + 1, least, most)
    ensures OptionalBounded(Above(m, n), n + 1, least, most) == OptionalBounded(m, n + 1, least, most)
  {
  }

  method ReadEvent(v: Value) returns (r: Result<LifecycleEvent, SchemaError>)
    ensures FieldsOf(v).Ok? ==> r == EventFrom(FieldsOf(v).value)
    ensures FieldsOf(v).Err? ==> r == Err(FieldsOf(v).error)
  {
    hide RequiredUnsigned, RequiredSigned, RequiredBounded, OptionalBounded, RejectUnknown, Above, FieldsOf, Version;
    var m :- ReadFields(v);
    var fields := new Reader(m);
    var _ :- fields.RefuseUnknown({1, 2, 3, 4, 5, 6, 7, 8, 9, 10});
    AllAboveZero(m);
    NextField(m, 0);
    var _ :- fields.TakeVersion();
    NextBytes(m, 1, 16, 16);
    var requestId :- fields.TakeBounded(2, 16, 16);
    NextField(m, 2);
    var sequence :- fields.TakeUnsigned(3);
    NextBytes(m, 3, 32, 32);
    var previous :- fields.TakeOptional(4, 32, 32);
    NextBytes(m, 4, 32, 32);
    var requestDigest :- fields.TakeBounded(5, 32, 32);
    NextField(m, 5);
    var brokerEpoch :- fields.TakeUnsigned(6);
    NextField(m, 6);
    var transition :- fields.TakeUnsigned(7);
    NextField(m, 7);
    var occurredUtc :- fields.TakeSigned(8);
    NextField(m, 8);
    var detailCode :- fields.TakeUnsigned(9);
    NextBytes(m, 9, 32, 32);
    var detailDigest :- fields.TakeOptional(10, 32, 32);
    return Ok(LifecycleEvent(requestId, sequence, previous, requestDigest, brokerEpoch, transition, occurredUtc, detailCode, detailDigest));
  }
}
