/** Writing the spool to a growing buffer, and reading it back with a moving cursor. */
module SpoolReader {
  import opened ByteStrings
  import opened Results
  import opened SpoolCodec

  method EncodeEntry(e: SpoolEntry) returns (bytes: Bytes)
    ensures bytes == EntryBytes(e)
  {
    bytes := e.envelope.id;
    bytes := bytes + [DirectionCode(e.envelope.direction)];
    bytes := bytes + [KindCode(e.envelope.kind)];
    bytes := bytes + e.envelope.key;
    bytes := bytes + BigEndian(e.attempts, 4);
    bytes := bytes + BigEndian(e.nextAttempt, 8);
    bytes := bytes + BigEndian(|e.envelope.payload|, 4);
    bytes := bytes + e.envelope.payload;
  }

  lemma FirstInOrder(s: Spool)
    requires s != map[]
    ensures var id := Least(s.Keys); |s - {id}| < |s| && InOrder(s) == [s[id]] + InOrder(s - {id})
  {
    hide Least;
    assert (s - {Least(s.Keys)}).Keys == s.Keys - {Least(s.Keys)};
  }

  lemma FirstBytes(e: SpoolEntry, l: seq<SpoolEntry>)
    ensures EntriesBytes([e] + l) == EntryBytes(e) + EntriesBytes(l)
  {
    hide EntryBytes;
    assert ([e] + l)[1..] == l;
  }

  lemma NothingLeft()
    ensures EntriesBytes(InOrder(map[])) == []
  {
  }

  method EncodeSpool(s: Spool) returns (bytes: Bytes)
    requires WellFormed(s)
    ensures bytes == Encode(s)
  {
    hide EntryBytes, WellFormed, ValidEnvelope, Least, BigEndian, InOrder, EntriesBytes;
    bytes := MAGIC + BigEndian(|s|, 4);
    var left := s;
    NothingLeft();
    while left != map[]
      invariant bytes + EntriesBytes(InOrder(left)) == Encode(s)
      decreases |left|
    {
      var id := Least(left.Keys);
      var entry := EncodeEntry(left[id]);
      FirstInOrder(left);
      FirstBytes(left[id], InOrder(left - {id}));
      bytes := bytes + entry;
      left := left - {id};
    }
  }

  class Reader {
    const input: Bytes
    var position: nat

    ghost predicate Valid()
      reads this
    {
      position <= |input|
    }

    function Left(): (b: Bytes)
      requires Valid()
      reads this
    {
      input[position..]
    }

    constructor (input: Bytes)
      ensures Valid() && this.input == input && position == 0
    {
      this.input := input;
      position := 0;
    }

    method ReadExact(n: nat) returns (r: Option<Bytes>)
      requires Valid()
      modifies this
      ensures Valid() && (r.Some? <==> n <= |old(Left())|)
      ensures r.Some? ==> position == old(position) + n && r.value == input[old(position)..position] && |r.value| == n
    {
      if |input| - position < n {
        position := |input|;
        return None;
      }
      r := Some(input[position..position + n]);
      position := position + n;
    }

    method ReadEntry() returns (r: Option<SpoolEntry>)
      requires Valid()
      modifies this
      ensures Valid()
      ensures r.Some? <==> TakeEntry(old(Left())).Some?
      ensures r.Some? ==> TakeEntry(old(Left())).value == (r.value, Left())
    {
      hide TakeEntry, FromBigEndian, DecodeKind, DecodeDirection, PermittedIn;
      ghost var b := Left();
      ghost var start := position;
      TakeEntryUnfolds(b);
      var id := ReadExact(16);
      if id.None? { return None; }
      var direction := ReadExact(1);
      if direction.None? || DecodeDirection(direction.value[0]).None? { return None; }
      var kind := ReadExact(1);
      if kind.None? || DecodeKind(kind.value[0]).None? { return None; }
      var key := ReadExact(32);
      if key.None? { return None; }
      var attempts := ReadExact(4);
      if attempts.None? { return None; }
      var next := ReadExact(8);
      if next.None? { return None; }
      var size := ReadExact(4);
      if size.None? { return None; }
      assert direction.value[0] == b[16] && kind.value[0] == b[17];
      assert size.value == b[62..66];
      if FromBigEndian(size.value) > MAX_PAYLOAD { return None; }
      var payload := ReadExact(FromBigEndian(size.value));
      if payload.None? { return None; }
      assert |b| - FIXED >= FromBigEndian(b[62..66]);
      Numbers(attempts.value, next.value);
      var envelope := Envelope(id.value, DecodeDirection(direction.value[0]).value, DecodeKind(kind.value[0]).value, key.value, payload.value);
      if !PermittedIn(envelope.kind, envelope.direction) || |envelope.payload| > MAX_PAYLOAD { return None; }
      Slices(b, input, start, FromBigEndian(size.value));
      return Some(SpoolEntry(envelope, FromBigEndian(attempts.value), FromBigEndian(next.value)));
    }
  }

  lemma Slices(b: Bytes, input: Bytes, start: nat, n: nat)
    requires start <= |input| && b == input[start..] && |b| >= FIXED + n
    ensures input[start..start + 16] == b[..16] && input[start + 18..start + 50] == b[18..50]
    ensures input[start + 50..start + 54] == b[50..54] && input[start + 54..start + 62] == b[54..62]
    ensures input[start + 66..start + 66 + n] == b[66..66 + n] && input[start + 66 + n..] == b[66 + n..]
  {
  }

  lemma TakeEntryUnfolds(b: Bytes)
    ensures TakeEntry(b).Some? <==>
      && |b| >= FIXED && DecodeDirection(b[16]).Some? && DecodeKind(b[17]).Some? && FromBigEndian(b[62..66]) <= MAX_PAYLOAD
      && |b| - FIXED >= FromBigEndian(b[62..66]) && PermittedIn(DecodeKind(b[17]).value, DecodeDirection(b[16]).value)
    ensures TakeEntry(b).Some? ==> var n := FromBigEndian(b[62..66]);
      TakeEntry(b).value == (SpoolEntry(Envelope(b[..16], DecodeDirection(b[16]).value, DecodeKind(b[17]).value, b[18..50], b[66..66 + n]),
                                        FromBigEndian(b[50..54]), FromBigEndian(b[54..62])), b[66 + n..])
  {
    hide FromBigEndian, DecodeKind, DecodeDirection, PermittedIn;
  }

  /** The entries read so far, and what the rest of the input still yields. */
  ghost predicate ReadSoFar(all: Bytes, count: nat, l: seq<SpoolEntry>, left: Bytes) {
    && |l| <= count
    && var rest := TakeEntries(left, count - |l|);
       TakeEntries(all, count) == if rest.Some? then Some((l + rest.value.0, rest.value.1)) else None
  }

  lemma ReadOneMore(all: Bytes, count: nat, l: seq<SpoolEntry>, left: Bytes)
    requires ReadSoFar(all, count, l, left) && |l| < count
    ensures TakeEntry(left).None? ==> TakeEntries(all, count).None?
    ensures TakeEntry(left).Some? ==> ReadSoFar(all, count, l + [TakeEntry(left).value.0], TakeEntry(left).value.1)
  {
    hide TakeEntry;
    if TakeEntry(left).Some? {
      var (e, more) := TakeEntry(left).value;
      var rest := TakeEntries(more, count - |l| - 1);
      if rest.Some? {
        assert l + ([e] + rest.value.0) == (l + [e]) + rest.value.0;
      }
    }
  }

  lemma RepeatRejects(bytes: Bytes, l: seq<SpoolEntry>, left: Bytes)
    requires |bytes| >= 12 && ReadSoFar(bytes[12..], FromBigEndian(bytes[8..12]), l, left) && !DistinctIds(l)
    ensures DecodeList(bytes).None?
  {
    hide TakeEntries, FromBigEndian;
    var r := TakeEntries(bytes[12..], FromBigEndian(bytes[8..12]));
    if r.Some? {
      var i, j :| 0 <= i < j < |l| && l[i].envelope.id == l[j].envelope.id;
      assert r.value.0[i] == l[i] && r.value.0[j] == l[j];
    }
  }

  lemma MapHasIds(l: seq<SpoolEntry>, e: SpoolEntry)
    requires DistinctIds(l)
    ensures e.envelope.id in MapOf(l) <==> !DistinctIds(l + [e])
    ensures MapOf(l + [e]) == MapOf(l)[e.envelope.id := e]
  {
    hide DistinctIds;
    MapOfList(l);
    assert (l + [e])[..|l|] == l;
    IdRepeats(l, e);
  }

  lemma IdRepeats(l: seq<SpoolEntry>, e: SpoolEntry)
    requires DistinctIds(l)
    ensures !DistinctIds(l + [e]) <==> exists i :: 0 <= i < |l| && l[i].envelope.id == e.envelope.id
  {
    var m := l + [e];
    assert forall i :: 0 <= i < |l| ==> m[i] == l[i];
    if exists i :: 0 <= i < |l| && l[i].envelope.id == e.envelope.id {
      var i :| 0 <= i < |l| && l[i].envelope.id == e.envelope.id;
      assert m[i].envelope.id == m[|l|].envelope.id;
    }
  }

  method DecodeSpool(bytes: Bytes) returns (r: Option<Spool>)
    ensures r == Decode(bytes)
  {
    hide MapOf, TakeEntry, TakeEntries, ReadSoFar, DistinctIds, FromBigEndian;
    var input := new Reader(bytes);
    var magic := input.ReadExact(8);
    if magic.None? || magic.value != MAGIC { return None; }
    var header := input.ReadExact(4);
    if header.None? { return None; }
    var count := FromBigEndian(header.value);
    if count > MAX_ENTRIES { return None; }
    var spool: Spool := map[];
    ghost var l: seq<SpoolEntry> := [];
    StartReading(bytes[12..], count);
    var i := 0;
    while i < count
      invariant i <= count && |l| == i && input.Valid() && input.input == bytes
      invariant ReadSoFar(bytes[12..], count, l, input.Left())
      invariant DistinctIds(l) && spool == MapOf(l)
    {
      ReadOneMore(bytes[12..], count, l, input.Left());
      var entry := input.ReadEntry();
      if entry.None? { return None; }
      MapHasIds(l, entry.value);
      if entry.value.envelope.id in spool {
        RepeatRejects(bytes, l + [entry.value], input.Left());
        return None;
      }
      spool := spool[entry.value.envelope.id := entry.value];
      l := l + [entry.value];
      i := i + 1;
    }
    StopReading(bytes[12..], count, l, input.Left());
    if input.position != |bytes| { return None; }
    return Some(spool);
  }

  lemma StartReading(all: Bytes, count: nat)
    ensures ReadSoFar(all, count, [], all) && DistinctIds([]) && MapOf([]) == map[]
  {
    var rest := TakeEntries(all, count);
    if rest.Some? {
      assert [] + rest.value.0 == rest.value.0;
    }
  }

  lemma StopReading(all: Bytes, count: nat, l: seq<SpoolEntry>, left: Bytes)
    requires ReadSoFar(all, count, l, left) && |l| == count
    ensures TakeEntries(all, count) == Some((l, left))
  {
    assert l + [] == l;
  }
}
