/** The relay's spool as bytes: a counted list of envelopes, in the order of their identifiers. */
module SpoolCodec {
  import opened ByteStrings
  import opened Results

  const MAX_PAYLOAD: nat := 262_144
  const MAX_ENTRIES: nat := 4_096

  type EnvelopeId = b: Bytes | |b| == 16 witness Zeros(16)
  type IdempotencyKey = b: Bytes | |b| == 32 witness Zeros(32)

  datatype Direction = BrokerToService | ServiceToBroker

  datatype ObjectKind =
    | EnrollmentAcknowledgement | Request | LifecycleEvent | Receipt | KeysetAcknowledgement
    | ServiceKeyset | DecisionSubmission | RevocationEvent | ResyncRequest

  datatype Envelope = Envelope(id: EnvelopeId, direction: Direction, kind: ObjectKind, key: IdempotencyKey, payload: Bytes)

  datatype SpoolEntry = SpoolEntry(envelope: Envelope, attempts: u32, nextAttempt: u64)

  type Spool = map<EnvelopeId, SpoolEntry>

  predicate PermittedIn(kind: ObjectKind, direction: Direction) {
    match direction
    case BrokerToService => kind.EnrollmentAcknowledgement? || kind.Request? || kind.LifecycleEvent? || kind.Receipt? || kind.KeysetAcknowledgement?
    case ServiceToBroker => kind.ServiceKeyset? || kind.DecisionSubmission? || kind.RevocationEvent? || kind.ResyncRequest?
  }

  /** What the envelope constructor lets through. */
  predicate ValidEnvelope(e: Envelope) {
    PermittedIn(e.kind, e.direction) && |e.payload| <= MAX_PAYLOAD
  }

  predicate WellFormed(s: Spool) {
    |s| <= MAX_ENTRIES && forall id :: id in s ==> s[id].envelope.id == id && ValidEnvelope(s[id].envelope)
  }

  // ----- codes

  function DirectionCode(d: Direction): (c: byte) {
    if d.BrokerToService? then 1 else 2
  }

  function DecodeDirection(c: byte): (d: Option<Direction>) {
    if c == 1 then Some(BrokerToService) else if c == 2 then Some(ServiceToBroker) else None
  }

  function KindCode(k: ObjectKind): (c: byte) {
    match k
    case EnrollmentAcknowledgement => 1
    case Request => 2
    case LifecycleEvent => 3
    case Receipt => 4
    case KeysetAcknowledgement => 5
    case ServiceKeyset => 6
    case DecisionSubmission => 7
    case RevocationEvent => 8
    case ResyncRequest => 9
  }

  function DecodeKind(c: byte): (k: Option<ObjectKind>) {
    match c
    case 1 => Some(EnrollmentAcknowledgement)
    case 2 => Some(Request)
    case 3 => Some(LifecycleEvent)
    case 4 => Some(Receipt)
    case 5 => Some(KeysetAcknowledgement)
    case 6 => Some(ServiceKeyset)
    case 7 => Some(DecisionSubmission)
    case 8 => Some(RevocationEvent)
    case 9 => Some(ResyncRequest)
    case _ => None
  }

  // ----- the wire form of a list of entries

  const FIXED: nat := 66

  function EntryBytes(e: SpoolEntry): (b: Bytes)
    ensures |b| == FIXED + |e.envelope.payload|
  {
    e.envelope.id + [DirectionCode(e.envelope.direction), KindCode(e.envelope.kind)] + e.envelope.key
    + BigEndian(e.attempts, 4) + BigEndian(e.nextAttempt, 8) + BigEndian(|e.envelope.payload|, 4) + e.envelope.payload
  }

  function EntriesBytes(l: seq<SpoolEntry>): (b: Bytes) {
    if l == [] then [] else EntryBytes(l[0]) + EntriesBytes(l[1..])
  }

  const MAGIC: Bytes := [0x52, 0x50, 0x53, 0x50, 0x4f, 0x4f, 0x4c, 0x31]

  function ListBytes(l: seq<SpoolEntry>): (b: Bytes) {
    MAGIC + BigEndian(|l|, 4) + EntriesBytes(l)
  }

  function TakeEntry(b: Bytes): (r: Option<(SpoolEntry, Bytes)>)
    ensures r.Some? ==> |r.value.1| < |b|
  {
    if |b| < FIXED then None
    else
      var direction, kind := DecodeDirection(b[16]), DecodeKind(b[17]);
      var length := FromBigEndian(b[62..66]);
      if direction.None? || kind.None? || length > MAX_PAYLOAD || |b| - FIXED < length then None
      else if !PermittedIn(kind.value, direction.value) then None
      else
        Numbers(b[50..54], b[54..62]);
        var envelope := Envelope(b[..16], direction.value, kind.value, b[18..50], b[66..66 + length]);
        Some((SpoolEntry(envelope, FromBigEndian(b[50..54]), FromBigEndian(b[54..62])), b[66 + length..]))
  }

  lemma Numbers(a: Bytes, b: Bytes)
    requires |a| == 4 && |b| == 8
    ensures FromBigEndian(a) < 0x1_0000_0000 && FromBigEndian(b) < U64_LIMIT
  {
    hide FromBigEndian, Pow256;
    Pow256Values();
    ToFromBigEndian(a);
    ToFromBigEndian(b);
  }

  function TakeEntries(b: Bytes, n: nat): (r: Option<(seq<SpoolEntry>, Bytes)>) {
    if n == 0 then Some(([], b))
    else
      var first := TakeEntry(b);
      if first.None? then None
      else
        var rest := TakeEntries(first.value.1, n - 1);
        if rest.None? then None else Some(([first.value.0] + rest.value.0, rest.value.1))
  }

  predicate DistinctIds(l: seq<SpoolEntry>) {
    forall i, j :: 0 <= i < j < |l| ==> l[i].envelope.id != l[j].envelope.id
  }

  /** The entries that accepted bytes list, in their order there. */
  function DecodeList(b: Bytes): (r: Option<seq<SpoolEntry>>) {
    if |b| < 12 || b[..8] != MAGIC || FromBigEndian(b[8..12]) > MAX_ENTRIES then None
    else
      var r := TakeEntries(b[12..], FromBigEndian(b[8..12]));
      if r.None? || r.value.1 != [] || !DistinctIds(r.value.0) then None else Some(r.value.0)
  }

  // ----- the list form determines the bytes, and the bytes the list

  predicate ValidList(l: seq<SpoolEntry>) {
    |l| <= MAX_ENTRIES && DistinctIds(l) && forall i :: 0 <= i < |l| ==> ValidEnvelope(l[i].envelope)
  }

  lemma CodesRoundTrip(d: Direction, k: ObjectKind, c: byte)
    ensures DecodeDirection(DirectionCode(d)) == Some(d) && DecodeKind(KindCode(k)) == Some(k)
    ensures DecodeDirection(c).Some? ==> DirectionCode(DecodeDirection(c).value) == c
    ensures DecodeKind(c).Some? ==> KindCode(DecodeKind(c).value) == c
  {
  }

  lemma NumbersRoundTrip(attempts: u32, next: u64, length: nat)
    requires length <= MAX_PAYLOAD
    ensures FromBigEndian(BigEndian(attempts, 4)) == attempts
    ensures FromBigEndian(BigEndian(next, 8)) == next
    ensures FromBigEndian(BigEndian(length, 4)) == length
  {
    hide FromBigEndian, BigEndian, Pow256;
    Pow256Values();
    FromToBigEndian(attempts, 4);
    FromToBigEndian(next, 8);
    FromToBigEndian(length, 4);
  }

  lemma EntryFields(e: SpoolEntry, rest: Bytes)
    ensures var b := EntryBytes(e) + rest; var n := |e.envelope.payload|;
      && b[..16] == e.envelope.id && b[16] == DirectionCode(e.envelope.direction) && b[17] == KindCode(e.envelope.kind)
      && b[18..50] == e.envelope.key && b[50..54] == BigEndian(e.attempts, 4) && b[54..62] == BigEndian(e.nextAttempt, 8)
      && b[62..66] == BigEndian(n, 4) && b[66..66 + n] == e.envelope.payload && b[66 + n..] == rest
  {
    hide BigEndian, KindCode;
  }

  lemma TakeEntryComplete(e: SpoolEntry, rest: Bytes)
    requires ValidEnvelope(e.envelope)
    ensures TakeEntry(EntryBytes(e) + rest) == Some((e, rest))
  {
    hide EntryBytes, FromBigEndian, BigEndian, DecodeKind, DecodeDirection, KindCode, DirectionCode;
    EntryFields(e, rest);
    CodesRoundTrip(e.envelope.direction, e.envelope.kind, 0);
    NumbersRoundTrip(e.attempts, e.nextAttempt, |e.envelope.payload|);
  }

  lemma Pieces(b: Bytes, n: nat)
    requires |b| >= FIXED + n
    ensures b == b[..16] + [b[16], b[17]] + b[18..50] + b[50..54] + b[54..62] + b[62..66] + b[66..66 + n] + b[66 + n..]
  {
  }

  lemma TakeEntrySound(b: Bytes)
    requires TakeEntry(b).Some?
    ensures ValidEnvelope(TakeEntry(b).value.0.envelope)
    ensures b == EntryBytes(TakeEntry(b).value.0) + TakeEntry(b).value.1
  {
    hide FromBigEndian, BigEndian, DecodeKind, DecodeDirection, KindCode, DirectionCode, PermittedIn;
    var length := FromBigEndian(b[62..66]);
    Pieces(b, length);
    ToFromBigEndian(b[50..54]);
    ToFromBigEndian(b[54..62]);
    ToFromBigEndian(b[62..66]);
    CodesRoundTrip(BrokerToService, Request, b[16]);
    CodesRoundTrip(BrokerToService, Request, b[17]);
  }

  lemma {:induction false} TakeEntriesComplete(l: seq<SpoolEntry>, rest: Bytes)
    requires forall i :: 0 <= i < |l| ==> ValidEnvelope(l[i].envelope)
    ensures TakeEntries(EntriesBytes(l) + rest, |l|) == Some((l, rest))
  {
    hide EntryBytes, TakeEntry, ValidEnvelope;
    if l == [] {
      assert EntriesBytes(l) + rest == rest;
    } else {
      assert EntriesBytes(l) + rest == EntryBytes(l[0]) + (EntriesBytes(l[1..]) + rest);
      TakeEntryComplete(l[0], EntriesBytes(l[1..]) + rest);
      TakeEntriesComplete(l[1..], rest);
      assert [l[0]] + l[1..] == l;
    }
  }

  lemma {:induction false} TakeEntriesSound(b: Bytes, n: nat)
    requires TakeEntries(b, n).Some?
    ensures var (l, rest) := TakeEntries(b, n).value;
      |l| == n && b == EntriesBytes(l) + rest && forall i :: 0 <= i < n ==> ValidEnvelope(l[i].envelope)
    decreases n
  {
    hide EntryBytes, TakeEntry, ValidEnvelope;
    var (l, rest) := TakeEntries(b, n).value;
    if n == 0 {
      assert b == [] + b;
    } else {
      TakeEntrySound(b);
      TakeEntriesSound(TakeEntry(b).value.1, n - 1);
      assert l[1..] == TakeEntries(TakeEntry(b).value.1, n - 1).value.0;
      assert EntryBytes(l[0]) + (EntriesBytes(l[1..]) + rest) == EntryBytes(l[0]) + EntriesBytes(l[1..]) + rest;
    }
  }

  lemma HeaderParts(l: seq<SpoolEntry>)
    requires |l| <= MAX_ENTRIES
    ensures var b := ListBytes(l); |b| >= 12 && b[..8] == MAGIC && FromBigEndian(b[8..12]) == |l| && b[12..] == EntriesBytes(l)
  {
    hide BigEndian, FromBigEndian, EntriesBytes, Pow256;
    Pow256Values();
    FromToBigEndian(|l|, 4);
    assert ListBytes(l)[8..12] == BigEndian(|l|, 4);
  }

  /** Bytes are accepted as a list exactly when they are that list's bytes and the list is within every limit. */
  lemma DecodeListExactly(b: Bytes, l: seq<SpoolEntry>)
    ensures DecodeList(b) == Some(l) <==> b == ListBytes(l) && ValidList(l)
  {
    hide BigEndian, FromBigEndian, EntriesBytes, TakeEntries, ValidEnvelope;
    if DecodeList(b) == Some(l) {
      TakeEntriesSound(b[12..], FromBigEndian(b[8..12]));
      ToFromBigEndian(b[8..12]);
      assert b == b[..8] + b[8..12] + b[12..];
      assert EntriesBytes(l) + [] == EntriesBytes(l);
    }
    if b == ListBytes(l) && ValidList(l) {
      HeaderParts(l);
      TakeEntriesComplete(l, []);
      assert EntriesBytes(l) + [] == EntriesBytes(l);
    }
  }

  // ----- the spool as a map, listed by ascending identifier

  function MapOf(l: seq<SpoolEntry>): (s: Spool) {
    if l == [] then map[] else MapOf(l[..|l| - 1])[l[|l| - 1].envelope.id := l[|l| - 1]]
  }

  predicate IsLeast(id: EnvelopeId, ids: set<EnvelopeId>) {
    id in ids && forall other :: other in ids && other != id ==> LexLt(id, other)
  }

  lemma {:induction false} LeastExists(ids: set<EnvelopeId>)
    requires ids != {}
    ensures exists id :: IsLeast(id, ids)
    decreases |ids|
  {
    hide LexLt;
    var x: EnvelopeId :| x in ids;
    var rest := ids - {x};
    if rest == {} {
      assert ids == {x};
      assert IsLeast(x, ids);
    } else {
      LeastExists(rest);
      var y: EnvelopeId :| IsLeast(y, rest);
      LexTrichotomy(x, y);
      if LexLt(x, y) {
        forall z | z in ids && z != x ensures LexLt(x, z) {
          if z != y {
            LexTransitive(x, y, z);
          }
        }
        assert IsLeast(x, ids);
      } else {
        assert IsLeast(y, ids);
      }
    }
  }

  lemma LeastIsUnique(a: EnvelopeId, b: EnvelopeId, ids: set<EnvelopeId>)
    requires IsLeast(a, ids) && IsLeast(b, ids)
    ensures a == b
  {
    hide LexLt;
    LexTrichotomy(a, b);
  }

  function Least(ids: set<EnvelopeId>): (id: EnvelopeId)
    requires ids != {}
    ensures IsLeast(id, ids)
  {
    LeastExists(ids);
    assert forall a, b :: IsLeast(a, ids) && IsLeast(b, ids) ==> a == b by {
      forall a, b | IsLeast(a, ids) && IsLeast(b, ids) ensures a == b {
        LeastIsUnique(a, b, ids);
      }
    }
    var id :| id in ids && IsLeast(id, ids);
    id
  }

  function InOrder(s: Spool): (l: seq<SpoolEntry>)
    ensures |l| == |s|
    decreases |s|
  {
    if s == map[] then []
    else
      var id := Least(s.Keys);
      assert |s - {id}| < |s| by {
        assert (s - {id}).Keys == s.Keys - {id};
      }
      [s[id]] + InOrder(s - {id})
  }

  predicate AscendingIds(l: seq<SpoolEntry>) {
    forall i, j :: 0 <= i < j < |l| ==> LexLt(l[i].envelope.id, l[j].envelope.id)
  }

  function Encode(s: Spool): (b: Bytes) {
    ListBytes(InOrder(s))
  }

  function Decode(b: Bytes): (s: Option<Spool>) {
    var l := DecodeList(b);
    if l.Some? then Some(MapOf(l.value)) else None
  }

  /** `l` lists the entries of `s`, each under its own identifier. */
  ghost predicate Lists(l: seq<SpoolEntry>, s: Spool) {
    && (forall i :: 0 <= i < |l| ==> l[i].envelope.id in s && s[l[i].envelope.id] == l[i])
    && (forall id :: id in s ==> exists i :: 0 <= i < |l| && l[i].envelope.id == id)
  }

  lemma {:induction false} MapOfList(l: seq<SpoolEntry>)
    requires DistinctIds(l)
    ensures |MapOf(l)| == |l| && Lists(l, MapOf(l))
  {
    if l != [] {
      var n := |l| - 1;
      MapOfList(l[..n]);
      MapGrows(l, MapOf(l[..n]));
    }
  }

  lemma MapGrows(l: seq<SpoolEntry>, s: Spool)
    requires l != [] && DistinctIds(l) && Lists(l[..|l| - 1], s)
    ensures l[|l| - 1].envelope.id !in s
    ensures Lists(l, s[l[|l| - 1].envelope.id := l[|l| - 1]])
  {
    var n := |l| - 1;
    var t := s[l[n].envelope.id := l[n]];
    forall id | id in s ensures exists i :: 0 <= i < n && l[i].envelope.id == id {
      var i :| 0 <= i < n && l[..n][i].envelope.id == id;
      assert l[i].envelope.id == id;
    }
    forall i | 0 <= i < n ensures l[i].envelope.id in s && s[l[i].envelope.id] == l[i] {
      assert l[..n][i] == l[i];
    }
  }

  /** What a map holds is what its list says. */
  lemma SameListSameMap(l: seq<SpoolEntry>, s: Spool, t: Spool)
    requires Lists(l, s) && Lists(l, t)
    ensures s == t
  {
    forall id ensures id in s <==> id in t {
    }
    assert forall id :: id in s ==> s[id] == t[id];
  }

  lemma RestLists(l: seq<SpoolEntry>, s: Spool)
    requires l != [] && DistinctIds(l) && Lists(l, s)
    ensures Lists(l[1..], s - {l[0].envelope.id})
  {
    var t, rest := s - {l[0].envelope.id}, l[1..];
    forall i | 0 <= i < |rest| ensures rest[i].envelope.id in t && t[rest[i].envelope.id] == rest[i] {
      assert rest[i] == l[i + 1];
    }
    forall id | id in t ensures exists i :: 0 <= i < |rest| && rest[i].envelope.id == id {
      var i :| 0 <= i < |l| && l[i].envelope.id == id;
      assert rest[i - 1] == l[i];
    }
  }

  lemma MapOfRest(l: seq<SpoolEntry>)
    requires l != [] && DistinctIds(l)
    ensures MapOf(l) - {l[0].envelope.id} == MapOf(l[1..])
  {
    hide MapOf, Lists;
    MapOfList(l);
    RestLists(l, MapOf(l));
    MapOfList(l[1..]);
    SameListSameMap(l[1..], MapOf(l) - {l[0].envelope.id}, MapOf(l[1..]));
  }

  lemma AscendingIsDistinct(l: seq<SpoolEntry>)
    requires AscendingIds(l)
    ensures DistinctIds(l)
  {
    hide LexLt;
    forall i, j | 0 <= i < j < |l| ensures l[i].envelope.id != l[j].envelope.id {
      LexTrichotomy(l[i].envelope.id, l[j].envelope.id);
    }
  }

  lemma FirstIsLeast(l: seq<SpoolEntry>)
    requires l != [] && AscendingIds(l)
    ensures MapOf(l) != map[] && Least(MapOf(l).Keys) == l[0].envelope.id
  {
    hide MapOf, LexLt, Least;
    AscendingIsDistinct(l);
    MapOfList(l);
    var ids := MapOf(l).Keys;
    forall other | other in ids && other != l[0].envelope.id ensures LexLt(l[0].envelope.id, other) {
      var i :| 0 <= i < |l| && l[i].envelope.id == other;
    }
    assert IsLeast(l[0].envelope.id, ids);
    LeastIsUnique(l[0].envelope.id, Least(ids), ids);
  }

  /** An ascending list is how its map is listed. */
  lemma {:induction false} InOrderOfMap(l: seq<SpoolEntry>)
    requires AscendingIds(l)
    ensures InOrder(MapOf(l)) == l
  {
    hide MapOf, Least, LexLt;
    AscendingIsDistinct(l);
    MapOfList(l);
    if l != [] {
      FirstIsLeast(l);
      MapOfRest(l);
      InOrderOfMap(l[1..]);
      assert l == [l[0]] + l[1..];
    }
  }

  ghost predicate Keyed(s: Spool) {
    forall id :: id in s ==> s[id].envelope.id == id
  }

  lemma AscendingPrepended(e: SpoolEntry, l: seq<SpoolEntry>)
    requires AscendingIds(l) && forall i :: 0 <= i < |l| ==> LexLt(e.envelope.id, l[i].envelope.id)
    ensures AscendingIds([e] + l)
  {
    hide LexLt;
  }

  lemma ListsPrepended(s: Spool, id: EnvelopeId, l: seq<SpoolEntry>)
    requires Keyed(s) && id in s && Lists(l, s - {id})
    ensures Lists([s[id]] + l, s)
  {
    var longer := [s[id]] + l;
    forall other | other in s ensures exists i :: 0 <= i < |longer| && longer[i].envelope.id == other {
      if other == id {
        assert longer[0].envelope.id == id;
      } else {
        assert other in s - {id};
        var i :| 0 <= i < |l| && l[i].envelope.id == other;
        assert longer[i + 1] == l[i];
      }
    }
  }

  lemma {:induction false} InOrderListed(s: Spool)
    requires Keyed(s)
    ensures AscendingIds(InOrder(s)) && Lists(InOrder(s), s)
    decreases |s|
  {
    hide LexLt, AscendingIds;
    if s == map[] {
      assert AscendingIds(InOrder(s)) by {
        NothingAscends();
      }
    } else {
      var id := Least(s.Keys);
      var rest := s - {id};
      assert rest.Keys == s.Keys - {id};
      InOrderListed(rest);
      var t := InOrder(rest);
      ListsPrepended(s, id, t);
      forall i | 0 <= i < |t| ensures LexLt(id, t[i].envelope.id) {
        assert t[i].envelope.id in s.Keys;
      }
      AscendingPrepended(s[id], t);
    }
  }

  lemma NothingAscends()
    ensures AscendingIds([])
  {
  }

  lemma MapOfInOrder(s: Spool)
    requires Keyed(s)
    ensures MapOf(InOrder(s)) == s
  {
    hide MapOf, InOrder, Lists, Keyed, AscendingIds;
    InOrderListed(s);
    AscendingIsDistinct(InOrder(s));
    MapOfList(InOrder(s));
    SameListSameMap(InOrder(s), s, MapOf(InOrder(s)));
  }

  lemma ListIsValid(s: Spool)
    requires WellFormed(s)
    ensures ValidList(InOrder(s)) && AscendingIds(InOrder(s))
  {
    hide InOrder, ValidEnvelope;
    InOrderListed(s);
    AscendingIsDistinct(InOrder(s));
  }

  lemma MapIsWellFormed(l: seq<SpoolEntry>)
    requires ValidList(l)
    ensures WellFormed(MapOf(l))
  {
    hide MapOf, ValidEnvelope;
    MapOfList(l);
  }

  /** Writing a spool and reading it back gives the same spool. */
  lemma DecodeEncode(s: Spool)
    requires WellFormed(s)
    ensures Decode(Encode(s)) == Some(s)
  {
    hide InOrder, MapOf, ListBytes, DecodeList, ValidList;
    ListIsValid(s);
    DecodeListExactly(Encode(s), InOrder(s));
    MapOfInOrder(s);
  }

  /** Whatever bytes are accepted, the spool is within every limit, and writing it again gives the same bytes exactly when they listed it in order. */
  lemma EncodeDecode(b: Bytes)
    requires Decode(b).Some?
    ensures WellFormed(Decode(b).value)
    ensures Encode(Decode(b).value) == b <==> AscendingIds(DecodeList(b).value)
  {
    hide InOrder, MapOf, ListBytes, DecodeList, ValidList, WellFormed, AscendingIds;
    var l := DecodeList(b).value;
    DecodeListExactly(b, l);
    MapIsWellFormed(l);
    if AscendingIds(l) {
      InOrderOfMap(l);
    }
    if Encode(MapOf(l)) == b {
      ListIsValid(MapOf(l));
      DecodeListExactly(b, InOrder(MapOf(l)));
    }
  }
}
