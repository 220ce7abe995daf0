/** The relay's spool: the retained envelopes, and their durable copy under failures and crashes. */
module RelaySpool {
  import opened ByteStrings
  import opened Results
  import opened SpoolCodec
  import SpoolReader

  datatype RelayError = DuplicateEnvelopeId | UnknownEnvelope | AcknowledgementMismatch | MailboxFull | CorruptSpool | Storage

  // ----- operations on the retained entries

  function Enqueued(s: Spool, e: Envelope, now: u64): (r: Result<Spool, RelayError>) {
    if e.id in s then Err(DuplicateEnvelopeId)
    else if |s| >= MAX_ENTRIES then Err(MailboxFull)
    else Ok(s[e.id := SpoolEntry(e, 0, now)])
  }

  function Acknowledged(s: Spool, id: EnvelopeId, key: IdempotencyKey): (r: Result<Spool, RelayError>) {
    if id !in s then Err(UnknownEnvelope)
    else if s[id].envelope.key != key then Err(AcknowledgementMismatch)
    else Ok(s - {id})
  }

  function Rescheduled(s: Spool, id: EnvelopeId, next: u64): (r: Result<Spool, RelayError>) {
    if id !in s then Err(UnknownEnvelope) else Ok(s[id := s[id].(nextAttempt := next)])
  }

  function PowerOfTwo(n: nat): (p: nat)
    ensures p > 0
  {
    if n == 0 then 1 else 2 * PowerOfTwo(n - 1)
  }

  function SaturatingMul(a: nat, b: nat): (r: u64) {
    if a * b < U64_LIMIT then a * b else U64_LIMIT - 1
  }

  function SaturatingAdd(a: u64, b: u64): (r: u64) {
    if a + b < U64_LIMIT then a + b else U64_LIMIT - 1
  }

  const SECOND: nat := 1_000_000_000
  const LONGEST_WAIT: nat := 300_000_000_000

  function Backoff(attempts: u32): (wait: u64) {
    var product := SaturatingMul(SECOND, PowerOfTwo(if attempts < 16 then attempts else 16));
    if product < LONGEST_WAIT then product else LONGEST_WAIT
  }

  predicate Ready(s: Spool, id: EnvelopeId, now: u64) {
    id in s && s[id].nextAttempt <= now
  }

  /** The first ready envelope in identifier order. */
  function NextReady(s: Spool, now: u64): (id: Option<EnvelopeId>)
    ensures id.Some? ==> Ready(s, id.value, now) && forall other: EnvelopeId :: Ready(s, other, now) && other != id.value ==> LexLt(id.value, other)
    ensures id.None? ==> forall other: EnvelopeId :: !Ready(s, other, now)
  {
    var ready := set id: EnvelopeId | id in s && s[id].nextAttempt <= now;
    if ready == {} then
      assert forall other: EnvelopeId :: Ready(s, other, now) ==> other in ready;
      None
    else
      assert forall other: EnvelopeId :: Ready(s, other, now) ==> other in ready;
      Some(Least(ready))
  }

  function Attempted(s: Spool, id: EnvelopeId): (t: Spool)
    requires id in s
  {
    var a := s[id].attempts;
    s[id := s[id].(attempts := if a + 1 < 0x1_0000_0000 then a + 1 else a)]
  }

  function Delivered(s: Spool, now: u64): (t: Spool) {
    var id := NextReady(s, now);
    if id.None? then s else Attempted(s, id.value)
  }

  class Retained {
    var entries: Spool

    constructor ()
      ensures entries == map[]
    {
      entries := map[];
    }

    method Enqueue(e: Envelope, now: u64) returns (r: Result<(), RelayError>)
      modifies this
      ensures r == if Enqueued(old(entries), e, now).Ok? then Ok(()) else Err(Enqueued(old(entries), e, now).error)
      ensures entries == if r.Ok? then Enqueued(old(entries), e, now).value else old(entries)
    {
      if e.id in entries {
        return Err(DuplicateEnvelopeId);
      }
      if |entries| >= MAX_ENTRIES {
        return Err(MailboxFull);
      }
      entries := entries[e.id := SpoolEntry(e, 0, now)];
      return Ok(());
    }

    /** Claims one ready envelope and keeps it. */
    method NextDelivery(now: u64) returns (attempt: Option<SpoolEntry>)
      modifies this
      ensures entries == Delivered(old(entries), now)
      ensures attempt.Some? <==> NextReady(old(entries), now).Some?
      ensures attempt.Some? ==> attempt.value == entries[NextReady(old(entries), now).value]
    {
      var id := NextReady(entries, now);
      if id.None? {
        return None;
      }
      entries := Attempted(entries, id.value);
      return Some(entries[id.value]);
    }

    method Acknowledge(id: EnvelopeId, key: IdempotencyKey) returns (r: Result<(), RelayError>)
      modifies this
      ensures r == if Acknowledged(old(entries), id, key).Ok? then Ok(()) else Err(Acknowledged(old(entries), id, key).error)
      ensures entries == if r.Ok? then Acknowledged(old(entries), id, key).value else old(entries)
    {
      if id !in entries {
        return Err(UnknownEnvelope);
      }
      if entries[id].envelope.key != key {
        return Err(AcknowledgementMismatch);
      }
      entries := entries - {id};
      return Ok(());
    }

    method RetryLater(id: EnvelopeId, next: u64) returns (r: Result<(), RelayError>)
      modifies this
      ensures r == if Rescheduled(old(entries), id, next).Ok? then Ok(()) else Err(UnknownEnvelope)
      ensures entries == if r.Ok? then Rescheduled(old(entries), id, next).value else old(entries)
    {
      if id !in entries {
        return Err(UnknownEnvelope);
      }
      entries := entries[id := entries[id].(nextAttempt := next)];
      return Ok(());
    }
  }

  // ----- the file system

  /** A file's bytes; until it is synced, a crash may leave anything in them. */
  datatype File = File(data: Bytes, synced: bool)

  /** Which file each of the two names refers to. */
  datatype Dir = Dir(target: Option<nat>, temporary: Option<nat>)

  /** `live` is what running programs see; a crash falls back to `durable` or to any change made since. */
  datatype Disk = Disk(files: seq<File>, live: Dir, durable: Dir, pending: seq<Dir>)

  function Versions(d: Disk): (v: seq<Dir>) {
    [d.durable] + d.pending
  }

  function Create(d: Disk): (e: Disk) {
    if d.live.temporary.Some? && d.live.temporary.value < |d.files| then
      d.(files := d.files[d.live.temporary.value := File([], false)])
    else
      var live := d.live.(temporary := Some(|d.files|));
      d.(files := d.files + [File([], false)], live := live, pending := d.pending + [live])
  }

  function Write(d: Disk, bytes: Bytes): (e: Disk) {
    if d.live.temporary.Some? && d.live.temporary.value < |d.files| then
      d.(files := d.files[d.live.temporary.value := File(bytes, false)])
    else d
  }

  function Sync(d: Disk): (e: Disk) {
    if d.live.temporary.Some? && d.live.temporary.value < |d.files| then
      d.(files := d.files[d.live.temporary.value := d.files[d.live.temporary.value].(synced := true)])
    else d
  }

  function Rename(d: Disk): (e: Disk) {
    var live := Dir(d.live.temporary, None);
    d.(live := live, pending := d.pending + [live])
  }

  function SyncDir(d: Disk): (e: Disk) {
    d.(durable := d.live, pending := [])
  }

  const ALL_STEPS: nat := 5

  /** How far saving gets before it fails or the machine does; a failing write may leave some of its bytes. */
  datatype Fault = Fault(steps: nat, written: nat)

  function Partial(bytes: Bytes, n: nat): (b: Bytes) {
    if n < |bytes| then bytes[..n] else bytes
  }

  /** The disk when saving `bytes` stops after `fault.steps` of create, write, sync, rename and directory sync. */
  function Stage(d: Disk, bytes: Bytes, fault: Fault): (e: Disk) {
    if fault.steps == 0 then d
    else if fault.steps == 1 then Write(Create(d), Partial(bytes, fault.written))
    else
      var written := Write(Create(d), bytes);
      if fault.steps == 2 then written
      else if fault.steps == 3 then Sync(written)
      else if fault.steps == 4 then Rename(Sync(written))
      else SyncDir(Rename(Sync(written)))
  }

  /** The disk after a power loss: some version of the directory, and arbitrary bytes in files not synced. */
  function AfterCrash(d: Disk, choice: nat, garbage: nat -> Bytes): (e: Disk)
    requires choice < |Versions(d)|
  {
    var dir := Versions(d)[choice];
    var files := seq(|d.files|, i requires 0 <= i < |d.files| => if d.files[i].synced then d.files[i] else File(garbage(i), false));
    Disk(files, dir, dir, [])
  }

  predicate DirOk(d: Disk, v: Dir) {
    && (v.temporary.Some? ==> v.temporary.value < |d.files| && v.temporary != v.target)
    && (v.target.Some? ==>
         && v.target.value < |d.files| && d.files[v.target.value].synced
         && Decode(d.files[v.target.value].data).Some?
         && d.live.temporary != v.target)
  }

  /** Whichever version a crash leaves, its target is a synced, readable file that no save is writing to. */
  predicate DiskOk(d: Disk) {
    d.live == Versions(d)[|d.pending|] && forall k :: 0 <= k <= |d.pending| ==> DirOk(d, Versions(d)[k])
  }

  /** What opening the spool at a directory version reads. */
  function Snapshot(d: Disk, v: Dir): (s: Spool)
    requires DirOk(d, v)
  {
    if v.target.None? then map[] else Decode(d.files[v.target.value].data).value
  }

  /** `s` is what a crash now, and reopening, could find. */
  ghost predicate Reopens(d: Disk, s: Spool)
    requires DiskOk(d)
  {
    exists k :: 0 <= k <= |d.pending| && Snapshot(d, Versions(d)[k]) == s
  }

  // ----- the durable spool

  class FileSpool {
    var spool: Spool
    var disk: Disk

    function Value(): (s: System)
      reads this
    {
      System(spool, disk)
    }

    constructor (spool: Spool, disk: Disk)
      ensures Value() == System(spool, disk)
    {
      this.spool, this.disk := spool, disk;
    }

    /** Saves a snapshot beside the old one, then replaces it; `fault` says where that stops. */
    method Persist(candidate: Spool, fault: Fault) returns (saved: bool)
      requires WellFormed(candidate)
      modifies this`disk
      ensures disk == Stage(old(disk), Encode(candidate), fault)
      ensures saved == (fault.steps >= ALL_STEPS)
    {
      hide Encode, WellFormed;
      var bytes := SpoolReader.EncodeSpool(candidate);
      if fault.steps == 0 { return false; }
      disk := Create(disk);
      if fault.steps == 1 {
        disk := Write(disk, Partial(bytes, fault.written));
        return false;
      }
      disk := Write(disk, bytes);
      if fault.steps == 2 { return false; }
      disk := Sync(disk);
      if fault.steps == 3 { return false; }
      disk := Rename(disk);
      if fault.steps == 4 { return false; }
      disk := SyncDir(disk);
      return true;
    }

    /** Applies a request to a copy, saves the copy, and only then adopts it. */
    method Handle(request: Request, fault: Fault) returns (r: Result<(), RelayError>)
      requires WellFormed(spool) && ValidRequest(request)
      modifies this
      ensures Value() == Next(old(Value()), Call(request, fault))
      ensures r.Ok? <==> Candidate(old(spool), request).Ok? && fault.steps >= ALL_STEPS
    {
      hide WellFormed, Stage;
      var candidate := Candidate(spool, request);
      if candidate.Err? {
        return Err(candidate.error);
      }
      CandidateWellFormed(spool, request);
      var saved := Persist(candidate.value, fault);
      if !saved {
        return Err(Storage);
      }
      spool := candidate.value;
      return Ok(());
    }

    method NextDelivery(now: u64) returns (attempt: Option<SpoolEntry>)
      modifies this`spool
      ensures Value() == Next(old(Value()), Deliver(now))
      ensures attempt.Some? <==> NextReady(old(spool), now).Some?
      ensures attempt.Some? ==> attempt.value == spool[NextReady(old(spool), now).value]
    {
      var id := NextReady(spool, now);
      if id.None? {
        return None;
      }
      spool := Attempted(spool, id.value);
      return Some(spool[id.value]);
    }
  }

  /** Opens the spool that the live name refers to, an empty one if there is none, or fails on a file that does not read. */
  method OpenSpool(disk: Disk) returns (r: Result<FileSpool, RelayError>)
    requires disk.live.target.Some? ==> disk.live.target.value < |disk.files|
    ensures r.Err? ==> r.error == CorruptSpool && disk.live.target.Some? && Decode(disk.files[disk.live.target.value].data).None?
    ensures r.Ok? ==> fresh(r.value) && r.value.disk == disk
    ensures r.Ok? ==> if disk.live.target.None? then r.value.spool == map[]
                      else Decode(disk.files[disk.live.target.value].data) == Some(r.value.spool)
    ensures DirOk(disk, disk.live) ==> r.Ok? && r.value.Value() == System(Snapshot(disk, disk.live), disk)
  {
    hide Decode;
    var spool: Spool := map[];
    if disk.live.target.Some? {
      var read := SpoolReader.DecodeSpool(disk.files[disk.live.target.value].data);
      if read.None? {
        return Err(CorruptSpool);
      }
      spool := read.value;
    }
    var store := new FileSpool(spool, disk);
    return Ok(store);
  }

  datatype System = System(spool: Spool, disk: Disk)

  datatype Request =
    | Enqueue(envelope: Envelope, now: u64)
    | Acknowledge(id: EnvelopeId, key: IdempotencyKey)
    | Retry(id: EnvelopeId, now: u64)

  predicate ValidRequest(r: Request) {
    r.Enqueue? ==> ValidEnvelope(r.envelope)
  }

  function Candidate(s: Spool, r: Request): (c: Result<Spool, RelayError>) {
    match r
    case Enqueue(e, now) => Enqueued(s, e, now)
    case Acknowledge(id, key) => Acknowledged(s, id, key)
    case Retry(id, now) =>
      if id !in s then Err(UnknownEnvelope) else Rescheduled(s, id, SaturatingAdd(now, Backoff(s[id].attempts)))
  }

  datatype Happening =
    | Call(request: Request, fault: Fault)
    | Deliver(now: u64)
    | Restart
    | Crash(choice: nat, garbage: nat -> Bytes)

  predicate Possible(sys: System, h: Happening) {
    match h
    case Call(request, _) => ValidRequest(request)
    case Crash(choice, _) => choice < |Versions(sys.disk)|
    case _ => true
  }

  /** What opening reads, or nothing if it would not open. */
  function Opened(d: Disk): (s: Spool) {
    if DirOk(d, d.live) then Snapshot(d, d.live) else map[]
  }

  function Next(sys: System, h: Happening): (t: System) {
    match h
    case Call(request, fault) =>
      var c := Candidate(sys.spool, request);
      if c.Err? then sys
      else System(if fault.steps >= ALL_STEPS then c.value else sys.spool, Stage(sys.disk, Encode(c.value), fault))
    case Deliver(now) => sys.(spool := Delivered(sys.spool, now))
    case Restart => System(Opened(sys.disk), sys.disk)
    case Crash(choice, garbage) =>
      if choice < |Versions(sys.disk)| then
        var d := AfterCrash(sys.disk, choice, garbage);
        System(Opened(d), d)
      else sys
  }

  lemma EnqueuedWellFormed(s: Spool, e: Envelope, now: u64)
    requires WellFormed(s) && ValidEnvelope(e) && Enqueued(s, e, now).Ok?
    ensures WellFormed(Enqueued(s, e, now).value)
  {
    hide ValidEnvelope;
  }

  lemma AcknowledgedWellFormed(s: Spool, id: EnvelopeId, key: IdempotencyKey)
    requires WellFormed(s) && Acknowledged(s, id, key).Ok?
    ensures WellFormed(Acknowledged(s, id, key).value)
  {
    hide ValidEnvelope;
    assert (s - {id}).Keys == s.Keys - {id};
  }

  lemma RescheduledWellFormed(s: Spool, id: EnvelopeId, next: u64)
    requires WellFormed(s) && Rescheduled(s, id, next).Ok?
    ensures WellFormed(Rescheduled(s, id, next).value)
  {
    hide ValidEnvelope;
    assert s[id := s[id].(nextAttempt := next)].Keys == s.Keys;
  }

  lemma CandidateWellFormed(s: Spool, r: Request)
    requires WellFormed(s) && ValidRequest(r) && Candidate(s, r).Ok?
    ensures WellFormed(Candidate(s, r).value)
  {
    hide Backoff, ValidEnvelope, WellFormed, Enqueued, Acknowledged, Rescheduled;
    match r
    case Enqueue(e, now) => EnqueuedWellFormed(s, e, now);
    case Acknowledge(id, key) => AcknowledgedWellFormed(s, id, key);
    case Retry(id, now) => RescheduledWellFormed(s, id, SaturatingAdd(now, Backoff(s[id].attempts)));
  }

  // ----- retries

  lemma {:induction false} PowersGrow(m: nat, n: nat)
    requires m <= n
    ensures PowerOfTwo(m) <= PowerOfTwo(n)
  {
    if m < n {
      PowersGrow(m, n - 1);
    }
  }

  /** The wait doubles from one second to five minutes, never wraps, and never shrinks with more attempts. */
  lemma BackoffBounds(attempts: u32, more: u32)
    requires attempts <= more
    ensures SECOND <= Backoff(attempts) <= Backoff(more) <= LONGEST_WAIT
    ensures attempts < 9 ==> Backoff(attempts) == SECOND * PowerOfTwo(attempts)
    ensures attempts >= 9 ==> Backoff(attempts) == LONGEST_WAIT
  {
    var m, n := if attempts < 16 then attempts else 16, if more < 16 then more else 16;
    PowersGrow(m, n);
    PowersGrow(n, 16);
    assert PowerOfTwo(16) == 65_536 by {
      assert PowerOfTwo(8) == 256;
      assert PowerOfTwo(12) == 4_096;
    }
    assert PowerOfTwo(8) == 256 && PowerOfTwo(9) == 512;
    if attempts < 9 {
      PowersGrow(m, 8);
    } else {
      PowersGrow(9, m);
    }
  }

  // ----- one save, stopped anywhere

  /** Steps that leave every version's target alone leave what can be reopened alone. */
  lemma TargetsKept(d: Disk, e: Disk)
    requires DiskOk(d) && e.live.target == d.live.target
    requires Versions(e) == Versions(d) || Versions(e) == Versions(d) + [e.live]
    requires Versions(e) == Versions(d) ==> e.live == d.live
    requires |d.files| <= |e.files|
    requires e.live.temporary.Some? && e.live.temporary.value < |e.files|
    requires d.live.temporary == e.live.temporary || e.live.temporary.value == |d.files|
    requires forall i :: 0 <= i < |d.files| && e.live.temporary != Some(i) ==> e.files[i] == d.files[i]
    ensures DiskOk(e)
    ensures forall t :: Reopens(e, t) <==> Reopens(d, t)
  {
    hide Decode;
    var n := |d.pending|;
    forall k | 0 <= k <= n ensures DirOk(e, Versions(e)[k]) && Snapshot(e, Versions(e)[k]) == Snapshot(d, Versions(d)[k]) {
      assert Versions(e)[k] == Versions(d)[k];
      assert DirOk(d, Versions(d)[k]);
    }
    assert |Versions(e)| == |e.pending| + 1;
    if Versions(e) != Versions(d) {
      assert Versions(e)[n + 1] == e.live && DirOk(d, Versions(d)[n]);
      assert DirOk(e, e.live) && Snapshot(e, e.live) == Snapshot(d, Versions(d)[n]);
    }
    SameSnapshots(d, e);
  }

  lemma SameSnapshots(d: Disk, e: Disk)
    requires DiskOk(d) && DiskOk(e) && |d.pending| <= |e.pending| <= |d.pending| + 1
    requires forall k :: 0 <= k <= |d.pending| ==> Snapshot(e, Versions(e)[k]) == Snapshot(d, Versions(d)[k])
    requires |e.pending| > |d.pending| ==> Snapshot(e, Versions(e)[|e.pending|]) == Snapshot(d, Versions(d)[|d.pending|])
    ensures forall t :: Reopens(e, t) <==> Reopens(d, t)
  {
    hide Snapshot, DirOk;
    forall t ensures Reopens(e, t) <==> Reopens(d, t) {
      if Reopens(e, t) {
        var k :| 0 <= k <= |e.pending| && Snapshot(e, Versions(e)[k]) == t;
        assert Snapshot(d, Versions(d)[if k <= |d.pending| then k else |d.pending|]) == t;
      }
      if Reopens(d, t) {
        var k :| 0 <= k <= |d.pending| && Snapshot(d, Versions(d)[k]) == t;
        assert Snapshot(e, Versions(e)[k]) == t;
      }
    }
  }

  lemma CreateKeeps(d: Disk)
    requires DiskOk(d)
    ensures var e := Create(d);
      && DiskOk(e) && e.live.temporary.Some? && e.live.temporary.value < |e.files|
      && forall t :: Reopens(e, t) <==> Reopens(d, t)
  {
    hide Decode, Reopens;
    assert DirOk(d, Versions(d)[|d.pending|]);
    TargetsKept(d, Create(d));
  }

  predicate HasTemporary(d: Disk) {
    d.live.temporary.Some? && d.live.temporary.value < |d.files|
  }

  lemma WriteKeeps(d: Disk, bytes: Bytes)
    requires DiskOk(d) && HasTemporary(d)
    ensures DiskOk(Write(d, bytes)) && HasTemporary(Write(d, bytes))
    ensures forall t :: Reopens(Write(d, bytes), t) <==> Reopens(d, t)
  {
    hide Decode, Reopens;
    TargetsKept(d, Write(d, bytes));
  }

  lemma SyncKeeps(d: Disk)
    requires DiskOk(d) && HasTemporary(d)
    ensures DiskOk(Sync(d)) && HasTemporary(Sync(d))
    ensures forall t :: Reopens(Sync(d), t) <==> Reopens(d, t)
  {
    hide Decode, Reopens;
    TargetsKept(d, Sync(d));
  }

  /** A rename of a synced file adds its contents to what can be reopened, and nothing else. */
  lemma RenameAdds(d: Disk, s: Spool)
    requires DiskOk(d) && HasTemporary(d)
    requires var f := d.files[d.live.temporary.value]; f.synced && Decode(f.data) == Some(s)
    ensures var e := Rename(d);
      && DiskOk(e) && DirOk(e, e.live) && Snapshot(e, e.live) == s
      && forall t :: Reopens(e, t) <==> Reopens(d, t) || t == s
  {
    hide Decode;
    var e := Rename(d);
    var n := |d.pending|;
    forall k | 0 <= k <= n ensures Versions(e)[k] == Versions(d)[k] && DirOk(e, Versions(e)[k]) {
      assert DirOk(d, Versions(d)[k]);
    }
    assert Versions(e)[n + 1] == e.live;
    forall t ensures Reopens(e, t) <==> Reopens(d, t) || t == s {
      if Reopens(e, t) {
        var k :| 0 <= k <= |e.pending| && Snapshot(e, Versions(e)[k]) == t;
        if k <= n {
          assert Snapshot(d, Versions(d)[k]) == t;
        }
      }
      if Reopens(d, t) {
        var k :| 0 <= k <= n && Snapshot(d, Versions(d)[k]) == t;
        assert Snapshot(e, Versions(e)[k]) == t;
      }
      if t == s {
        assert Snapshot(e, Versions(e)[n + 1]) == t;
      }
    }
  }

  /** After the directory is synced, only what the live name refers to can be reopened. */
  lemma SyncDirSettles(d: Disk, s: Spool)
    requires DiskOk(d) && DirOk(d, d.live) && Snapshot(d, d.live) == s
    ensures DiskOk(SyncDir(d)) && forall t :: Reopens(SyncDir(d), t) <==> t == s
  {
    hide Decode;
    var e := SyncDir(d);
    assert Versions(e)[0] == d.live && DirOk(e, Versions(e)[0]);
    assert Snapshot(e, Versions(e)[0]) == s;
  }

  /**
   * Saving is atomic under crashes: stopped anywhere, reopening finds something it could have found before or exactly
   * the new entries; before the rename only the former, and once saving has reported success only the latter.
   */
  lemma SaveIsAtomic(d: Disk, s: Spool, fault: Fault, t: Spool)
    requires DiskOk(d) && WellFormed(s)
    ensures DiskOk(Stage(d, Encode(s), fault))
    ensures Reopens(Stage(d, Encode(s), fault), t) <==>
      if fault.steps < 4 then Reopens(d, t) else if fault.steps == 4 then Reopens(d, t) || t == s else t == s
  {
    hide DiskOk, Reopens, Encode, Decode, WellFormed, Snapshot, DirOk;
    var bytes := Encode(s);
    CreateKeeps(d);
    if fault.steps == 1 {
      WriteKeeps(Create(d), Partial(bytes, fault.written));
    } else if fault.steps >= 2 {
      WriteKeeps(Create(d), bytes);
      var written := Write(Create(d), bytes);
      if fault.steps >= 3 {
        SyncKeeps(written);
        DecodeEncode(s);
        if fault.steps >= 4 {
          RenameAdds(Sync(written), s);
          if fault.steps > 4 {
            SyncDirSettles(Rename(Sync(written)), s);
          }
        }
      }
    }
  }

  /** A crash leaves one of the versions that could be reopened, and then only that one. */
  lemma CrashChooses(d: Disk, choice: nat, garbage: nat -> Bytes)
    requires DiskOk(d) && choice < |Versions(d)|
    ensures var e := AfterCrash(d, choice, garbage);
      && DiskOk(e) && DirOk(e, e.live) && Reopens(d, Snapshot(e, e.live))
      && forall t :: Reopens(e, t) <==> t == Snapshot(e, e.live)
  {
    hide Decode;
    var e := AfterCrash(d, choice, garbage);
    assert DirOk(d, Versions(d)[choice]);
    assert Versions(e)[0] == e.live && DirOk(e, Versions(e)[0]);
    assert Snapshot(e, e.live) == Snapshot(d, Versions(d)[choice]);
    assert Snapshot(e, Versions(e)[0]) == Snapshot(e, e.live);
  }

  // ----- whole runs

  /** Memory and everything that could be reopened are proper spools. */
  ghost predicate SystemOk(sys: System) {
    WellFormed(sys.spool) && DiskOk(sys.disk) && forall s :: Reopens(sys.disk, s) ==> WellFormed(s)
  }

  /** The envelopes that were reported as enqueued and not acknowledged with their own key since. */
  type Promises = map<EnvelopeId, Envelope>

  function Promised(sys: System, p: Promises, h: Happening): (q: Promises) {
    if !h.Call? then p
    else match h.request
      case Enqueue(e, _) =>
        if Candidate(sys.spool, h.request).Ok? && h.fault.steps >= ALL_STEPS then p[e.id := e] else p
      case Acknowledge(id, key) => if id in p && p[id].key == key then p - {id} else p
      case Retry(_, _) => p
  }

  predicate Holds(s: Spool, p: Promises) {
    forall id :: id in p ==> id in s && s[id].envelope == p[id]
  }

  ghost predicate Kept(sys: System, p: Promises)
    requires DiskOk(sys.disk)
  {
    Holds(sys.spool, p) && forall s :: Reopens(sys.disk, s) ==> Holds(s, p)
  }

  /** A request's candidate holds whatever memory held, apart from what the request acknowledges. */
  lemma CandidateHolds(sys: System, p: Promises, request: Request, fault: Fault)
    requires Holds(sys.spool, p) && Candidate(sys.spool, request).Ok?
    ensures Holds(sys.spool, p - AcknowledgedBy(p, request))
    ensures Holds(Candidate(sys.spool, request).value, p - AcknowledgedBy(p, request))
    ensures fault.steps >= ALL_STEPS ==> Holds(Candidate(sys.spool, request).value, Promised(sys, p, Call(request, fault)))
    ensures fault.steps < ALL_STEPS ==> Promised(sys, p, Call(request, fault)) == p - AcknowledgedBy(p, request)
  {
    hide Backoff;
  }

  function AcknowledgedBy(p: Promises, request: Request): (ids: set<EnvelopeId>) {
    if request.Acknowledge? && request.id in p && p[request.id].key == request.key then {request.id} else {}
  }

  lemma CallKeeps(sys: System, p: Promises, request: Request, fault: Fault)
    requires SystemOk(sys) && Kept(sys, p) && ValidRequest(request)
    ensures SystemOk(Next(sys, Call(request, fault)))
    ensures Kept(Next(sys, Call(request, fault)), Promised(sys, p, Call(request, fault)))
  {
    hide WellFormed, DiskOk, Reopens, Stage, Encode, Holds, Promised, Candidate;
    var c := Candidate(sys.spool, request);
    var q := Promised(sys, p, Call(request, fault));
    if c.Err? {
      RefusedKeeps(sys, p, request, fault);
    } else {
      CandidateWellFormed(sys.spool, request);
      CandidateHolds(sys, p, request, fault);
      SaveIsAtomic(sys.disk, c.value, fault, c.value);
      forall t | Reopens(Stage(sys.disk, Encode(c.value), fault), t) ensures WellFormed(t) && Holds(t, q) {
        SaveIsAtomic(sys.disk, c.value, fault, t);
        if fault.steps < ALL_STEPS && t != c.value {
          FewerHold(t, p, AcknowledgedBy(p, request));
        }
      }
    }
  }

  lemma FewerHold(s: Spool, p: Promises, gone: set<EnvelopeId>)
    requires Holds(s, p)
    ensures Holds(s, p - gone)
  {
  }

  lemma RefusedKeeps(sys: System, p: Promises, request: Request, fault: Fault)
    requires Holds(sys.spool, p) && Candidate(sys.spool, request).Err?
    ensures Promised(sys, p, Call(request, fault)) == p
  {
    hide Backoff;
  }

  lemma DeliveryKeeps(s: Spool, p: Promises, now: u64)
    requires WellFormed(s) && Holds(s, p)
    ensures WellFormed(Delivered(s, now)) && Holds(Delivered(s, now), p)
  {
    hide NextReady, ValidEnvelope;
    var id := NextReady(s, now);
    if id.Some? {
      assert Attempted(s, id.value).Keys == s.Keys;
    }
  }

  lemma HappeningKeeps(sys: System, p: Promises, h: Happening)
    requires SystemOk(sys) && Kept(sys, p) && Possible(sys, h)
    ensures SystemOk(Next(sys, h)) && Kept(Next(sys, h), Promised(sys, p, h))
  {
    hide WellFormed, Holds, Delivered, Snapshot, DirOk, Candidate, Stage;
    match h
    case Call(request, fault) => CallKeeps(sys, p, request, fault);
    case Deliver(now) => DeliveryKeeps(sys.spool, p, now);
    case Restart =>
      LiveReopens(sys.disk);
    case Crash(choice, garbage) =>
      CrashChooses(sys.disk, choice, garbage);
  }

  lemma LiveReopens(d: Disk)
    requires DiskOk(d)
    ensures DirOk(d, d.live) && Reopens(d, Snapshot(d, d.live))
  {
    hide Decode;
    var n := |d.pending|;
    assert DirOk(d, Versions(d)[n]);
    assert Snapshot(d, Versions(d)[n]) == Snapshot(d, d.live);
  }

  function RunAll(sys: System, hs: seq<Happening>): (end: System) {
    if hs == [] then sys else Next(RunAll(sys, hs[..|hs| - 1]), hs[|hs| - 1])
  }

  function PromisedAll(sys: System, hs: seq<Happening>): (p: Promises) {
    if hs == [] then map[]
    else Promised(RunAll(sys, hs[..|hs| - 1]), PromisedAll(sys, hs[..|hs| - 1]), hs[|hs| - 1])
  }

  ghost predicate AllPossible(sys: System, hs: seq<Happening>) {
    forall k :: 0 <= k < |hs| ==> Possible(RunAll(sys, hs[..k]), hs[k])
  }

  /**
   * At-least-once: over any mix of calls, failures, deliveries, restarts and crashes, an envelope whose enqueue was
   * reported done stays in memory, and in everything a crash could bring back, until its own key is acknowledged.
   */
  lemma {:induction false} NothingPromisedIsLost(sys: System, hs: seq<Happening>)
    requires SystemOk(sys) && AllPossible(sys, hs)
    ensures SystemOk(RunAll(sys, hs)) && Kept(RunAll(sys, hs), PromisedAll(sys, hs))
  {
    hide SystemOk, Kept, Next, Promised, Possible;
    if hs == [] {
      NothingPromised(sys);
    } else {
      var n := |hs| - 1;
      forall k | 0 <= k < n ensures Possible(RunAll(sys, hs[..n][..k]), hs[..n][k]) {
        assert hs[..n][..k] == hs[..k];
      }
      NothingPromisedIsLost(sys, hs[..n]);
      assert Possible(RunAll(sys, hs[..n]), hs[n]);
      HappeningKeeps(RunAll(sys, hs[..n]), PromisedAll(sys, hs[..n]), hs[n]);
    }
  }

  lemma NothingPromised(sys: System)
    requires SystemOk(sys)
    ensures Kept(sys, map[])
  {
  }

  /** A machine with no spool file yet is where runs begin. */
  lemma EmptySystemOk()
    ensures SystemOk(System(map[], Disk([], Dir(None, None), Dir(None, None), [])))
  {
    var d := Disk([], Dir(None, None), Dir(None, None), []);
    assert Versions(d)[0] == Dir(None, None);
    forall s | Reopens(d, s) ensures WellFormed(s) {
      var k :| 0 <= k <= |d.pending| && Snapshot(d, Versions(d)[k]) == s;
    }
  }

  // ----- memory and disk

  /** The entries without their attempt counts, which deliveries raise in memory only. */
  function Bare(s: Spool): (b: Spool)
    ensures b.Keys == s.Keys
  {
    map id | id in s :: s[id].(attempts := 0)
  }

  lemma DeliveryKeepsBare(s: Spool, now: u64)
    ensures Bare(Delivered(s, now)) == Bare(s)
  {
    hide NextReady;
    var id := NextReady(s, now);
    if id.Some? {
      assert Attempted(s, id.value).Keys == s.Keys;
    }
  }

  /** What a crash could bring back after one more happening, given what it could before. */
  function RecoverableAfter(sys: System, before: set<Spool>, h: Happening): (after: set<Spool>) {
    match h
    case Call(request, fault) =>
      var c := Candidate(sys.spool, request);
      if c.Err? || fault.steps < 4 then before
      else if fault.steps == 4 then before + {Bare(c.value)}
      else {Bare(c.value)}
    case Crash(_, _) => {Bare(Next(sys, h).spool)}
    case _ => before
  }

  /**
   * What a crash could bring back after a run: the entries of the last save that succeeded, or of the last crash, and
   * those of the saves since that stopped between the rename and the sync of the directory.
   */
  function Recoverable(sys: System, hs: seq<Happening>): (r: set<Spool>) {
    if hs == [] then {Bare(sys.spool)}
    else RecoverableAfter(RunAll(sys, hs[..|hs| - 1]), Recoverable(sys, hs[..|hs| - 1]), hs[|hs| - 1])
  }

  /** Memory is one of these, and they are exactly what reopening can find, attempt counts aside. */
  ghost predicate Matches(sys: System, r: set<Spool>)
    requires DiskOk(sys.disk)
  {
    Bare(sys.spool) in r && forall b :: b in r <==> exists t :: Reopens(sys.disk, t) && Bare(t) == b
  }

  lemma MatchesOne(sys: System, s: Spool)
    requires DiskOk(sys.disk) && Bare(sys.spool) == Bare(s) && forall t :: Reopens(sys.disk, t) <==> t == s
    ensures Matches(sys, {Bare(s)})
  {
    hide Reopens, DiskOk, Bare;
  }

  lemma CallMatches(sys: System, r: set<Spool>, request: Request, fault: Fault)
    requires SystemOk(sys) && ValidRequest(request) && Matches(sys, r)
    ensures DiskOk(Next(sys, Call(request, fault)).disk)
    ensures Matches(Next(sys, Call(request, fault)), RecoverableAfter(sys, r, Call(request, fault)))
  {
    hide WellFormed, DiskOk, Reopens, Stage, Encode, Candidate, Bare;
    var c := Candidate(sys.spool, request);
    if c.Ok? {
      CandidateWellFormed(sys.spool, request);
      var d := Stage(sys.disk, Encode(c.value), fault);
      forall t ensures DiskOk(d) && (Reopens(d, t) <==>
          if fault.steps < 4 then Reopens(sys.disk, t) else if fault.steps == 4 then Reopens(sys.disk, t) || t == c.value else t == c.value) {
        SaveIsAtomic(sys.disk, c.value, fault, t);
      }
      forall b ensures b in RecoverableAfter(sys, r, Call(request, fault)) <==> exists t :: Reopens(d, t) && Bare(t) == b {
        if fault.steps >= 4 && b == Bare(c.value) {
          assert Reopens(d, c.value);
        } else if fault.steps <= 4 && b in r {
          var t :| Reopens(sys.disk, t) && Bare(t) == b;
          assert Reopens(d, t);
        }
      }
    }
  }

  lemma HappeningMatches(sys: System, r: set<Spool>, h: Happening)
    requires SystemOk(sys) && Possible(sys, h) && Matches(sys, r)
    ensures DiskOk(Next(sys, h).disk) && Matches(Next(sys, h), RecoverableAfter(sys, r, h))
  {
    hide WellFormed, DiskOk, Reopens, Delivered, Snapshot, DirOk, Candidate, Stage, Bare;
    match h
    case Call(request, fault) => CallMatches(sys, r, request, fault);
    case Deliver(now) => DeliveryKeepsBare(sys.spool, now);
    case Restart => LiveReopens(sys.disk);
    case Crash(choice, garbage) =>
      CrashChooses(sys.disk, choice, garbage);
      MatchesOne(Next(sys, h), Next(sys, h).spool);
  }

  /**
   * Memory and disk over whole runs: beginning with a disk that holds what memory does, reopening finds exactly the
   * recoverable entries, attempt counts aside, and what memory holds is always among them.
   */
  lemma {:induction false} ReopensExactly(sys: System, hs: seq<Happening>)
    requires SystemOk(sys) && AllPossible(sys, hs) && Matches(sys, {Bare(sys.spool)})
    ensures SystemOk(RunAll(sys, hs)) && Matches(RunAll(sys, hs), Recoverable(sys, hs))
  {
    hide SystemOk, Matches, Next, Possible, RecoverableAfter, Kept;
    if hs != [] {
      var n := |hs| - 1;
      forall k | 0 <= k < n ensures Possible(RunAll(sys, hs[..n][..k]), hs[..n][k]) {
        assert hs[..n][..k] == hs[..k];
      }
      ReopensExactly(sys, hs[..n]);
      assert Possible(RunAll(sys, hs[..n]), hs[n]);
      HappeningMatches(RunAll(sys, hs[..n]), Recoverable(sys, hs[..n]), hs[n]);
      NothingPromisedIsLost(sys, hs);
    }
  }

  /**
   * One call after any run that ended settled: whether it succeeds, fails or is cut short, reopening finds the entries
   * of memory from before the call or those it asked for; only the latter once it has reported success.
   */
  lemma CallIsAtomic(sys: System, hs: seq<Happening>, request: Request, fault: Fault, t: Spool)
    requires SystemOk(sys) && AllPossible(sys, hs) && Matches(sys, {Bare(sys.spool)}) && ValidRequest(request)
    requires var before := RunAll(sys, hs); Recoverable(sys, hs) == {Bare(before.spool)} && Candidate(before.spool, request).Ok?
    ensures var before := RunAll(sys, hs);
      var after := Next(before, Call(request, fault));
      && DiskOk(after.disk)
      && (Reopens(after.disk, t) ==> Bare(t) == Bare(before.spool) || Bare(t) == Bare(Candidate(before.spool, request).value))
      && (Reopens(after.disk, t) && fault.steps < 4 ==> Bare(t) == Bare(before.spool))
      && (Reopens(after.disk, t) && fault.steps >= ALL_STEPS ==> Bare(t) == Bare(after.spool) == Bare(Candidate(before.spool, request).value))
  {
    hide SystemOk, Next, Candidate, Reopens, DiskOk, Bare, RunAll, Recoverable, AllPossible, ValidRequest;
    ReopensExactly(sys, hs);
    OneCall(RunAll(sys, hs), request, fault, t);
  }

  lemma OneCall(sys: System, request: Request, fault: Fault, t: Spool)
    requires SystemOk(sys) && Matches(sys, {Bare(sys.spool)}) && ValidRequest(request) && Candidate(sys.spool, request).Ok?
    ensures var after := Next(sys, Call(request, fault));
      && DiskOk(after.disk)
      && (Reopens(after.disk, t) ==> Bare(t) == Bare(sys.spool) || Bare(t) == Bare(Candidate(sys.spool, request).value))
      && (Reopens(after.disk, t) && fault.steps < 4 ==> Bare(t) == Bare(sys.spool))
      && (Reopens(after.disk, t) && fault.steps >= ALL_STEPS ==> Bare(t) == Bare(after.spool) == Bare(Candidate(sys.spool, request).value))
  {
    hide Candidate, Reopens, DiskOk, Bare, Stage, Encode, WellFormed;
    CallMatches(sys, {Bare(sys.spool)}, request, fault);
    var after := Next(sys, Call(request, fault));
    if Reopens(after.disk, t) {
      assert Bare(t) in RecoverableAfter(sys, {Bare(sys.spool)}, Call(request, fault));
    }
  }

  lemma EmptySystemMatches()
    ensures SystemOk(System(map[], Disk([], Dir(None, None), Dir(None, None), [])))
    ensures var sys := System(map[], Disk([], Dir(None, None), Dir(None, None), [])); Matches(sys, {Bare(sys.spool)})
  {
    hide SystemOk, Matches;
    EmptySystemOk();
    var d := Disk([], Dir(None, None), Dir(None, None), []);
    EmptyReopens();
    MatchesOne(System(map[], d), map[]);
  }

  lemma EmptyReopens()
    ensures var d := Disk([], Dir(None, None), Dir(None, None), []); DiskOk(d) && forall t :: Reopens(d, t) <==> t == map[]
  {
    var d := Disk([], Dir(None, None), Dir(None, None), []);
    assert Versions(d)[0] == Dir(None, None);
    assert Snapshot(d, Versions(d)[0]) == map[];
  }
}
