/** What each request to the relay's spool does to its entries, and what over whole runs is gone for good. */
module RelayOutcomes {
  import opened ByteStrings
  import opened Results
  import opened SpoolCodec
  import opened RelaySpool

  // ----- one request

  /** `c` is `s` but for the entry under this identifier. */
  ghost predicate SameElsewhere(s: Spool, c: Spool, id: EnvelopeId) {
    forall other: EnvelopeId :: other != id ==> (other in c <==> other in s) && (other in s ==> c[other] == s[other])
  }

  /** A new envelope enters under its own identifier, untried and ready at once, and disturbs no other. */
  lemma EnqueueExactly(s: Spool, e: Envelope, now: u64)
    ensures var c := Candidate(s, Enqueue(e, now));
      if e.id in s then c == Err(DuplicateEnvelopeId)
      else if |s| >= 4_096 then c == Err(MailboxFull)
      else
        && c.Ok? && e.id in c.value && c.value[e.id].envelope == e && c.value[e.id].attempts == 0 && c.value[e.id].nextAttempt == now
        && SameElsewhere(s, c.value, e.id) && Ready(c.value, e.id, now)
  {
  }

  /** An acknowledgement under the envelope's own key removes it, and disturbs no other. */
  lemma AcknowledgeExactly(s: Spool, id: EnvelopeId, key: IdempotencyKey)
    ensures var c := Candidate(s, Acknowledge(id, key));
      if id !in s then c == Err(UnknownEnvelope)
      else if s[id].envelope.key != key then c == Err(AcknowledgementMismatch)
      else c.Ok? && id !in c.value && SameElsewhere(s, c.value, id)
  {
  }

  /** A retry puts the envelope off by the wait its attempts have earned, and changes nothing else; it is not ready before. */
  lemma RetryExactly(s: Spool, id: EnvelopeId, now: u64, at: u64)
    ensures var c := Candidate(s, Retry(id, now));
      if id !in s then c == Err(UnknownEnvelope)
      else
        && c.Ok? && id in c.value && c.value[id].envelope == s[id].envelope && c.value[id].attempts == s[id].attempts
        && c.value[id].nextAttempt == (if now + Backoff(s[id].attempts) < U64_LIMIT then now + Backoff(s[id].attempts) else U64_LIMIT - 1)
        && SameElsewhere(s, c.value, id)
        && (at < now + Backoff(s[id].attempts) && at < U64_LIMIT - 1 ==> !Ready(c.value, id, at))
  {
    hide Backoff;
  }

  /** A delivery counts one attempt on the envelope it hands out, as far as the counter goes, and changes nothing else. */
  lemma DeliverExactly(s: Spool, now: u64)
    ensures match NextReady(s, now)
      case None => Delivered(s, now) == s
      case Some(id) =>
        && id in Delivered(s, now) && Delivered(s, now)[id].envelope == s[id].envelope
        && Delivered(s, now)[id].nextAttempt == s[id].nextAttempt
        && Delivered(s, now)[id].attempts == (if s[id].attempts < 0xffff_ffff then s[id].attempts + 1 else 0xffff_ffff)
        && SameElsewhere(s, Delivered(s, now), id)
  {
    hide NextReady;
  }

  // ----- gone for good

  /** Neither memory nor anything that a crash could bring back holds this identifier. */
  ghost predicate Absent(sys: System, id: EnvelopeId)
    requires DiskOk(sys.disk)
  {
    id !in sys.spool && forall t :: Reopens(sys.disk, t) ==> id !in t
  }

  predicate Enqueues(h: Happening, id: EnvelopeId) {
    h.Call? && h.request.Enqueue? && h.request.envelope.id == id
  }

  lemma CandidateAbsent(s: Spool, request: Request, id: EnvelopeId)
    requires Candidate(s, request).Ok? && id !in s && !(request.Enqueue? && request.envelope.id == id)
    ensures id !in Candidate(s, request).value
  {
    hide Backoff;
  }

  lemma AbsentStays(sys: System, h: Happening, id: EnvelopeId)
    requires SystemOk(sys) && Possible(sys, h) && Absent(sys, id) && !Enqueues(h, id)
    ensures DiskOk(Next(sys, h).disk) && Absent(Next(sys, h), id)
  {
    hide WellFormed, DiskOk, Reopens, Delivered, Snapshot, DirOk, Candidate, Stage, Encode;
    match h
    case Call(request, fault) =>
      var c := Candidate(sys.spool, request);
      if c.Ok? {
        CandidateWellFormed(sys.spool, request);
        CandidateAbsent(sys.spool, request, id);
        forall t ensures DiskOk(Next(sys, h).disk) && (Reopens(Next(sys, h).disk, t) ==> id !in t) {
          SaveIsAtomic(sys.disk, c.value, fault, t);
        }
      }
    case Deliver(now) => DeliverExactly(sys.spool, now);
    case Restart => LiveReopens(sys.disk);
    case Crash(choice, garbage) => CrashChooses(sys.disk, choice, garbage);
  }

  /** The acknowledgement at step `n` of the run reported success. */
  predicate AcknowledgedAt(sys: System, hs: seq<Happening>, n: nat, id: EnvelopeId) {
    && n < |hs| && hs[n].Call? && hs[n].request.Acknowledge? && hs[n].request.id == id
    && Candidate(RunAll(sys, hs[..n]).spool, hs[n].request).Ok? && hs[n].fault.steps >= ALL_STEPS
  }

  lemma AcknowledgementRemoves(sys: System, id: EnvelopeId, key: IdempotencyKey, fault: Fault)
    requires SystemOk(sys) && Candidate(sys.spool, Acknowledge(id, key)).Ok? && fault.steps >= ALL_STEPS
    ensures DiskOk(Next(sys, Call(Acknowledge(id, key), fault)).disk) && Absent(Next(sys, Call(Acknowledge(id, key), fault)), id)
  {
    hide WellFormed, DiskOk, Reopens, Stage, Encode, Candidate;
    var request := Acknowledge(id, key);
    var c := Candidate(sys.spool, request).value;
    CandidateWellFormed(sys.spool, request);
    AcknowledgeExactly(sys.spool, id, key);
    forall t ensures DiskOk(Stage(sys.disk, Encode(c), fault)) && (Reopens(Stage(sys.disk, Encode(c), fault), t) ==> id !in t) {
      SaveIsAtomic(sys.disk, c, fault, t);
    }
  }

  /**
   * The other half of at-least-once: after an acknowledgement that reported success, and whatever happens then, the
   * envelope is in neither memory nor anything a crash can bring back, unless its identifier is enqueued again.
   */
  lemma {:induction false} AcknowledgedIsGone(sys: System, hs: seq<Happening>, n: nat, id: EnvelopeId)
    requires SystemOk(sys) && AllPossible(sys, hs) && AcknowledgedAt(sys, hs, n, id)
    requires forall m :: n < m < |hs| ==> !Enqueues(hs[m], id)
    ensures SystemOk(RunAll(sys, hs)) && Absent(RunAll(sys, hs), id)
    decreases |hs|
  {
    hide SystemOk, Absent, Next, Possible, Candidate, Kept;
    var last := |hs| - 1;
    forall k | 0 <= k <= last ensures hs[..last][..k] == hs[..k] {
    }
    PrefixPossible(sys, hs);
    NothingPromisedIsLost(sys, hs);
    NothingPromisedIsLost(sys, hs[..last]);
    if n == last {
      AcknowledgementRemoves(RunAll(sys, hs[..last]), id, hs[last].request.key, hs[last].fault);
    } else {
      AcknowledgedIsGone(sys, hs[..last], n, id);
      AbsentStays(RunAll(sys, hs[..last]), hs[last], id);
    }
  }

  lemma PrefixPossible(sys: System, hs: seq<Happening>)
    requires AllPossible(sys, hs) && hs != []
    ensures var last := |hs| - 1; AllPossible(sys, hs[..last]) && Possible(RunAll(sys, hs[..last]), hs[last])
  {
    hide Possible, RunAll;
    var last := |hs| - 1;
    forall k | 0 <= k < last ensures Possible(RunAll(sys, hs[..last][..k]), hs[..last][k]) {
      assert hs[..last][..k] == hs[..k];
    }
  }

  // ----- nothing is invented

  /** Step `n` of the run was a request to enqueue this envelope, and was not refused. */
  predicate EnqueuedAt(sys: System, hs: seq<Happening>, n: nat, e: Envelope) {
    && n < |hs| && hs[n].Call? && hs[n].request.Enqueue? && hs[n].request.envelope == e
    && Candidate(RunAll(sys, hs[..n]).spool, hs[n].request).Ok?
  }

  ghost predicate WasEnqueued(sys: System, hs: seq<Happening>, e: Envelope) {
    exists n: nat :: EnqueuedAt(sys, hs, n, e)
  }

  ghost predicate AllEnqueued(sys: System, hs: seq<Happening>, s: Spool) {
    forall id :: id in s ==> s[id].envelope.id == id && WasEnqueued(sys, hs, s[id].envelope)
  }

  lemma EarlierCounts(sys: System, hs: seq<Happening>, h: Happening, e: Envelope)
    ensures WasEnqueued(sys, hs, e) ==> WasEnqueued(sys, hs + [h], e)
  {
    hide RunAll, Candidate;
    if WasEnqueued(sys, hs, e) {
      var n: nat :| EnqueuedAt(sys, hs, n, e);
      assert (hs + [h])[..n] == hs[..n];
      assert EnqueuedAt(sys, hs + [h], n, e);
    }
  }

  lemma AllStay(sys: System, hs: seq<Happening>, h: Happening, s: Spool)
    requires AllEnqueued(sys, hs, s)
    ensures AllEnqueued(sys, hs + [h], s)
  {
    hide WasEnqueued;
    forall id | id in s ensures WasEnqueued(sys, hs + [h], s[id].envelope) {
      EarlierCounts(sys, hs, h, s[id].envelope);
    }
  }

  lemma CandidateEnqueued(sys: System, hs: seq<Happening>, request: Request, fault: Fault)
    requires var before := RunAll(sys, hs); AllEnqueued(sys, hs, before.spool) && Candidate(before.spool, request).Ok?
    ensures AllEnqueued(sys, hs + [Call(request, fault)], Candidate(RunAll(sys, hs).spool, request).value)
  {
    hide RunAll, WasEnqueued, Backoff;
    var s, h := RunAll(sys, hs).spool, Call(request, fault);
    AllStay(sys, hs, h, s);
    if request.Enqueue? {
      JustEnqueued(sys, hs, request, fault);
    }
  }

  lemma JustEnqueued(sys: System, hs: seq<Happening>, request: Request, fault: Fault)
    requires request.Enqueue? && Candidate(RunAll(sys, hs).spool, request).Ok?
    ensures WasEnqueued(sys, hs + [Call(request, fault)], request.envelope)
  {
    hide RunAll, Candidate;
    var all := hs + [Call(request, fault)];
    assert all[..|hs|] == hs;
    assert EnqueuedAt(sys, all, |hs|, request.envelope);
  }

  /** Whatever memory holds, or a crash could bring back, was enqueued by a request of the run, as it was given. */
  lemma {:induction false} HeldWasEnqueued(sys: System, hs: seq<Happening>)
    requires SystemOk(sys) && AllPossible(sys, hs) && sys.spool == map[] && forall t :: Reopens(sys.disk, t) ==> t == map[]
    ensures SystemOk(RunAll(sys, hs)) && AllEnqueued(sys, hs, RunAll(sys, hs).spool)
    ensures forall t :: Reopens(RunAll(sys, hs).disk, t) ==> AllEnqueued(sys, hs, t)
  {
    hide WellFormed, DiskOk, Reopens, Next, Possible, AllEnqueued, Kept;
    if hs == [] {
      NothingHeld(sys);
    } else {
      var n := |hs| - 1;
      PrefixPossible(sys, hs);
      HeldWasEnqueued(sys, hs[..n]);
      NothingPromisedIsLost(sys, hs);
      assert hs[..n] + [hs[n]] == hs;
      OneMoreHeld(sys, hs[..n], hs[n]);
    }
  }

  lemma NothingHeld(sys: System)
    ensures AllEnqueued(sys, [], map[])
  {
  }

  lemma OneMoreHeld(sys: System, hs: seq<Happening>, h: Happening)
    requires SystemOk(RunAll(sys, hs)) && Possible(RunAll(sys, hs), h) && AllEnqueued(sys, hs, RunAll(sys, hs).spool)
    requires forall t :: Reopens(RunAll(sys, hs).disk, t) ==> AllEnqueued(sys, hs, t)
    ensures var after := Next(RunAll(sys, hs), h);
      DiskOk(after.disk) && AllEnqueued(sys, hs + [h], after.spool) && forall t :: Reopens(after.disk, t) ==> AllEnqueued(sys, hs + [h], t)
  {
    hide WellFormed, DiskOk, Reopens, RunAll, AllEnqueued, Delivered, Snapshot, DirOk, Candidate, Stage, Encode;
    var before := RunAll(sys, hs);
    AllStay(sys, hs, h, before.spool);
    forall t | Reopens(before.disk, t) ensures AllEnqueued(sys, hs + [h], t) {
      AllStay(sys, hs, h, t);
    }
    match h
    case Call(request, fault) =>
      var c := Candidate(before.spool, request);
      if c.Ok? {
        CandidateWellFormed(before.spool, request);
        CandidateEnqueued(sys, hs, request, fault);
        SaveIsAtomic(before.disk, c.value, fault, c.value);
        forall t ensures DiskOk(Next(before, h).disk) && (Reopens(Next(before, h).disk, t) ==> Reopens(before.disk, t) || t == c.value) {
          SaveIsAtomic(before.disk, c.value, fault, t);
        }
      }
    case Deliver(now) => DeliveredEnqueued(sys, hs + [h], before.spool, now);
    case Restart => LiveReopens(before.disk);
    case Crash(choice, garbage) => CrashChooses(before.disk, choice, garbage);
  }

  lemma DeliveredEnqueued(sys: System, hs: seq<Happening>, s: Spool, now: u64)
    requires AllEnqueued(sys, hs, s)
    ensures AllEnqueued(sys, hs, Delivered(s, now))
  {
    hide WasEnqueued, NextReady;
    DeliverExactly(s, now);
  }
}
