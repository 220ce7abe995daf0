/** Exactly which messages and envelopes can be sent. */
module Acceptance {
  import opened ByteStrings
  import opened Vocabulary
  import opened Results
  import opened Cbor
  import opened CborEncoding
  import opened Fields
  import opened Sequences
  import C = Cose
  import E = Events
  import F = FlatMessages
  import M = Messages
  import R = Requests
  import Sorting

  // ----- any listing of fields

  /** A listing's fields as they are sent: in key order, each value in normal form. */
  function Sent(entries: seq<Entry>): (es: seq<Entry>)
    ensures |es| == |entries| && Normal(Value.Map(entries)) == Value.Map(es)
  {
    Sorting.ItemsOf(Sorting.Sort(NormalEntries(entries), LengthFirstLt))
  }

  lemma SentIsPermuted(entries: seq<Entry>, i: nat) returns (j: nat, k: nat)
    requires i < |entries|
    ensures j < |entries| && Sent(entries)[i] == NormalEntry(entries[j]).item
    ensures k < |entries| && Sent(entries)[k] == NormalEntry(entries[i]).item
  {
    hide LengthFirstLt, NormalEntries, NormalEntry, Normal, Raw;
    EachNormalEntry(entries);
    var n := NormalEntries(entries);
    var s := Sorting.Sort(n, LengthFirstLt);
    assert s[i] in multiset(n) && n[i] in multiset(s);
    j :| 0 <= j < |n| && n[j] == s[i];
    k :| 0 <= k < |s| && s[k] == n[i];
    assert Sent(entries) == Sorting.ItemsOf(s);
  }

  lemma SentEntryCanonical(e: Entry)
    requires e.key.Unsigned?
    ensures CanonicalEntry(NormalEntry(e).item, 1, DEFAULT_LIMITS) <==> Canonical(Normal(e.value), 1, DEFAULT_LIMITS)
  {
    NormalOfUnsigned(e);
  }

  /** Sorting permutes the values. */
  lemma SentValues(entries: seq<Entry>)
    requires Collect(entries).Ok?
    ensures (forall i :: 0 <= i < |entries| ==> CanonicalEntry(Sent(entries)[i], 1, DEFAULT_LIMITS))
       <==> (forall i :: 0 <= i < |entries| ==> Canonical(Normal(entries[i].value), 1, DEFAULT_LIMITS))
  {
    hide Collect, Canonical, CanonicalEntry, Normal, Sent, NormalEntry;
    if forall i :: 0 <= i < |entries| ==> CanonicalEntry(Sent(entries)[i], 1, DEFAULT_LIMITS) {
      forall i | 0 <= i < |entries| ensures Canonical(Normal(entries[i].value), 1, DEFAULT_LIMITS) {
        var _, k := SentIsPermuted(entries, i);
        DescribedKey(entries, i);
        SentEntryCanonical(entries[i]);
        assert CanonicalEntry(Sent(entries)[k], 1, DEFAULT_LIMITS);
      }
    }
    if forall i :: 0 <= i < |entries| ==> Canonical(Normal(entries[i].value), 1, DEFAULT_LIMITS) {
      forall i | 0 <= i < |entries| ensures CanonicalEntry(Sent(entries)[i], 1, DEFAULT_LIMITS) {
        var j, _ := SentIsPermuted(entries, i);
        DescribedKey(entries, j);
        SentEntryCanonical(entries[j]);
      }
    }
  }

  /** A listing with distinct fields is sent exactly when each value's normal form is within the profile and the whole fits. */
  lemma FieldsSentExactly(entries: seq<Entry>)
    requires Collect(entries).Ok? && |entries| <= DEFAULT_LIMITS.mapEntries
    ensures EncodeEntries(entries).Ok?
       <==> (forall i :: 0 <= i < |entries| ==> Canonical(Normal(entries[i].value), 1, DEFAULT_LIMITS))
            && |Raw(Value.Map(Sent(entries)))| <= DEFAULT_LIMITS.messageBytes
  {
    hide Collect, Encode, Canonical, CanonicalEntries, CanonicalEntry, Raw, Normal, LengthFirstLt, Sent, OwnKeys, Sorting.StrictlyAscending;
    var es := Sent(entries);
    EncodeExactly(Value.Map(entries), Raw(Value.Map(es)));
    if EncodeEntries(entries).Ok? {
      EncodeExactly(Value.Map(entries), EncodeEntries(entries).value);
    }
    MapCanonicalWhen(es, 0);
    SentValues(entries);
    if CanonicalEntries(es, 1, None, DEFAULT_LIMITS) {
      CanonicalEntriesAreStrict(es, 1, None, DEFAULT_LIMITS);
    } else if forall i :: 0 <= i < |es| ==> CanonicalEntry(es[i], 1, DEFAULT_LIMITS) {
      SentIsCanonical(entries);
    }
  }

  lemma DescribedKey(entries: seq<Entry>, i: nat)
    requires Collect(entries).Ok? && i < |entries|
    ensures entries[i].key.Unsigned?
  {
    hide Collect;
    CollectDescribes(entries);
    assert entries[i] in entries;
  }

  lemma SentIsCanonical(entries: seq<Entry>)
    requires Collect(entries).Ok? && forall i :: 0 <= i < |entries| ==> CanonicalEntry(Sent(entries)[i], 1, DEFAULT_LIMITS)
    ensures CanonicalEntries(Sent(entries), 1, None, DEFAULT_LIMITS)
  {
    hide Collect, CanonicalEntries, CanonicalEntry, Raw, Normal, Describes, LengthFirstLt, NormalEntries, Sorting.Sort, Sorting.StrictlyAscending,
      UnderOwnKey, Sorting.ItemsOf;
    StrictStart(entries);
    CollectDescribes(entries);
    SortedStrictly(entries, Collect(entries).value);
    NormalEntriesOwnKeys(entries);
    StrictEntriesAreCanonical(Sorting.Sort(NormalEntries(entries), LengthFirstLt), 1, None, DEFAULT_LIMITS);
  }

  lemma StrictStart(entries: seq<Entry>)
    requires forall i :: 0 <= i < |entries| ==> CanonicalEntry(Sent(entries)[i], 1, DEFAULT_LIMITS)
    ensures var s := Sorting.Sort(NormalEntries(entries), LengthFirstLt);
      |s| == |entries| && Sent(entries) == Sorting.ItemsOf(s) && forall i :: 0 <= i < |s| ==> CanonicalEntry(s[i].item, 1, DEFAULT_LIMITS)
  {
    hide CanonicalEntry, NormalEntries, LengthFirstLt, Sorting.Sort;
    var s := Sorting.Sort(NormalEntries(entries), LengthFirstLt);
    assert forall i :: 0 <= i < |s| ==> Sent(entries)[i] == s[i].item;
  }

  lemma {:induction false} EntriesWithin(es: seq<Entry>, most: nat)
    requires forall i :: 0 <= i < |es| ==> |Raw(es[i].key)| + |Raw(es[i].value)| <= most
    ensures |RawEntries(es)| <= |es| * most
  {
    hide Raw;
    if es != [] {
      EntriesWithin(es[1..], most);
      assert |es| * most == (|es| - 1) * most + most;
    }
  }

  /** A short listing of small fields fits any message. */
  lemma SmallFits(entries: seq<Entry>, most: nat)
    requires Collect(entries).Ok? && |entries| <= 20
    requires forall i :: 0 <= i < |entries| ==> 9 + |Raw(Normal(entries[i].value))| <= most
    ensures |Raw(Value.Map(Sent(entries)))| <= 1 + |entries| * most
  {
    hide Collect, Raw, Normal, Sent, NormalEntry;
    var es := Sent(entries);
    forall i | 0 <= i < |es| ensures |Raw(es[i].key)| + |Raw(es[i].value)| <= most {
      var j, k := SentIsPermuted(entries, i);
      DescribedKey(entries, j);
      NormalOfUnsigned(entries[j]);
      KeySize(entries[j].key);
    }
    EntriesWithin(es, most);
    SmallMap(es);
  }

  lemma KeySize(key: Value)
    requires key.Unsigned?
    ensures |Raw(key)| <= 9
  {
  }

  lemma SmallMap(es: seq<Entry>)
    requires |es| <= 20
    ensures |Raw(Value.Map(es))| == 1 + |RawEntries(es)|
  {
  }

  /** Values that are sent as they are, and how long they are then. */
  lemma Plain(v: Value, most: nat)
    requires v.Unsigned? || (v.Negative? && v.i < 0) || (v.ByteString? && |v.bytes| <= most <= 65_536) || (v.TextString? && |v.utf8| <= most <= 16_384)
    ensures Normal(v) == v && Canonical(v, 1, DEFAULT_LIMITS) && |Raw(v)| <= 9 + most
  {
  }

  // ----- contexts

  /** A context is sent exactly when its texts are within their bounds. */
  lemma ContextSentExactly(x: M.ApprovalContext)
    ensures M.ContextBytes(x).Ok? <==> 1 <= |x.rpId| <= 253 && 1 <= |x.origin| <= 255
  {
    hide M.ContextFrom, Collect, EncodeEntries, Consecutive, M.ContextValues, Canonical, Raw, Normal;
    var values := M.ContextValues(x);
    var entries := Consecutive(1, values);
    ConsecutiveCollects(1, values);
    M.ContextFromComplete(x);
    if M.ValidContext(x) {
      ContextIsPlain(x);
      FieldsSentExactly(entries);
      SmallFits(entries, 300);
    }
  }

  lemma ContextIsPlain(x: M.ApprovalContext)
    requires M.ValidContext(x)
    ensures forall i :: 0 <= i < 11 ==> var v := M.ContextValues(x)[i];
      Normal(v) == v && Canonical(v, 1, DEFAULT_LIMITS) && 9 + |Raw(v)| <= 300
  {
    hide Canonical, Raw, Normal;
    forall i | 0 <= i < 11 ensures var v := M.ContextValues(x)[i]; Normal(v) == v && Canonical(v, 1, DEFAULT_LIMITS) && 9 + |Raw(v)| <= 300 {
      Plain(M.ContextValues(x)[i], 255);
    }
  }

  // ----- lifecycle events

  /** An event is sent exactly when it has a predecessor unless it is the first. */
  lemma EventSentExactly(x: E.LifecycleEvent)
    ensures E.EventBytes(x).Ok? <==> (x.sequence == 0 <==> x.previous.None?)
  {
    hide E.EventFrom, Collect, EncodeEntries, E.EventEntries, E.EventFields, Canonical, Raw, Normal;
    E.EventCollects(x);
    EventReads(x);
    EventIsPlain(x);
    FieldsSentExactly(E.EventEntries(x));
    SmallFits(E.EventEntries(x), 60);
  }

  lemma EventReads(x: E.LifecycleEvent)
    ensures E.EventFrom(E.EventFields(x)) == Ok(x)
  {
    hide E.EventFields, Required, RequiredUnsigned, RequiredSigned, RequiredBytes, RequiredBounded, RejectUnknown, Version;
    forall k: u64 ensures k in E.EventFields(x) <==> E.FieldAt(x, k).Some? {
      E.EventFieldsAt(x, k);
    }
    forall k: u64 | k in E.EventFields(x) ensures E.EventFields(x)[k] == E.FieldAt(x, k).value {
      E.EventFieldsAt(x, k);
    }
    M.SignedInjective(E.EventFields(x), 8, x.occurredUtc);
  }

  lemma EventIsPlain(x: E.LifecycleEvent)
    ensures |E.EventEntries(x)| <= 10
    ensures forall i :: 0 <= i < |E.EventEntries(x)| ==> var v := E.EventEntries(x)[i].value;
      Normal(v) == v && Canonical(v, 1, DEFAULT_LIMITS) && 9 + |Raw(v)| <= 60
  {
    hide Canonical, Raw, Normal;
    var entries := E.EventEntries(x);
    forall i | 0 <= i < |entries| ensures var v := entries[i].value; Normal(v) == v && Canonical(v, 1, DEFAULT_LIMITS) && 9 + |Raw(v)| <= 60 {
      Plain(entries[i].value, 32);
    }
  }

  // ----- decision submissions

  /** A submission is sent exactly when its context may be, and its byte strings are within their bounds. */
  lemma SubmissionSentExactly(x: E.Submission)
    ensures E.SubmissionBytes(x).Ok?
       <==> M.ValidContext(x.context) && 1 <= |x.credentialId| <= 1024 && 1 <= |x.authenticatorData| <= 512
            && 1 <= |x.clientDataJson| <= 4096 && 1 <= |x.signature| <= 512 && (x.userHandle.Some? ==> |x.userHandle.value| <= 256)
  {
    hide E.SubmissionFrom, Collect, EncodeEntries, Consecutive, E.SubmissionValues, Canonical, Raw, Normal;
    var values := E.SubmissionValues(x);
    ConsecutiveCollects(1, values);
    SubmissionReads(x);
    if E.SubmissionFrom(Block(1, values)).Ok? {
      SubmissionIsSmall(x);
      FieldsSentExactly(Consecutive(1, values));
      SmallFits(Consecutive(1, values), 4200);
    }
  }

  predicate SubmissionBounds(x: E.Submission) {
    && M.ValidContext(x.context) && 1 <= |x.credentialId| <= 1024 && 1 <= |x.authenticatorData| <= 512
    && 1 <= |x.clientDataJson| <= 4096 && 1 <= |x.signature| <= 512 && (x.userHandle.Some? ==> |x.userHandle.value| <= 256)
  }

  lemma SubmissionReads(x: E.Submission)
    ensures E.SubmissionFrom(Block(1, E.SubmissionValues(x))).Ok? <==> SubmissionBounds(x)
  {
    hide RequiredBounded, RejectUnknown, Version, Block, FieldsOf, M.ContextFrom, M.ContextToCbor, Required, Normal, M.ContextFields;
    var values := E.SubmissionValues(x);
    var m := Block(1, values);
    forall k: u64 | 1 <= k <= |values| ensures k in m && m[k] == values[k - 1] {
    }
    E.ContextValueNormal(x.context);
    M.ContextFromComplete(x.context);
    BoundedExactly(m, 3, 1, 1024);
    BoundedExactly(m, 4, 1, 512);
    BoundedExactly(m, 5, 1, 4096);
    BoundedExactly(m, 6, 1, 512);
    BoundedExactly(m, 7, 0, 256);
    assert Required(m, 2) == Ok(values[1]);
  }

  lemma BoundedExactly(m: FieldMap, k: u64, least: nat, most: nat)
    ensures RequiredBounded(m, k, least, most).Ok? <==> k in m && m[k].ByteString? && least <= |m[k].bytes| <= most
  {
  }

  lemma ContextSize(x: M.ApprovalContext)
    requires M.ValidContext(x)
    ensures Normal(M.ContextToCbor(x)) == M.ContextToCbor(x) && Canonical(M.ContextToCbor(x), 1, DEFAULT_LIMITS)
    ensures |Raw(M.ContextToCbor(x))| <= 4000
  {
    hide Collect, Consecutive, M.ContextValues, Canonical, Raw, Normal, Sent;
    var values := M.ContextValues(x);
    var entries := Consecutive(1, values);
    E.ContextValueNormal(x);
    ConsecutiveCollects(1, values);
    ContextIsPlain(x);
    SmallFits(entries, 300);
    PlainDeeper(x);
    ConsecutiveCanonical(1, values, 1);
  }

  lemma PlainDeeper(x: M.ApprovalContext)
    requires M.ValidContext(x)
    ensures forall i :: 0 <= i < 11 ==> Canonical(M.ContextValues(x)[i], 2, DEFAULT_LIMITS)
  {
  }

  lemma SubmissionIsSmall(x: E.Submission)
    requires SubmissionBounds(x)
    ensures forall i :: 0 <= i < |E.SubmissionValues(x)| ==> var v := E.SubmissionValues(x)[i];
      Normal(v) == v && Canonical(v, 1, DEFAULT_LIMITS) && 9 + |Raw(v)| <= 4200
  {
    hide Canonical, Raw, Normal, M.ContextToCbor;
    ContextSize(x.context);
    var values := E.SubmissionValues(x);
    forall i | 0 <= i < |values| ensures var v := values[i]; Normal(v) == v && Canonical(v, 1, DEFAULT_LIMITS) && 9 + |Raw(v)| <= 4200 {
      if i != 1 {
        Plain(values[i], 4096);
      }
    }
  }

  // ----- requests

  predicate RequestBounds(x: R.Request) {
    x.frozenPlan.Map? && x.createdUtc <= x.expiresUtc && (x.agentNote.Some? ==> |x.agentNote.value| <= 512)
  }

  /** A request is sent exactly when it expires no earlier than it was created, its plan is a map within the profile, its note is short, and it fits. */
  lemma RequestSentExactly(x: R.Request)
    ensures R.RequestBytes(x).Ok?
       <==> RequestBounds(x) && Canonical(Normal(x.frozenPlan), 1, DEFAULT_LIMITS)
            && |Raw(Value.Map(Sent(R.RequestEntries(x))))| <= DEFAULT_LIMITS.messageBytes
  {
    hide R.RequestFrom, Collect, EncodeEntries, R.RequestEntries, R.RequestFields, Canonical, Raw, Normal, Sent;
    R.RequestCollects(x);
    RequestReads(x);
    if RequestBounds(x) {
      RequestIsPlain(x);
      FieldsSentExactly(R.RequestEntries(x));
      assert R.RequestEntries(x)[16].value == x.frozenPlan;
    }
  }

  lemma RequestReads(x: R.Request)
    ensures R.RequestFrom(R.RequestFields(x)).Ok? <==> RequestBounds(x)
  {
    hide R.RequestFields, R.RequestFirst, R.RequestRest, RejectUnknown, Version, R.RequestHead, R.RequestTail;
    var m := R.RequestFields(x);
    if R.RequestFrom(m).Ok? {
      R.RequestReadsBack(x);
      NoteOf(x);
    } else {
      forall k: u64 ensures (k in m <==> R.FieldAt(x, k).Some?) && (k in m ==> m[k] == R.FieldAt(x, k).value) {
        R.RequestFieldsAt(x, k);
      }
      VersionReads(x, m);
      FirstReads(x, m);
      if RequestBounds(x) {
        RestReads(x, m, R.RequestFirst(m).value);
      }
    }
  }

  lemma VersionReads(x: R.Request, m: FieldMap)
    requires forall k: u64 :: (k in m <==> R.FieldAt(x, k).Some?) && (k in m ==> m[k] == R.FieldAt(x, k).value)
    ensures Version(m).Ok? && RejectUnknown(m, {1, 2, 3, 4, 5, 6, 7, 8, 9, 10, 11, 12, 13, 14, 15, 16, 17, 18}).Ok?
  {
    hide R.InputToCbor;
    assert 1 in m && m[1] == Unsigned(VERSION);
  }

  lemma FirstReads(x: R.Request, m: FieldMap)
    requires forall k: u64 :: (k in m <==> R.FieldAt(x, k).Some?) && (k in m ==> m[k] == R.FieldAt(x, k).value)
    ensures R.RequestFirst(m)
         == Ok(R.FirstHalf(x.requestId, x.deviceId, x.brokerEpoch, x.generation, x.createdUtc, x.expiresUtc, x.bootId, x.deadline))
  {
    hide R.InputToCbor, R.RequestTail;
    assert 2 in m && 3 in m && 4 in m && 5 in m && 6 in m && 7 in m && 8 in m && 9 in m;
    M.SignedInjective(m, 6, x.createdUtc);
    M.SignedInjective(m, 7, x.expiresUtc);
  }

  lemma RestReads(x: R.Request, m: FieldMap, f: R.FirstHalf)
    requires forall k: u64 :: (k in m <==> R.FieldAt(x, k).Some?) && (k in m ==> m[k] == R.FieldAt(x, k).value)
    requires RequestBounds(x) && f.createdUtc <= f.expiresUtc
    ensures R.RequestRest(m, f).Ok?
  {
    hide R.InputToCbor, R.InputFrom, R.RequestHead;
    assert 10 in m && 11 in m && 12 in m && 13 in m && 14 in m && 15 in m && 16 in m && 17 in m;
    R.InputReadsBack(x.operationInput);
  }

  lemma NoteOf(x: R.Request)
    requires R.RequestFrom(R.RequestFields(x)).Ok?
    ensures x.agentNote.Some? ==> |x.agentNote.value| <= 512
  {
    hide R.RequestFields, R.RequestFirst, R.InputFrom, RejectUnknown, Version, R.RequestHead, RequiredUnsigned, RequiredBytes, Required;
    R.RequestFieldsAt(x, 18);
  }

  lemma RequestIsPlain(x: R.Request)
    requires RequestBounds(x)
    ensures 16 < |R.RequestEntries(x)| <= 18 && R.RequestEntries(x)[16].value == x.frozenPlan
    ensures forall i :: 0 <= i < |R.RequestEntries(x)| && i != 16 ==> Canonical(Normal(R.RequestEntries(x)[i].value), 1, DEFAULT_LIMITS)
  {
    hide Canonical, Raw, Normal, R.InputToCbor;
    var entries := R.RequestEntries(x);
    InputIsSmall(x.operationInput);
    forall i | 0 <= i < |entries| && i != 16 ensures Canonical(Normal(entries[i].value), 1, DEFAULT_LIMITS) {
      if i != 12 {
        Plain(entries[i].value, 512);
      }
    }
  }

  lemma InputIsSmall(name: R.PackageName)
    ensures Normal(R.InputToCbor(name)) == R.InputToCbor(name) && Canonical(R.InputToCbor(name), 1, DEFAULT_LIMITS)
  {
    hide Consecutive, Canonical, Normal, Collect;
    R.InputReadsBack(name);
    ShortText(name);
    ConsecutiveCanonical(1, [TextString(name)], 1);
  }

  lemma ShortText(name: R.PackageName)
    ensures Canonical(TextString(name), 2, DEFAULT_LIMITS)
  {
  }

  // ----- flat messages

  /** A receipt completes no earlier than it was created, and a keyset expires after it was issued. */
  predicate InStep(s: F.Schema, x: F.Message) {
    && (s.Receipt? ==> |x| == 11 && x[8].T? && x[9].T? && x[8].i <= x[9].i)
    && (s.ServiceKeyset? ==> |x| == 5 && x[1].T? && x[4].T? && x[1].i < x[4].i)
  }

  lemma InStepExactly(s: F.Schema, x: F.Message)
    requires F.AllFit(x, F.Kinds(s))
    ensures F.Check(s, x).Ok? <==> InStep(s, x)
  {
    if s.Receipt? {
      assert F.Fits(x[8], F.Time) && F.Fits(x[9], F.Time);
    } else if s.ServiceKeyset? {
      assert F.Fits(x[1], F.Time) && F.Fits(x[4], F.Time);
    }
  }

  /** A message of a table is sent exactly when its parts are within the table's bounds, the check between fields passes, its nested values are within the profile, and it fits. */
  lemma FlatSentExactly(s: F.Schema, x: F.Message)
    requires F.Shaped(s, x)
    ensures |x| <= 11
    ensures F.MessageBytes(s, x).Ok?
       <==> F.AllFit(x, F.Kinds(s)) && InStep(s, x)
            && (forall i :: 0 <= i < |x| ==> Canonical(Normal(F.ValueOf(x[i])), 1, DEFAULT_LIMITS))
            && |Raw(Value.Map(Sent(Consecutive(1, F.Values(x)))))| <= DEFAULT_LIMITS.messageBytes
  {
    hide F.Validate, Collect, EncodeEntries, Consecutive, F.Values, F.ValueOf, F.Kinds, F.Fits, F.Check, Canonical, Raw, Normal, Sent;
    var values := F.Values(x);
    var entries := Consecutive(1, values);
    ConsecutiveCollects(1, values);
    F.ValidMessage(s, x);
    if F.AllFit(x, F.Kinds(s)) {
      InStepExactly(s, x);
    }
    FieldsSentExactly(entries);
    Plain(Unsigned(VERSION), 0);
    assert entries[0].value == Unsigned(VERSION);
    forall i | 0 <= i < |x| ensures entries[i + 1].value == F.ValueOf(x[i]) {
      assert values[i + 1] == F.ValueOf(x[i]);
    }
    if forall i :: 0 <= i < |x| ==> Canonical(Normal(F.ValueOf(x[i])), 1, DEFAULT_LIMITS) {
      forall i | 0 <= i < |entries| ensures Canonical(Normal(entries[i].value), 1, DEFAULT_LIMITS) {
        assert i > 0 ==> entries[(i - 1) + 1].value == F.ValueOf(x[i - 1]);
      }
    }
    if forall i :: 0 <= i < |entries| ==> Canonical(Normal(entries[i].value), 1, DEFAULT_LIMITS) {
      forall i | 0 <= i < |x| ensures Canonical(Normal(F.ValueOf(x[i])), 1, DEFAULT_LIMITS) {
        assert Canonical(Normal(entries[i + 1].value), 1, DEFAULT_LIMITS);
      }
    }
  }

  // ----- envelopes

  /** A protected header exists exactly for key ids of 8 to 32 bytes. */
  lemma HeaderSentExactly(kid: Bytes, contentType: u64)
    ensures C.ProtectedBytes(kid, contentType).Ok? <==> 8 <= |kid| <= 32
  {
    hide Collect, Encode, Canonical, Raw, Normal, Sent;
    var entries := C.ProtectedEntries(kid, contentType);
    C.ProtectedCollects(kid, contentType);
    if 8 <= |kid| <= 32 {
      forall i | 0 <= i < 3 ensures Canonical(Normal(entries[i].value), 1, DEFAULT_LIMITS) && 9 + |Raw(Normal(entries[i].value))| <= 60 {
        Plain(entries[i].value, 32);
      }
      FieldsSentExactly(entries);
      SmallFits(entries, 60);
    }
  }

  /** An envelope is sent exactly when its key id is in bounds, its header is the one for its key id and content type, and its payload is at most 65,536 bytes. */
  lemma EnvelopeSentExactly(x: C.CoseSign1)
    ensures C.EncodeSign1(x).Ok?
       <==> 8 <= |x.kid| <= 32 && C.ProtectedBytes(x.kid, x.contentType) == Ok(x.protected) && |x.payload| <= 65_536
  {
    hide C.ProtectedBytes, Encode, Normal, C.EnvelopeValue, Canonical, Raw;
    HeaderSentExactly(x.kid, x.contentType);
    var v := C.EnvelopeValue(x.protected, x.payload, x.signature);
    C.EnvelopeIsNormal(x.protected, x.payload, x.signature);
    EncodeExactly(v, Raw(v));
    if Encode(v).Ok? {
      EncodeExactly(v, Encode(v).value);
    }
    if C.ProtectedBytes(x.kid, x.contentType) == Ok(x.protected) {
      HeaderSize(x.kid, x.contentType);
      EnvelopeCanonical(x.protected, x.payload, x.signature);
    }
  }

  lemma HeaderSize(kid: Bytes, contentType: u64)
    requires C.ProtectedBytes(kid, contentType).Ok?
    ensures |C.ProtectedBytes(kid, contentType).value| <= 200
  {
    hide Collect, Encode, Canonical, Raw, Normal, Sent;
    var entries := C.ProtectedEntries(kid, contentType);
    C.ProtectedCollects(kid, contentType);
    EncodeExactly(Value.Map(entries), Encode(Value.Map(entries)).value);
    forall i | 0 <= i < 3 ensures 9 + |Raw(Normal(entries[i].value))| <= 60 {
      Plain(entries[i].value, 32);
    }
    SmallFits(entries, 60);
  }

  lemma FourItems(a: Value, b: Value, c: Value, d: Value)
    ensures CanonicalItems([a, b, c, d], 2, DEFAULT_LIMITS)
       <==> Canonical(a, 2, DEFAULT_LIMITS) && Canonical(b, 2, DEFAULT_LIMITS) && Canonical(c, 2, DEFAULT_LIMITS) && Canonical(d, 2, DEFAULT_LIMITS)
    ensures |RawItems([a, b, c, d])| == |Raw(a)| + |Raw(b)| + |Raw(c)| + |Raw(d)|
  {
    hide Canonical, Raw;
    assert [a, b, c, d][1..] == [b, c, d] && [b, c, d][1..] == [c, d] && [c, d][1..] == [d] && [d][1..] == [];
    assert CanonicalItems([d], 2, DEFAULT_LIMITS) <==> Canonical(d, 2, DEFAULT_LIMITS);
    assert CanonicalItems([c, d], 2, DEFAULT_LIMITS) <==> Canonical(c, 2, DEFAULT_LIMITS) && Canonical(d, 2, DEFAULT_LIMITS);
    assert |RawItems([d])| == |Raw(d)|;
    assert |RawItems([c, d])| == |Raw(c)| + |Raw(d)|;
    assert |RawItems([b, c, d])| == |Raw(b)| + |Raw(c)| + |Raw(d)|;
  }

  lemma BytesSize(b: Bytes)
    requires |b| < U64_LIMIT
    ensures |Raw(ByteString(b))| <= 9 + |b|
    ensures Canonical(ByteString(b), 2, DEFAULT_LIMITS) <==> |b| <= 65_536
  {
  }

  lemma TaggedArray(items: seq<Value>)
    requires |items| == 4
    ensures Canonical(Tag(SIGN1_TAG, Array(items)), 0, DEFAULT_LIMITS) <==> CanonicalItems(items, 2, DEFAULT_LIMITS)
    ensures |Raw(Tag(SIGN1_TAG, Array(items)))| == 2 + |RawItems(items)|
  {
    hide CanonicalItems, RawItems;
  }

  lemma EnvelopeCanonical(protected: Bytes, payload: Bytes, signature: C.Signature)
    requires |protected| <= 200
    ensures Canonical(C.EnvelopeValue(protected, payload, signature), 0, DEFAULT_LIMITS) <==> |payload| <= 65_536
    ensures |payload| <= 65_536 ==> |Raw(C.EnvelopeValue(protected, payload, signature))| <= 400 + |payload|
  {
    hide Canonical, Raw, CanonicalItems, RawItems;
    var items := [ByteString(protected), Value.Map([]), ByteString(payload), ByteString(signature)];
    TaggedArray(items);
    FourItems(items[0], items[1], items[2], items[3]);
    BytesSize(protected);
    BytesSize(signature);
    EmptyMap();
    if |payload| < U64_LIMIT {
      BytesSize(payload);
    } else {
      TooLong(payload);
    }
  }

  lemma EmptyMap()
    ensures Canonical(Value.Map([]), 2, DEFAULT_LIMITS) && |Raw(Value.Map([]))| == 1
  {
  }

  lemma TooLong(b: Bytes)
    requires |b| > 65_536
    ensures !Canonical(ByteString(b), 2, DEFAULT_LIMITS)
  {
  }
}
