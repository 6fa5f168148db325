/** One accepted frame is committed to the encrypted store and to the coordinator's own table, or to neither. */
module FrameCommit {
  import opened Basics
  import opened PrivateCodec
  import opened EvidenceModel
  import opened EvidenceSafety
  import opened EvidenceTheorems
  import opened FrameMetadata
  import opened EvidenceStore

  datatype UploadReason =
    | ACCESS_REFUSED | FRAME_SEQUENCE_CONFLICT | FRAME_LIMIT_REACHED | CAPTURE_BYTE_LIMIT_REACHED
    | CAPTURE_FAILED_CLOSED | UPLOAD_FAILED

  datatype UploadReply = Accepted(result: UploadResult) | Rejected(reason: UploadReason)

  /** The session authority refuses to run the commit, runs it, or runs it and then reports the session dead. */
  datatype SessionLive = Ran | NotRun | RanThenReportedDead

  /** `permitted` gathers the permit, state, fence and capability checks on values outside this model. */
  datatype Upload = Upload(
    permitted: bool, epoch: Epoch, env: Env, input: FrameInput, now: real, expiresAt: real,
    fault: FaultPoint, metadataFault: MetadataFault, live: SessionLive)

  function ResultOf(m: Metadata, u: Upload): UploadResult
    requires |m.records| < MAX_CAPTURE_FRAMES
  {
    UploadResult(u.input.frameSeq, |u.input.payload|, |m.records| + 1, MAX_CAPTURE_FRAMES - (|m.records| + 1),
                 m.acceptedBytes + |u.input.payload|)
  }

  function AcceptanceOf(m: Metadata, u: Upload): Acceptance
    requires |m.records| < MAX_CAPTURE_FRAMES
  {
    Acceptance(u.input.frameSeq, u.input.digest, u.now, u.expiresAt, ResultOf(m, u))
  }

  /** The reply to an upload that never reaches the store: refused, or already accepted. */
  function EarlyReply(m: Metadata, u: Upload): (r: Option<UploadReply>)
    ensures r.None? ==> u.input.frameSeq !in m.records && |m.records| < MAX_CAPTURE_FRAMES
                        && m.acceptedBytes + |u.input.payload| <= MAX_CAPTURE_ENCODED_BYTES && u.now < u.expiresAt
  {
    if !u.permitted || u.now >= u.expiresAt || u.now >= m.deadline then Some(Rejected(ACCESS_REFUSED))
    else if u.input.frameSeq in m.records then
      Some(if m.records[u.input.frameSeq].evidence.digest != u.input.digest then Rejected(FRAME_SEQUENCE_CONFLICT)
           else Accepted(m.records[u.input.frameSeq].result))
    else if |m.records| >= MAX_CAPTURE_FRAMES then Some(Rejected(FRAME_LIMIT_REACHED))
    else if m.acceptedBytes + |u.input.payload| > MAX_CAPTURE_ENCODED_BYTES then Some(Rejected(CAPTURE_BYTE_LIMIT_REACHED))
    else None
  }

  function RejectionFor(reason: Reason): UploadReason {
    match reason
    case INTEGRITY_FAILURE => CAPTURE_FAILED_CLOSED
    case INVARIANT_FAILURE => CAPTURE_FAILED_CLOSED
    case ACCESS_DENIED => ACCESS_REFUSED
    case CAPTURE_CLOSED => ACCESS_REFUSED
    case _ => UPLOAD_FAILED
  }

  function StorePut(m: Metadata, s: Store, u: Upload): (Store, Reply)
    requires EarlyReply(m, u).None?
  {
    PutFrame(s, u.epoch, u.env, u.input, u.fault, CommitsMetadata(AcceptanceOf(m, u), u.metadataFault))
  }

  /** The commit itself, run under the session authority's lock. */
  function Commit(m: Metadata, s: Store, u: Upload): (Metadata, Store, UploadReply) {
    if EarlyReply(m, u).Some? then (m, s, EarlyReply(m, u).value)
    else
      var (s', reply) := StorePut(m, s, u);
      match reply
      case StoredFrame(f) => (Committed(m, AcceptanceOf(m, u), f), s', Accepted(ResultOf(m, u)))
      case Refused(reason) => (m, s', Rejected(RejectionFor(reason)))
      case _ => (m, s', Rejected(UPLOAD_FAILED))
  }

  /** What a caller sees; a rejected caller may be told so after the commit was made. */
  function UploadFrame(m: Metadata, s: Store, u: Upload): (Metadata, Store, UploadReply) {
    if u.live.NotRun? then (m, s, Rejected(ACCESS_REFUSED))
    else
      var (m', s', reply) := Commit(m, s, u);
      (m', s', if u.live.Ran? then reply else Rejected(ACCESS_REFUSED))
  }

  // ---------------------------------------------------------------- the two accounts agree

  /** The table lists exactly the store's frames, their digests and their total size. */
  predicate Agrees(m: Metadata, p: Partition) {
    && m.records.Keys == p.frameIdBySeq.Keys
    && (forall q :: q in m.records ==>
          && p.frameIdBySeq[q] in p.evidence && m.records[q].evidence == p.evidence[p.frameIdBySeq[q]]
          && m.records[q].evidence.digest in m.digests)
    && (forall d :: d in m.digests ==> exists q :: q in m.records && m.records[q].evidence.digest == d)
    && m.acceptedBytes == p.acceptedBytes
  }

  /** The partition is empty again and so is the table. */
  lemma EmptyAgrees(epoch: Epoch, profile: Digest, m: Metadata)
    requires m.records == map[] && m.digests == {} && m.acceptedBytes == 0
    ensures Agrees(m, EmptyPartition(epoch, profile))
  {
  }

  lemma CommittedAgrees(m: Metadata, p: Partition, u: Upload, f: Frame, r: Record)
    requires Agrees(m, p) && EarlyReply(m, u).None? && f.frameId !in p.evidence
    requires f.frameSeq == u.input.frameSeq && f.digest == u.input.digest && f.encodedSize == |u.input.payload|
    ensures Agrees(Committed(m, AcceptanceOf(m, u), f), InsertFrame(p, f, r))
  {
    var m' := Committed(m, AcceptanceOf(m, u), f);
    forall d | d in m'.digests ensures exists q :: q in m'.records && m'.records[q].evidence.digest == d {
      if d == u.input.digest {
        assert m'.records[f.frameSeq].evidence.digest == d;
      } else {
        var q :| q in m.records && m.records[q].evidence.digest == d;
        assert m'.records[q].evidence.digest == d;
      }
    }
    hide InsertSorted;
  }

  ghost predicate InsertedInto(p: Partition, p': Partition, f: Frame) {
    exists r: Record, n: nat :: p' == InsertFrame(p.(nonceCounter := n), f, r)
  }

  /** What a put of the store did, in either outcome. */
  lemma PutShape(m: Metadata, s: Store, u: Upload)
    requires StoreInv(s) && s.partition.Some? && EarlyReply(m, u).None?
    ensures var (s', reply) := StorePut(m, s, u);
            && StoreInv(s') && s'.partition.Some?
            && (reply.StoredFrame? || reply.Refused?)
            && (reply.Refused? ==> OnlyConsumed(s, s'))
            && (reply.StoredFrame? ==>
                  && reply.frame.frameSeq == u.input.frameSeq && reply.frame.digest == u.input.digest
                  && reply.frame.encodedSize == |u.input.payload| && reply.frame.frameId !in s.partition.value.evidence
                  && InsertedInto(s.partition.value, s'.partition.value, reply.frame))
  {
    hide StoreInv, Consume, InsertFrame, EarlyReply, FrameRefusal, CommitsMetadata, AcceptanceOf, OnlyConsumed;
    PutFrameKeeps(s, u.epoch, u.env, u.input, u.fault, CommitsMetadata(AcceptanceOf(m, u), u.metadataFault));
    NothingConsumed(s);
    ConsumeOnlyConsumes(s, FrameJpeg, u.input.payload, u.fault);
    FrameIsNew(s, u.input.payload, u.fault);
    var (used, sealing) := Consume(s, FrameJpeg, u.input.payload, u.fault);
    assert used.partition.value == s.partition.value.(nonceCounter := used.partition.value.nonceCounter);
  }

  lemma NothingConsumed(s: Store)
    ensures OnlyConsumed(s, s)
  {
  }

  lemma FrameIsNew(s: Store, payload: Bytes, fault: FaultPoint)
    requires StoreInv(s) && s.partition.Some?
    ensures Consume(s, FrameJpeg, payload, fault).1.Made? ==>
              Consume(s, FrameJpeg, payload, fault).0.ids >= 2
              && Consume(s, FrameJpeg, payload, fault).0.ids - 2 !in s.partition.value.evidence
  {
    hide WellFormed, LogFits, Consume;
    ConsumeKeeps(s, FrameJpeg, payload, fault);
    UndrawnIsFresh(s.partition.value, s.keys.key.value, s.ids, s.ids);
  }

  /** After any upload, at any fault point and however the session authority answers, the accounts agree. */
  lemma UploadKeepsAgreement(m: Metadata, s: Store, u: Upload)
    requires StoreInv(s) && s.partition.Some? && Agrees(m, s.partition.value)
    ensures var (m', s', _) := UploadFrame(m, s, u);
            StoreInv(s') && s'.partition.Some? && Agrees(m', s'.partition.value)
  {
    hide StoreInv, StorePut, InsertFrame;
    if !u.live.NotRun? && EarlyReply(m, u).None? {
      PutShape(m, s, u);
      var (s', reply) := StorePut(m, s, u);
      if reply.StoredFrame? {
        var r, n :| s'.partition.value == InsertFrame(s.partition.value.(nonceCounter := n), reply.frame, r);
        CommittedAgrees(m, s.partition.value.(nonceCounter := n), u, reply.frame, r);
      }
    }
  }

  /** A rejected upload that ran leaves the table as it was, and the store but for what a failed insertion consumes. */
  lemma RejectedChangesNothing(m: Metadata, s: Store, u: Upload)
    requires StoreInv(s) && s.partition.Some? && u.live.Ran? && UploadFrame(m, s, u).2.Rejected?
    ensures UploadFrame(m, s, u).0 == m && OnlyConsumed(s, UploadFrame(m, s, u).1)
  {
    hide StoreInv, StorePut, InsertFrame, EarlyReply, OnlyConsumed, InsertedInto;
    NothingConsumed(s);
    if EarlyReply(m, u).None? { PutShape(m, s, u); }
  }

  /** An accepted new upload adds exactly its bytes to the store and exactly its record to the table. */
  lemma AcceptedAddsTheFrame(m: Metadata, s: Store, u: Upload) returns (f: Frame)
    requires StoreInv(s) && s.partition.Some? && u.live.Ran? && UploadFrame(m, s, u).2.Accepted?
    requires u.input.frameSeq !in m.records
    ensures EarlyReply(m, u).None?
    ensures f.frameSeq == u.input.frameSeq && f.digest == u.input.digest && f.encodedSize == |u.input.payload|
    ensures UploadFrame(m, s, u).0 == Committed(m, AcceptanceOf(m, u), f)
    ensures PlainOf(UploadFrame(m, s, u).1) == PlainOf(s).(frames := PlainOf(s).frames[f.frameId := u.input.payload])
  {
    hide StoreInv, PlainOf, InsertFrame, EarlyReply, InsertedInto, Committed, AcceptanceOf, StorePut, OnlyConsumed, ResultOf;
    NewReachesStore(m, s, u);
    PutShape(m, s, u);
    PutAddsBytes(m, s, u);
    f := StorePut(m, s, u).1.frame;
  }

  /**
   What the reply to an accepted new upload says is so afterwards: the frames and bytes of table and store, the slots
   that are left, and the upload's own sequence number and size; and the table shows when it came and until when it waits.
   */
  lemma AcceptedReplyIsTrue(m: Metadata, s: Store, u: Upload)
    requires StoreInv(s) && s.partition.Some? && Agrees(m, s.partition.value)
    requires u.live.Ran? && UploadFrame(m, s, u).2.Accepted? && u.input.frameSeq !in m.records
    ensures var (m', s', reply) := UploadFrame(m, s, u);
            && s'.partition.Some? && reply.result.acceptedFrameCount == |s'.partition.value.evidence| == |m'.records|
            && reply.result.acceptedFrameCount + reply.result.remainingFrameSlots == MAX_CAPTURE_FRAMES
            && reply.result.totalAcceptedBytes == s'.partition.value.acceptedBytes == m'.acceptedBytes
            && reply.result.frameSeq == u.input.frameSeq && reply.result.encodedSize == |u.input.payload|
            && m'.records[u.input.frameSeq].result == reply.result && m'.records[u.input.frameSeq].acceptedAt == u.now
            && m'.capturing && m'.revision == m.revision + 1
            && m'.deadline <= u.expiresAt && m'.deadline <= u.now + CAPTURE_INACTIVITY_SECONDS
            && (m'.deadline == u.expiresAt || m'.deadline == u.now + CAPTURE_INACTIVITY_SECONDS)
  {
    hide StoreInv, StorePut, InsertFrame, PlainOf, OnlyConsumed, InsertedInto, EarlyReply, Agrees;
    var f := AcceptedAddsTheFrame(m, s, u);
    UploadKeepsAgreement(m, s, u);
    var (m', s', reply) := UploadFrame(m, s, u);
    KeysCount(m', s'.partition.value);
    TableTotals(m', s'.partition.value);
    StoredCount(s');
  }

  lemma TableTotals(m: Metadata, p: Partition)
    requires Agrees(m, p)
    ensures m.acceptedBytes == p.acceptedBytes
  {
  }

  lemma StoredCount(s: Store)
    requires StoreInv(s) && s.partition.Some?
    ensures |s.partition.value.frameIdBySeq| == |s.partition.value.evidence|
  {
    hide WellFormed, LogFits;
    FrameCount(s.partition.value, s.keys.key.value, s.ids);
  }

  lemma NewReachesStore(m: Metadata, s: Store, u: Upload)
    requires u.live.Ran? && UploadFrame(m, s, u).2.Accepted? && u.input.frameSeq !in m.records
    ensures EarlyReply(m, u).None?
  {
  }

  lemma PutAddsBytes(m: Metadata, s: Store, u: Upload)
    requires StoreInv(s) && EarlyReply(m, u).None?
    ensures var (s', reply) := StorePut(m, s, u);
            reply.StoredFrame? ==>
              PlainOf(s') == PlainOf(s).(frames := PlainOf(s).frames[reply.frame.frameId := u.input.payload])
  {
    hide StoreInv, PlainOf, PutFrame, EarlyReply, CommitsMetadata, AcceptanceOf, NewOnly;
    PutFrameRefines(s, OpPutFrame(u.epoch, u.env, u.input, u.fault, CommitsMetadata(AcceptanceOf(m, u), u.metadataFault)));
  }

  /** A caller told of a dead session after the commit ran is left with exactly the commit's effect. */
  lemma LateDeathChangesOnlyTheReply(m: Metadata, s: Store, u: Upload)
    requires u.live.RanThenReportedDead?
    ensures var (late, ran) := (UploadFrame(m, s, u), UploadFrame(m, s, u.(live := Ran)));
            late.0 == ran.0 && late.1 == ran.1 && late.2 == Rejected(ACCESS_REFUSED)
  {
    hide PutFrame;
    assert EarlyReply(m, u) == EarlyReply(m, u.(live := Ran));
    if EarlyReply(m, u).None? {
      assert AcceptanceOf(m, u) == AcceptanceOf(m, u.(live := Ran));
    }
  }

  /** What an accepted upload answered is what the table has for its sequence number. */
  lemma AcceptedIsRecorded(m: Metadata, s: Store, u: Upload)
    requires StoreInv(s) && s.partition.Some? && u.live.Ran? && UploadFrame(m, s, u).2.Accepted?
    ensures var (m', _, reply) := UploadFrame(m, s, u);
            && u.input.frameSeq in m'.records && m'.records[u.input.frameSeq].result == reply.result
            && m'.records[u.input.frameSeq].evidence.digest == u.input.digest
  {
    hide StoreInv, InsertFrame, PutFrame, OnlyConsumed, InsertedInto;
    if EarlyReply(m, u).None? { PutShape(m, s, u); }
  }

  lemma ConsumeFailure(s: Store, t: RecordType, payload: Bytes, fault: FaultPoint)
    requires StoreInv(s) && s.partition.Some?
    ensures var sealing := Consume(s, t, payload, fault).1;
            sealing.NotMade? ==>
              || sealing.reason == OPERATION_FAILED
              || (sealing.reason == INVARIANT_FAILURE
                  && (!Acceptable(t, payload) || s.partition.value.nonceCounter >= MAX_NONCE_COUNTER))
  {
    hide WellFormed, LogFits, Acceptable;
  }

  /**
   The coordinator's own limits make the store's unreachable: the store never refuses for capacity, and it
   fails the capture closed only for an unencodable frame or an exhausted nonce counter.
   */
  lemma StoreHasRoom(m: Metadata, s: Store, u: Upload)
    requires StoreInv(s) && s.partition.Some? && Agrees(m, s.partition.value) && EarlyReply(m, u).None?
    ensures var reply := StorePut(m, s, u).1;
            && reply != Refused(CAPACITY_EXCEEDED) && reply != Refused(INTEGRITY_FAILURE)
            && (reply == Refused(INVARIANT_FAILURE) ==>
                  !Acceptable(FrameJpeg, u.input.payload) || s.partition.value.nonceCounter >= MAX_NONCE_COUNTER)
  {
    FrameNotRefused(m, s, u);
    ConsumeFailure(s, FrameJpeg, u.input.payload, u.fault);
    hide StoreInv, InsertFrame, Consume, FrameRefusal, EarlyReply, Acceptable, Agrees;
  }

  lemma FrameNotRefused(m: Metadata, s: Store, u: Upload)
    requires StoreInv(s) && s.partition.Some? && Agrees(m, s.partition.value) && EarlyReply(m, u).None?
    ensures var refusal := FrameRefusal(s, u.epoch, u.env, u.input);
            refusal.Some? ==> refusal.value == OPERATION_FAILED || refusal.value == OPERATION_BUSY
                              || refusal.value == ACCESS_DENIED || refusal.value == CAPTURE_CLOSED
  {
    hide WellFormed, LogFits;
    var p := s.partition.value;
    FrameCount(p, s.keys.key.value, s.ids);
    KeysCount(m, p);
    assert |p.frameIdBySeq| < MAX_CAPTURE_FRAMES && u.input.frameSeq !in p.frameIdBySeq;
    RoomForRecords(p, s.keys.key.value, s.ids);
    hide Agrees;
  }

  lemma KeysCount(m: Metadata, p: Partition)
    requires Agrees(m, p)
    ensures |p.frameIdBySeq| == |m.records|
  {
    assert |p.frameIdBySeq.Keys| == |m.records.Keys|;
  }

  lemma RoomForRecords(p: Partition, key: Key, ids: Id)
    requires WellFormed(p, key, ids) && |p.evidence| < MAX_CAPTURE_FRAMES
    ensures |p.records| < MAX_PRIVATE_RECORDS
  {
    hide FramesIndexed, FramesStored, Lists, RecordsOpen, OcrIndexed, ExtractionsIndexed, Counted;
  }

  // ---------------------------------------------------------------- the method

  /** The coordinator's commit: its own checks, then the store's insertion with the table's commit inside it. */
  method CommitFrameUpload(table: FrameTable, store: PrivateEvidenceStore, u: Upload) returns (reply: UploadReply)
    requires StoreInv(store.View())
    modifies table, store, store.keys, store.partition
    ensures StoreInv(store.View())
    ensures var r := UploadFrame(old(table.View()), old(store.View()), u);
            table.View() == r.0 && store.View() == r.1 && reply == r.2
  {
    hide StoreInv, PutFrame, EvidenceStore.PrivateEvidenceStore.View, Committed;
    if u.live.NotRun? {
      return Rejected(ACCESS_REFUSED);
    }
    var early := CheckUpload(table, u);
    if early.Some? {
      return if u.live.Ran? then early.value else Rejected(ACCESS_REFUSED);
    }
    var a := AcceptanceOf(table.View(), u);
    var put := store.PutFrame(u.epoch, u.env, u.input, u.fault, table, a, u.metadataFault);
    reply := match put
      case StoredFrame(f) => Accepted(a.result)
      case Refused(reason) => Rejected(RejectionFor(reason))
      case _ => Rejected(UPLOAD_FAILED);
    if !u.live.Ran? {
      reply := Rejected(ACCESS_REFUSED);
    }
  }

  method CheckUpload(table: FrameTable, u: Upload) returns (early: Option<UploadReply>)
    ensures early == EarlyReply(table.View(), u)
  {
    if !u.permitted || u.now >= u.expiresAt || u.now >= table.deadline {
      return Some(Rejected(ACCESS_REFUSED));
    }
    if u.input.frameSeq in table.records {
      var existing := table.records[u.input.frameSeq];
      return Some(if existing.evidence.digest != u.input.digest then Rejected(FRAME_SEQUENCE_CONFLICT)
                  else Accepted(existing.result));
    }
    if |table.records| >= MAX_CAPTURE_FRAMES {
      return Some(Rejected(FRAME_LIMIT_REACHED));
    }
    if table.acceptedBytes + |u.input.payload| > MAX_CAPTURE_ENCODED_BYTES {
      return Some(Rejected(CAPTURE_BYTE_LIMIT_REACHED));
    }
    return None;
  }
}
