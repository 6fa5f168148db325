/** The evidence store's promises over every run of its operations, whatever fails in them. */
module EvidenceTheorems {
  import opened Basics
  import opened PrivateCodec
  import opened EvidenceModel
  import opened EvidenceSafety

  datatype Op =
    | OpCreate(epoch: Epoch, profile: Digest, env: Env)
    | OpCommit(epoch: Epoch, authorised: bool)
    | OpRollback(epoch: Epoch, authorised: bool)
    | OpPutFrame(epoch: Epoch, env: Env, input: FrameInput, fault: FaultPoint, metadataCommits: bool)
    | OpPutRecord(epoch: Epoch, env: Env, payload: Bytes)
    | OpPutOcr(epoch: Epoch, env: Env, page: Page, calibration: Digest, fault: FaultPoint)
    | OpPutExtraction(epoch: Epoch, env: Env, pages: seq<Page>, x: ExtractionInput, fault: FaultPoint)
    | OpGetFrame(epoch: Epoch, env: Env, frameId: Id)
    | OpGetRecord(epoch: Epoch, env: Env, id: Id, t: RecordType)
    | OpDelete(epoch: Epoch, env: Env, id: Id)
    | OpClose(epoch: Epoch, authorised: bool)
    | OpDestroy(epoch: Epoch, authorised: bool, fence: nat, fenceAuthorises: bool)
    | OpShutdown(authorised: bool)

  function Do(s: Store, op: Op): (Store, Reply) {
    match op
    case OpCreate(epoch, profile, env) => Create(s, epoch, profile, env)
    case OpCommit(epoch, authorised) => Commit(s, epoch, authorised)
    case OpRollback(epoch, authorised) => Rollback(s, epoch, authorised)
    case OpPutFrame(epoch, env, input, fault, commits) => PutFrame(s, epoch, env, input, fault, commits)
    case OpPutRecord(epoch, env, payload) => PutRecord(s, epoch, env, payload)
    case OpPutOcr(epoch, env, page, calibration, fault) => PutOcr(s, epoch, env, page, calibration, fault)
    case OpPutExtraction(epoch, env, pages, x, fault) => PutExtraction(s, epoch, env, pages, x, fault)
    case OpGetFrame(epoch, env, frameId) => (s, GetFrame(s, epoch, env, frameId))
    case OpGetRecord(epoch, env, id, t) => (s, GetRecord(s, epoch, env, id, t))
    case OpDelete(epoch, env, id) => Delete(s, epoch, env, id)
    case OpClose(epoch, authorised) => Close(s, epoch, authorised)
    case OpDestroy(epoch, authorised, fence, covers) => DestroyCapture(s, epoch, authorised, fence, covers)
    case OpShutdown(authorised) => Shutdown(s, authorised)
  }

  function RunFrom(s: Store, ops: seq<Op>): Store {
    if ops == [] then s else Do(RunFrom(s, ops[..|ops| - 1]), ops[|ops| - 1]).0
  }

  // ---------------------------------------------------------------- every operation keeps the invariant

  lemma UndrawnIsFresh(p: Partition, key: Key, ids: Id, id: Id)
    requires WellFormed(p, key, ids) && id >= ids
    ensures id !in p.records && id !in p.evidence
  {
    hide FramesIndexed, FramesStored, Lists, RecordsPartitioned, OcrIndexed, ExtractionsIndexed, Counted, Opens;
  }

  lemma PutFrameKeeps(s: Store, epoch: Epoch, env: Env, input: FrameInput, fault: FaultPoint, commits: bool)
    requires StoreInv(s)
    ensures StoreInv(PutFrame(s, epoch, env, input, fault, commits).0)
  {
    hide WellFormed, FreshRecord, LogFits, Consume, InsertFrame;
    if Refusal(s, epoch, env).None? {
      var p := s.partition.value;
      ConsumeKeeps(s, FrameJpeg, input.payload, fault);
      var (used, sealing) := Consume(s, FrameJpeg, input.payload, fault);
      if sealing.Made? && input.frameSeq !in p.frameIdBySeq && |p.frameIdBySeq| < MAX_CAPTURE_FRAMES
         && p.acceptedBytes + |input.payload| <= MAX_CAPTURE_ENCODED_BYTES {
        var r := sealing.record;
        var f := Frame(used.ids - 2, input.frameSeq, |input.payload|, input.digest, epoch, r.id);
        UndrawnIsFresh(p, s.keys.key.value, s.ids, r.id);
        UndrawnIsFresh(p, s.keys.key.value, s.ids, f.frameId);
        FrameCount(p, s.keys.key.value, s.ids);
        assert FreshRecord(r, FrameJpeg, input.payload, s.keys.key.value, p.epoch, used.partition.value.nonceCounter, used.ids);
        assert r.id == used.ids - 1;
        InsertFrameKeeps(used.partition.value, f, r, input.payload, s.keys.key.value, used.ids);
        InsertFrameShape(used.partition.value, f, r);
      }
    }
  }

  lemma FrameCount(p: Partition, key: Key, ids: Id)
    requires WellFormed(p, key, ids)
    ensures |p.frameIdBySeq| == |p.evidence|
  {
    hide FramesStored, Lists, RecordsPartitioned, RecordsOpen, OcrIndexed, ExtractionsIndexed, Counted;
  }

  /** What the insertions do not touch. */
  predicate SameShell(p: Partition, p': Partition) {
    p'.epoch == p.epoch && p'.open == p.open && p'.committed == p.committed && p'.nonceCounter == p.nonceCounter
  }

  lemma InsertFrameShape(p: Partition, f: Frame, r: Record)
    ensures SameShell(p, InsertFrame(p, f, r))
  {
  }

  lemma PutRecordKeeps(s: Store, epoch: Epoch, env: Env, payload: Bytes)
    requires StoreInv(s)
    ensures StoreInv(PutRecord(s, epoch, env, payload).0)
  {
    hide WellFormed, LogFits, Consume, FreshRecord;
    if Refusal(s, epoch, env).None? {
      ConsumeKeeps(s, AuxiliaryJson, payload, NoFault);
      var (used, sealing) := Consume(s, AuxiliaryJson, payload, NoFault);
      if sealing.Made? && AuxRoom(s.partition.value, payload) {
        UndrawnIsFresh(s.partition.value, s.keys.key.value, s.ids, sealing.record.id);
        InsertAuxKeeps(used.partition.value, sealing.record, payload, s.keys.key.value, used.ids);
      }
    }
  }

  /** What the guards of an OCR result leave true. */
  lemma OcrAdmitted(s: Store, epoch: Epoch, env: Env, page: Page, calibration: Digest)
    requires StoreInv(s) && OcrReply(s, epoch, env, page, calibration).None?
    ensures s.partition.Some? && s.keys.key.Some? && s.partition.value == Current(s, epoch, env)
    ensures var p := s.partition.value;
            && AuxRoom(p, page.payload) && HasFrame(p, page.frameId) && KeyOf(page) !in p.ocrByKey
            && (p.captureSet.inference.Some? ==> p.captureSet.inference.value == page.inference)
  {
    hide WellFormed, LogFits, AuxRoom, HasFrame, AuxSized;
  }

  lemma PutOcrKeeps(s: Store, epoch: Epoch, env: Env, page: Page, calibration: Digest, fault: FaultPoint)
    requires StoreInv(s)
    ensures StoreInv(PutOcr(s, epoch, env, page, calibration, fault).0)
  {
    hide WellFormed, LogFits, Consume, FreshRecord;
    if OcrReply(s, epoch, env, page, calibration).None? {
      OcrAdmitted(s, epoch, env, page, calibration);
      hide OcrReply, InsertOcr, AuxRoom, HasFrame, Current;
      var p := s.partition.value;
      ConsumeKeeps(s, AuxiliaryJson, page.payload, fault);
      var (used, sealing) := Consume(s, AuxiliaryJson, page.payload, fault);
      if sealing.Made? {
        UndrawnIsFresh(p, s.keys.key.value, s.ids, sealing.record.id);
        InsertOcrKeeps(used.partition.value, page, calibration, sealing.record, s.keys.key.value, used.ids);
      }
    }
  }

  lemma PutExtractionKeeps(s: Store, epoch: Epoch, env: Env, pages: seq<Page>, x: ExtractionInput, fault: FaultPoint)
    requires StoreInv(s)
    ensures StoreInv(PutExtraction(s, epoch, env, pages, x, fault).0)
  {
    hide WellFormed, LogFits, Consume, FreshRecord, PagesRefusal, HasResult;
    if Refusal(s, epoch, env).None? && NamesPages(pages, x) {
      var p := s.partition.value;
      ConsumeKeeps(s, AuxiliaryJson, x.payload, fault);
      var (used, sealing) := Consume(s, AuxiliaryJson, x.payload, fault);
      if sealing.Made? && AuxRoom(p, x.payload) && PagesRefusal(p, s.keys.key, pages).None? {
        UndrawnIsFresh(p, s.keys.key.value, s.ids, sealing.record.id);
        PagesHaveResults(p, s.keys.key, pages);
        assert forall i :: 0 <= i < |pages| ==> HasResult(p.ocrByKey, x.sources[i]) by {
          assert forall i :: 0 <= i < |pages| ==> HasResult(p.ocrByKey, pages[i].resultId);
        }
        InsertExtractionKeeps(used.partition.value, x, sealing.record, s.keys.key.value, used.ids);
      }
    }
  }

  lemma DeleteKeeps(s: Store, epoch: Epoch, env: Env, id: Id)
    requires StoreInv(s)
    ensures StoreInv(Delete(s, epoch, env, id).0)
  {
    hide WellFormed, LogFits, SourcesUse;
    if Refusal(s, epoch, env).None? && id in s.partition.value.auxIds && id in s.partition.value.records
       && !SourcesUse(s.partition.value, id) {
      RemoveAuxKeeps(s.partition.value, id, s.keys.key.value, s.ids);
    }
  }

  lemma EmptyIsWellFormed(epoch: Epoch, profile: Digest, key: Key, ids: Id)
    ensures WellFormed(EmptyPartition(epoch, profile), key, ids)
  {
  }

  lemma CreateKeeps(s: Store, epoch: Epoch, profile: Digest, env: Env)
    requires StoreInv(s)
    ensures StoreInv(Create(s, epoch, profile, env).0)
  {
    EmptyIsWellFormed(epoch, profile, s.keys.drawn, s.ids);
    hide WellFormed;
  }

  /** Flags of the partition are outside its well-formedness. */
  lemma FlagsKeep(p: Partition, key: Key, ids: Id, isOpen: bool, committed: bool)
    requires WellFormed(p, key, ids)
    ensures WellFormed(p.(open := isOpen, committed := committed), key, ids)
  {
    hide FramesIndexed, FramesStored, Lists, RecordsPartitioned, RecordsOpen, FrameIdsDrawn, OcrIndexed, ExtractionsIndexed, Sums;
  }

  lemma DestroyKeeps(s: Store, epoch: Epoch)
    requires StoreInv(s)
    ensures StoreInv(Destroy(s, epoch).0)
    ensures Destroy(s, epoch).1 <==> (if s.partition.Some? then s.partition.value.epoch == epoch else epoch.captureSeq <= s.lastDestroyed)
    ensures Destroy(s, epoch).1 && s.partition.Some? ==>
              var s' := Destroy(s, epoch).0;
              && s'.partition.None? && s'.keys.key.None? && s'.trace == FULL_TRACE && s'.lastDestroyed == epoch.captureSeq
  {
    hide WellFormed;
  }

  lemma CommitKeeps(s: Store, epoch: Epoch, authorised: bool)
    requires StoreInv(s)
    ensures StoreInv(Commit(s, epoch, authorised).0)
  {
    hide WellFormed, LogFits;
    if s.partition.Some? { FlagsKeep(s.partition.value, s.keys.key.value, s.ids, s.partition.value.open, true); }
  }

  lemma CloseKeeps(s: Store, epoch: Epoch, authorised: bool)
    requires StoreInv(s)
    ensures StoreInv(Close(s, epoch, authorised).0)
  {
    hide WellFormed, LogFits;
    if s.partition.Some? { FlagsKeep(s.partition.value, s.keys.key.value, s.ids, false, s.partition.value.committed); }
  }

  lemma DestroyCaptureKeeps(s: Store, epoch: Epoch, authorised: bool, fence: nat, covers: bool)
    requires StoreInv(s)
    ensures StoreInv(DestroyCapture(s, epoch, authorised, fence, covers).0)
  {
    hide WellFormed, LogFits, Destroy;
    DestroyKeeps(s, epoch);
  }

  lemma {:induction false} DoKeeps(s: Store, op: Op)
    requires StoreInv(s)
    ensures StoreInv(Do(s, op).0)
  {
    hide WellFormed, LogFits, PutFrame, PutRecord, PutOcr, PutExtraction, Delete, Create, Commit, Close, DestroyCapture, Destroy, GetFrame, GetRecord;
    match op
    case OpCreate(epoch, profile, env) => CreateKeeps(s, epoch, profile, env);
    case OpCommit(epoch, authorised) => CommitKeeps(s, epoch, authorised);
    case OpRollback(epoch, authorised) => DestroyKeeps(s, epoch);
    case OpPutFrame(epoch, env, input, fault, commits) => PutFrameKeeps(s, epoch, env, input, fault, commits);
    case OpPutRecord(epoch, env, payload) => PutRecordKeeps(s, epoch, env, payload);
    case OpPutOcr(epoch, env, page, calibration, fault) => PutOcrKeeps(s, epoch, env, page, calibration, fault);
    case OpPutExtraction(epoch, env, pages, x, fault) => PutExtractionKeeps(s, epoch, env, pages, x, fault);
    case OpDelete(epoch, env, id) => DeleteKeeps(s, epoch, env, id);
    case OpClose(epoch, authorised) => CloseKeeps(s, epoch, authorised);
    case OpDestroy(epoch, authorised, fence, covers) => DestroyCaptureKeeps(s, epoch, authorised, fence, covers);
    case _ =>
  }

  lemma {:induction false} RunKeepsInv(s: Store, ops: seq<Op>)
    requires StoreInv(s)
    ensures StoreInv(RunFrom(s, ops))
  {
    if ops != [] {
      RunKeepsInv(s, ops[..|ops| - 1]);
      DoKeeps(RunFrom(s, ops[..|ops| - 1]), ops[|ops| - 1]);
    }
  }

  function Reached(ops: seq<Op>): Store {
    RunFrom(INITIAL_STORE, ops)
  }

  lemma ReachedInv(ops: seq<Op>)
    ensures StoreInv(Reached(ops))
  {
    RunKeepsInv(INITIAL_STORE, ops);
  }

  // ---------------------------------------------------------------- keys, nonces, counters and indices

  /** No two encrypt calls of any run share key and nonce, rolled-back insertions included. */
  lemma NoncesNeverReused(ops: seq<Op>)
    ensures forall i, j :: 0 <= i < j < |Reached(ops).keys.log| ==> Reached(ops).keys.log[i] != Reached(ops).keys.log[j]
  {
    ReachedInv(ops);
    hide Reached, WellFormed;
  }

  /** A key exists exactly while a partition does, for its epoch; without one the cleanup trace is complete. */
  lemma KeyExactlyWithPartition(ops: seq<Op>)
    ensures var s := Reached(ops);
            && (s.keys.key.Some? <==> s.partition.Some?)
            && (s.partition.Some? ==> s.keys.epoch == Some(s.partition.value.epoch))
            && (s.partition.None? && s.lastDestroyed > 0 ==> s.trace == FULL_TRACE)
  {
    ReachedInv(ops);
    hide Reached, WellFormed, LogFits;
  }

  /** The counters are the sums over the live records, and each ciphertext total is its plaintext total and overheads. */
  lemma CountersAreSums(ops: seq<Op>)
    requires Reached(ops).partition.Some?
    ensures var p := Reached(ops).partition.value;
            && p.acceptedBytes == Sum(p.records, FramePayload) && p.auxBytes == Sum(p.records, AuxPayload)
            && p.frameCipherBytes == Sum(p.records, FrameCipher) && p.auxCipherBytes == Sum(p.records, AuxCipher)
            && p.frameCipherBytes == p.acceptedBytes + |p.evidence| * (OVERHEAD_BYTES + TAG_BYTES)
            && p.auxCipherBytes == p.auxBytes + |p.auxIds| * (OVERHEAD_BYTES + TAG_BYTES)
  {
    ReachedInv(ops);
    hide Reached, LogFits, FramesIndexed, FramesStored, RecordsPartitioned, RecordsOpen, OcrIndexed, ExtractionsIndexed, Lists;
  }

  /** So the two checks of the ciphertext totals after encryption never turn an admitted record away. */
  lemma CiphertextFits(p: Partition, key: Key, ids: Id, payload: Bytes)
    requires WellFormed(p, key, ids)
    ensures |p.evidence| < MAX_CAPTURE_FRAMES && p.acceptedBytes + |payload| <= MAX_CAPTURE_ENCODED_BYTES ==>
              p.frameCipherBytes + |payload| + SEALING_BYTES <= MAX_FRAME_CIPHERTEXT_BYTES
    ensures AuxRoom(p, payload) ==>
              p.auxCipherBytes + |payload| + SEALING_BYTES <= MAX_AUXILIARY_CIPHERTEXT_BYTES
  {
    hide FramesIndexed, FramesStored, RecordsPartitioned, RecordsOpen, OcrIndexed, ExtractionsIndexed, Lists, Sums;
  }

  /** The indices agree with each other in every reachable partition. */
  lemma IndicesAgree(ops: seq<Op>)
    requires Reached(ops).partition.Some?
    ensures var p := Reached(ops).partition.value;
            && (set f | f in p.evidence :: p.evidence[f].recordRef) + p.auxIds == p.records.Keys
            && (set f | f in p.evidence :: p.evidence[f].recordRef) !! p.auxIds
            && (forall q :: q in p.frameIdBySeq ==> p.frameIdBySeq[q] in p.evidence && p.evidence[p.frameIdBySeq[q]].frameSeq == q)
            && (forall f :: f in p.evidence ==>
                  p.evidence[f].frameSeq in p.frameIdBySeq && p.frameIdBySeq[p.evidence[f].frameSeq] == f)
            && Lists(p.captureSet.frameIds, p.evidence)
            && (forall k :: k in p.ocrByKey ==>
                  IsLiveAux(p, p.ocrByKey[k].recordId) && p.captureSet.inference == Some(k.inference))
            && (forall k, i :: k in p.extractionByKey && 0 <= i < |k.sources| ==> HasResult(p.ocrByKey, k.sources[i]))
  {
    ReachedInv(ops);
    hide Reached, LogFits, RecordsOpen, Counted, Lists, HasResult;
    var p := Reached(ops).partition.value;
    forall r | r in p.records
      ensures r in (set f | f in p.evidence :: p.evidence[f].recordRef) || r in p.auxIds
    {
      if r !in p.auxIds {
        var f :| f in p.evidence && p.evidence[f].recordRef == r;
      }
    }
  }

  /** An auxiliary record of an open partition is kept exactly while an extraction still uses it as a source. */
  lemma DeleteKeepsUsedSources(ops: seq<Op>, epoch: Epoch, env: Env, id: Id)
    requires Refusal(Reached(ops), epoch, env).None? && id in Reached(ops).partition.value.auxIds
    ensures var s := Reached(ops);
            Delete(s, epoch, env, id).1 == if SourcesUse(s.partition.value, id) then Refused(INVARIANT_FAILURE) else Answer(true)
  {
    ReachedInv(ops);
    hide Reached, SourcesUse, FramesIndexed, FramesStored, RecordsOpen, OcrIndexed, ExtractionsIndexed, Lists, Counted, LogFits;
  }

  // ---------------------------------------------------------------- refinement of a plain map

  /** What the store holds, without encryption, indices or accounting. */
  datatype Plain = Plain(frames: map<Id, Bytes>, aux: map<Id, Bytes>)

  const NOTHING := Plain(map[], map[])

  function PayloadOf(r: Record): Bytes {
    match Decode(r.recordType, r.ciphertext.plaintext)
    case Some(payload) => payload
    case None => []
  }

  function FramesOf(evidence: map<Id, Frame>, records: map<Id, Record>): map<Id, Bytes> {
    map f | f in evidence :: if evidence[f].recordRef in records then PayloadOf(records[evidence[f].recordRef]) else []
  }

  function AuxOf(auxIds: set<Id>, records: map<Id, Record>): map<Id, Bytes> {
    map a | a in auxIds :: if a in records then PayloadOf(records[a]) else []
  }

  function PlainOf(s: Store): Plain {
    if s.partition.None? then NOTHING
    else
      var p := s.partition.value;
      Plain(FramesOf(p.evidence, p.records), AuxOf(p.auxIds, p.records))
  }

  /** The same operation on the plain map, given what the store replied. */
  function PlainDo(m: Plain, op: Op, reply: Reply): Plain {
    match op
    case OpPutFrame(_, _, input, _, _) =>
      if reply.StoredFrame? then m.(frames := m.frames[reply.frame.frameId := input.payload]) else m
    case OpPutRecord(_, _, payload) => PlainPut(m, payload, reply)
    case OpPutOcr(_, _, page, _, _) => PlainPut(m, page.payload, reply)
    case OpPutExtraction(_, _, _, x, _) => PlainPut(m, x.payload, reply)
    case OpDelete(_, _, id) => if reply == Answer(true) then m.(aux := m.aux - {id}) else m
    case OpRollback(_, _) => if reply == Answer(true) then NOTHING else m
    case OpDestroy(_, _, _, _) => if reply == Answer(true) then NOTHING else m
    case _ => m
  }

  function PlainPut(m: Plain, payload: Bytes, reply: Reply): Plain {
    if reply.StoredRecord? && !reply.reused then m.(aux := m.aux[reply.recordId := payload]) else m
  }

  /** What the plain map answers to a read that is let through. */
  function PlainRead(m: map<Id, Bytes>, id: Id): Reply {
    if id in m then Payload(m[id]) else Refused(RECORD_NOT_FOUND)
  }

  lemma SealedPayload(r: Record, t: RecordType, payload: Bytes, key: Key, epoch: Epoch, nonceCounter: nat, ids: Id)
    requires FreshRecord(r, t, payload, key, epoch, nonceCounter, ids)
    ensures PayloadOf(r) == payload
  {
    EncodedOpens(t, payload);
    hide Encode, Decode;
  }

  lemma PlainInsertFrame(p: Partition, f: Frame, r: Record)
    requires r.id !in p.records && f.frameId !in p.evidence && f.recordRef == r.id
    requires FramesStored(p.evidence, p.records) && (forall a :: a in p.auxIds ==> a in p.records)
    ensures var p' := InsertFrame(p, f, r);
            && FramesOf(p'.evidence, p'.records) == FramesOf(p.evidence, p.records)[f.frameId := PayloadOf(r)]
            && AuxOf(p'.auxIds, p'.records) == AuxOf(p.auxIds, p.records)
  {
    hide PayloadOf, InsertSorted;
  }

  lemma PlainInsertAux(p: Partition, payload: Bytes, r: Record)
    requires r.id !in p.records
    requires FramesStored(p.evidence, p.records) && (forall a :: a in p.auxIds ==> a in p.records)
    ensures var p' := InsertAux(p, payload, r);
            && FramesOf(p'.evidence, p'.records) == FramesOf(p.evidence, p.records)
            && AuxOf(p'.auxIds, p'.records) == AuxOf(p.auxIds, p.records)[r.id := PayloadOf(r)]
  {
    hide PayloadOf;
  }

  lemma PlainRemove(p: Partition, id: Id)
    requires id in p.records && p.records[id].recordType.AuxiliaryJson?
    requires FramesStored(p.evidence, p.records) && (forall a :: a in p.auxIds ==> a in p.records)
    ensures var p' := RemoveAux(p, id);
            && FramesOf(p'.evidence, p'.records) == FramesOf(p.evidence, p.records)
            && AuxOf(p'.auxIds, p'.records) == AuxOf(p.auxIds, p.records) - {id}
  {
    hide PayloadOf;
  }

  lemma Shape(p: Partition, key: Key, ids: Id)
    requires WellFormed(p, key, ids)
    ensures FramesStored(p.evidence, p.records)
    ensures forall a :: a in p.auxIds ==> a in p.records && p.records[a].recordType.AuxiliaryJson?
    ensures |p.frameIdBySeq| == |p.evidence|
  {
    hide FramesStored, Lists, RecordsOpen, OcrIndexed, ExtractionsIndexed, Counted;
  }

  /** An insertion never reuses an ID the plain map already has. */
  predicate NewOnly(m: Plain, reply: Reply) {
    && (reply.StoredFrame? ==> reply.frame.frameId !in m.frames)
    && (reply.StoredRecord? && !reply.reused ==> reply.recordId !in m.aux)
  }

  /** Sealing and inserting one frame adds exactly its bytes under a new ID. */
  lemma FrameRefines(s: Store, payload: Bytes, fault: FaultPoint, f: Frame)
    requires StoreInv(s) && s.partition.Some?
    ensures var (used, sealing) := Consume(s, FrameJpeg, payload, fault);
            && used.partition.Some? && PlainOf(used) == PlainOf(s)
            && (sealing.Made? && f.frameId == used.ids - 2 && f.recordRef == sealing.record.id ==>
                  && f.frameId !in PlainOf(s).frames
                  && PlainOf(used.(partition := Some(InsertFrame(used.partition.value, f, sealing.record))))
                     == PlainOf(s).(frames := PlainOf(s).frames[f.frameId := payload]))
  {
    hide WellFormed, LogFits, Consume, InsertFrame, FramesOf, AuxOf, PayloadOf, FreshRecord;
    var p, key := s.partition.value, s.keys.key.value;
    ConsumeKeeps(s, FrameJpeg, payload, fault);
    var (used, sealing) := Consume(s, FrameJpeg, payload, fault);
    Shape(p, key, s.ids);
    if sealing.Made? && f.frameId == used.ids - 2 && f.recordRef == sealing.record.id {
      SealedPayload(sealing.record, FrameJpeg, payload, key, p.epoch, used.partition.value.nonceCounter, used.ids);
      UndrawnIsFresh(p, key, s.ids, sealing.record.id);
      UndrawnIsFresh(p, key, s.ids, f.frameId);
      PlainInsertFrame(used.partition.value, f, sealing.record);
      FramesOfKeys(p.evidence, p.records);
    }
  }

  lemma PutFrameRefines(s: Store, op: Op)
    requires StoreInv(s) && op.OpPutFrame?
    ensures var (s', reply) := Do(s, op);
            PlainOf(s') == PlainDo(PlainOf(s), op, reply) && NewOnly(PlainOf(s), reply)
  {
    hide WellFormed, LogFits, Consume, InsertFrame, FramesOf, AuxOf, StoreInv;
    if Refusal(s, op.epoch, op.env).None? {
      var (used, sealing) := Consume(s, FrameJpeg, op.input.payload, op.fault);
      var f := Frame(if used.ids >= 2 then used.ids - 2 else 0, op.input.frameSeq, |op.input.payload|, op.input.digest,
                     op.epoch, if sealing.Made? then sealing.record.id else 0);
      FrameRefines(s, op.input.payload, op.fault, f);
    }
  }

  lemma FramesOfKeys(evidence: map<Id, Frame>, records: map<Id, Record>)
    ensures FramesOf(evidence, records).Keys == evidence.Keys
  {
  }

  /** Sealing and inserting one auxiliary record adds exactly its payload under a new ID. */
  lemma AuxRefines(s: Store, payload: Bytes, fault: FaultPoint)
    requires StoreInv(s) && s.partition.Some?
    ensures var (used, sealing) := Consume(s, AuxiliaryJson, payload, fault);
            && used.partition.Some? && PlainOf(used) == PlainOf(s)
            && (sealing.Made? ==>
                  && sealing.record.id !in PlainOf(s).aux
                  && PlainOf(used.(partition := Some(InsertAux(used.partition.value, payload, sealing.record))))
                     == PlainOf(s).(aux := PlainOf(s).aux[sealing.record.id := payload]))
  {
    hide WellFormed, LogFits, Consume, InsertAux, FramesOf, AuxOf;
    var p, key := s.partition.value, s.keys.key.value;
    ConsumeKeeps(s, AuxiliaryJson, payload, fault);
    var (used, sealing) := Consume(s, AuxiliaryJson, payload, fault);
    Shape(p, key, s.ids);
    if sealing.Made? {
      SealedPayload(sealing.record, AuxiliaryJson, payload, key, p.epoch, used.partition.value.nonceCounter, used.ids);
      UndrawnIsFresh(p, key, s.ids, sealing.record.id);
      PlainInsertAux(used.partition.value, payload, sealing.record);
      assert AuxOf(p.auxIds, p.records).Keys == p.auxIds by { AuxOfKeys(p.auxIds, p.records); }
    }
    hide FreshRecord, PayloadOf;
  }

  lemma AuxOfKeys(auxIds: set<Id>, records: map<Id, Record>)
    ensures AuxOf(auxIds, records).Keys == auxIds
  {
  }

  lemma DecryptReads(p: Partition, key: Key, ids: Id, id: Id)
    requires WellFormed(p, key, ids) && id in p.records
    ensures Decrypt(p, Some(key), id, p.records[id].recordType) == Payload(PayloadOf(p.records[id]))
  {
    RecordOpens(p, key, ids, id);
    hide WellFormed, Decode;
  }

  lemma RecordOpens(p: Partition, key: Key, ids: Id, id: Id)
    requires WellFormed(p, key, ids) && id in p.records
    ensures Opens(p.records[id], id, p.epoch, key, p.nonceCounter)
  {
    hide FramesIndexed, FramesStored, Lists, RecordsPartitioned, OcrIndexed, ExtractionsIndexed, Counted, Opens;
  }

  /** A read that is let through returns exactly what the plain map holds: never an integrity failure. */
  lemma ReadsArePlain(s: Store, epoch: Epoch, env: Env, id: Id)
    requires StoreInv(s) && Refusal(s, epoch, env).None?
    ensures GetFrame(s, epoch, env, id) == PlainRead(PlainOf(s).frames, id)
    ensures GetRecord(s, epoch, env, id, AuxiliaryJson) == PlainRead(PlainOf(s).aux, id)
    ensures GetRecord(s, epoch, env, id, FrameJpeg) == Refused(RECORD_TYPE_MISMATCH)
  {
    var p, key := s.partition.value, s.keys.key.value;
    Shape(p, key, s.ids);
    if id in p.auxIds { DecryptReads(p, key, s.ids, id); }
    if id in p.evidence {
      DecryptReads(p, key, s.ids, p.evidence[id].recordRef);
      assert HasFrame(p, id);
    }
    hide WellFormed, LogFits, Decrypt, PayloadOf;
  }

  lemma DeleteRefines(s: Store, epoch: Epoch, env: Env, id: Id)
    requires StoreInv(s)
    ensures var (s', reply) := Delete(s, epoch, env, id);
            PlainOf(s') == if reply == Answer(true) then PlainOf(s).(aux := PlainOf(s).aux - {id}) else PlainOf(s)
  {
    hide WellFormed, LogFits, SourcesUse, RemoveAux, FramesOf, AuxOf;
    if Refusal(s, epoch, env).None? && id in s.partition.value.auxIds {
      Shape(s.partition.value, s.keys.key.value, s.ids);
      PlainRemove(s.partition.value, id);
      hide FramesStored;
    }
  }

  lemma PutRecordRefines(s: Store, op: Op)
    requires StoreInv(s) && op.OpPutRecord?
    ensures var (s', reply) := Do(s, op);
            PlainOf(s') == PlainDo(PlainOf(s), op, reply) && NewOnly(PlainOf(s), reply)
  {
    hide StoreInv, Consume, FramesOf, AuxOf, InsertAux;
    if Refusal(s, op.epoch, op.env).None? { AuxRefines(s, op.payload, NoFault); }
    hide Refusal;
  }

  lemma PutOcrRefines(s: Store, op: Op)
    requires StoreInv(s) && op.OpPutOcr?
    ensures var (s', reply) := Do(s, op);
            PlainOf(s') == PlainDo(PlainOf(s), op, reply) && NewOnly(PlainOf(s), reply)
  {
    hide StoreInv, Consume, FramesOf, AuxOf;
    if Refusal(s, op.epoch, op.env).None? { AuxRefines(s, op.page.payload, op.fault); }
    hide Refusal;
  }

  lemma PutExtractionRefines(s: Store, op: Op)
    requires StoreInv(s) && op.OpPutExtraction?
    ensures var (s', reply) := Do(s, op);
            PlainOf(s') == PlainDo(PlainOf(s), op, reply) && NewOnly(PlainOf(s), reply)
  {
    hide StoreInv, Consume, FramesOf, AuxOf, PagesRefusal, NamesPages;
    if Refusal(s, op.epoch, op.env).None? { AuxRefines(s, op.x.payload, op.fault); }
    hide Refusal;
  }

  /** Every operation does to the store what it does to a plain map, and an insertion never overwrites. */
  lemma {:induction false} DoRefines(s: Store, op: Op)
    requires StoreInv(s)
    ensures PlainOf(Do(s, op).0) == PlainDo(PlainOf(s), op, Do(s, op).1) && NewOnly(PlainOf(s), Do(s, op).1)
  {
    if op.OpPutFrame? { PutFrameRefines(s, op); }
    else if op.OpPutRecord? { PutRecordRefines(s, op); }
    else if op.OpPutOcr? { PutOcrRefines(s, op); }
    else if op.OpPutExtraction? { PutExtractionRefines(s, op); }
    else { OtherRefines(s, op); }
    hide PlainOf, PlainDo, Do, NewOnly;
  }

  lemma OtherRefines(s: Store, op: Op)
    requires StoreInv(s) && !op.OpPutFrame? && !op.OpPutRecord? && !op.OpPutOcr? && !op.OpPutExtraction?
    ensures var (s', reply) := Do(s, op);
            PlainOf(s') == PlainDo(PlainOf(s), op, reply) && NewOnly(PlainOf(s), reply)
  {
    hide WellFormed, LogFits, FramesOf, AuxOf, Decrypt, SourcesUse, RemoveAux;
    match op
    case OpDelete(epoch, env, id) => DeleteRefines(s, epoch, env, id);
    case OpCreate(epoch, profile, env) => EmptyPlain();
    case OpRollback(epoch, authorised) => DestroyKeeps(s, epoch);
    case OpDestroy(epoch, authorised, fence, covers) => DestroyKeeps(s, epoch);
    case _ =>
  }

  lemma EmptyPlain()
    ensures FramesOf(map[], map[]) == map[] && AuxOf({}, map[]) == map[]
  {
  }

  /** The plain map after the same run, fed only with the store's replies. */
  function PlainRun(ops: seq<Op>): Plain {
    if ops == [] then NOTHING
    else PlainDo(PlainRun(ops[..|ops| - 1]), ops[|ops| - 1], Do(Reached(ops[..|ops| - 1]), ops[|ops| - 1]).1)
  }

  lemma {:induction false} RunRefines(ops: seq<Op>)
    ensures PlainOf(Reached(ops)) == PlainRun(ops)
  {
    if ops != [] {
      RunRefines(ops[..|ops| - 1]);
      ReachedInv(ops[..|ops| - 1]);
      DoRefines(Reached(ops[..|ops| - 1]), ops[|ops| - 1]);
      hide PlainOf, PlainDo, Do;
    }
  }

  /** In any run, a read that is let through returns exactly the bytes put under that ID. */
  lemma ReadsReturnWhatWasPut(ops: seq<Op>, epoch: Epoch, env: Env, id: Id)
    requires Refusal(Reached(ops), epoch, env).None?
    ensures GetFrame(Reached(ops), epoch, env, id) == PlainRead(PlainRun(ops).frames, id)
    ensures GetRecord(Reached(ops), epoch, env, id, AuxiliaryJson) == PlainRead(PlainRun(ops).aux, id)
  {
    RunRefines(ops);
    ReachedInv(ops);
    ReadsArePlain(Reached(ops), epoch, env, id);
  }

  // ---------------------------------------------------------------- failures and destruction

  /** What a failed operation may leave behind: drawn IDs, a moved nonce counter and the encrypt call itself. */
  predicate OnlyConsumed(s: Store, s': Store) {
    && s'.partition.Some? == s.partition.Some?
    && (s.partition.Some? ==>
          s'.partition.value == s.partition.value.(nonceCounter := s'.partition.value.nonceCounter)
          && s'.partition.value.nonceCounter >= s.partition.value.nonceCounter)
    && s' == s.(ids := s'.ids, keys := s.keys.(log := s'.keys.log), partition := s'.partition)
  }

  lemma NonceRises(s: Store, t: RecordType, payload: Bytes, fault: FaultPoint)
    requires s.partition.Some?
    ensures Consume(s, t, payload, fault).0.partition.value.nonceCounter >= s.partition.value.nonceCounter
  {
    hide Encode, CodecReason, Draws;
    var p := s.partition.value;
    assert Consume(s, t, payload, fault).0.partition.value.nonceCounter == p.nonceCounter
        || Consume(s, t, payload, fault).0.partition.value.nonceCounter == p.nonceCounter + 1;
  }

  lemma ConsumeOnlyConsumes(s: Store, t: RecordType, payload: Bytes, fault: FaultPoint)
    requires StoreInv(s) && s.partition.Some?
    ensures OnlyConsumed(s, Consume(s, t, payload, fault).0)
  {
    hide StoreInv, Consume;
    ConsumeKeeps(s, t, payload, fault);
    NonceRises(s, t, payload, fault);
  }

  /** Whatever is refused, at whatever fault point, rolled everything back but the consumed nonce. */
  lemma RefusedRollsBack(s: Store, op: Op)
    requires StoreInv(s) && Do(s, op).1.Refused?
    ensures OnlyConsumed(s, Do(s, op).0)
  {
    hide WellFormed, LogFits, Consume, PagesRefusal, SourcesUse, GetFrame, GetRecord, NamesPages;
    if s.partition.Some? {
      match op
      case OpPutFrame(_, _, input, fault, _) => ConsumeOnlyConsumes(s, FrameJpeg, input.payload, fault);
      case OpPutRecord(_, _, payload) => ConsumeOnlyConsumes(s, AuxiliaryJson, payload, NoFault);
      case OpPutOcr(_, _, page, _, fault) => ConsumeOnlyConsumes(s, AuxiliaryJson, page.payload, fault);
      case OpPutExtraction(_, _, _, x, fault) => ConsumeOnlyConsumes(s, AuxiliaryJson, x.payload, fault);
      case _ =>
    }
  }

  /** A capture sequence number up to the highest destroyed one. */
  predicate Buried(s: Store, epoch: Epoch) {
    epoch.captureSeq <= s.lastDestroyed
  }

  /** The operations that open, fill or read the partition of an epoch. */
  predicate Uses(op: Op, epoch: Epoch) {
    && (op.OpCreate? || op.OpPutFrame? || op.OpPutRecord? || op.OpPutOcr? || op.OpPutExtraction? || op.OpGetFrame?
        || op.OpGetRecord?)
    && op.epoch == epoch
  }

  /** Nothing is read from, put into or opened for a destroyed capture. */
  lemma BuriedStaysShut(s: Store, op: Op, epoch: Epoch)
    requires StoreInv(s) && Buried(s, epoch)
    ensures Buried(Do(s, op).0, epoch) && (Uses(op, epoch) ==> Do(s, op).1.Refused?)
  {
    hide WellFormed, LogFits, Consume, PagesRefusal, SourcesUse, NamesPages, Decrypt, RemoveAux, InsertFrame, InsertOcr;
    DoKeeps(s, op);
    LastDestroyedRises(s, op);
  }

  lemma LastDestroyedRises(s: Store, op: Op)
    requires StoreInv(s)
    ensures Do(s, op).0.lastDestroyed >= s.lastDestroyed
  {
    hide WellFormed, LogFits, Consume, RemoveAux, InsertFrame, InsertAux, InsertOcr, InsertExtraction, GetFrame, GetRecord;
    hide FrameRefusal, RecordRefusal, OcrReply, ExtractionReply, DeleteReply, StoreInv;
  }

  /** Over any continuation: once destroyed, a capture sequence number never comes back. */
  lemma {:induction false} DestroyedForever(s: Store, ops: seq<Op>, op: Op, epoch: Epoch)
    requires StoreInv(s) && Buried(s, epoch)
    ensures var s' := RunFrom(s, ops);
            && (s'.partition.Some? ==> s'.partition.value.epoch.captureSeq > epoch.captureSeq)
            && (Uses(op, epoch) ==> Do(s', op).1.Refused?)
  {
    BuriedAfter(s, ops, epoch);
    BuriedStaysShut(RunFrom(s, ops), op, epoch);
    hide Do, WellFormed, LogFits;
  }

  lemma {:induction false} BuriedAfter(s: Store, ops: seq<Op>, epoch: Epoch)
    requires StoreInv(s) && Buried(s, epoch)
    ensures StoreInv(RunFrom(s, ops)) && Buried(RunFrom(s, ops), epoch)
  {
    RunKeepsInv(s, ops);
    if ops != [] {
      BuriedAfter(s, ops[..|ops| - 1], epoch);
      BuriedStaysShut(RunFrom(s, ops[..|ops| - 1]), ops[|ops| - 1], epoch);
    }
  }
}
