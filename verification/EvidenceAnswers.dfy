/** When exactly the store accepts what it is asked, in terms of the plain bytes it holds. */
module EvidenceAnswers {
  import opened Basics
  import opened PrivateCodec
  import opened EvidenceModel
  import opened EvidenceSafety
  import opened EvidenceTheorems

  /** The partition of that epoch is open, and the caller holds everything an operation on it needs. */
  predicate LiveFor(s: Store, epoch: Epoch, env: Env) {
    && env.slotFree && env.live && env.authorised && env.fenceFits
    && !s.destroyed && s.partition.Some? && s.partition.value.epoch == epoch && s.partition.value.open
  }

  lemma RefusalIff(s: Store, epoch: Epoch, env: Env)
    ensures Refusal(s, epoch, env).None? <==> LiveFor(s, epoch, env)
    ensures Refusal(s, epoch, env) == Some(OPERATION_BUSY) <==> !env.slotFree
    ensures Refusal(s, epoch, env) == Some(ACCESS_DENIED) <==> env.slotFree && !(env.live && env.authorised)
    ensures Refusal(s, epoch, env).Some? && env.slotFree && env.live && env.authorised ==> Refusal(s, epoch, env) == Some(CAPTURE_CLOSED)
  {
  }

  /** Nothing goes wrong while the record is sealed. */
  predicate Sealable(p: Partition, t: RecordType, payload: Bytes, fault: FaultPoint) {
    Acceptable(t, payload) && p.nonceCounter < MAX_NONCE_COUNTER && (fault.NoFault? || fault.AfterInsertion?)
  }

  lemma SealsIff(s: Store, t: RecordType, payload: Bytes, fault: FaultPoint)
    requires StoreInv(s) && s.partition.Some?
    ensures Consume(s, t, payload, fault).1.Made? <==> Sealable(s.partition.value, t, payload, fault)
  {
    hide WellFormed, LogFits, Acceptable;
  }

  // ---------------------------------------------------------------- frames

  /** A frame of that sequence number is stored. */
  predicate HasSeq(p: Partition, seq_: nat) {
    exists f :: f in p.evidence && p.evidence[f].frameSeq == seq_
  }

  predicate FrameFits(p: Partition, input: FrameInput) {
    && !HasSeq(p, input.frameSeq) && |p.evidence| < 8 && p.acceptedBytes + |input.payload| <= 16 * 1024 * 1024
  }

  lemma SeqIndexed(p: Partition, key: Key, ids: Id, seq_: nat)
    requires WellFormed(p, key, ids)
    ensures seq_ in p.frameIdBySeq <==> HasSeq(p, seq_)
    ensures |p.frameIdBySeq| == |p.evidence| && |p.records| == |p.evidence| + |p.auxIds| && |p.auxIds| <= MAX_AUXILIARY_RECORDS
  {
    hide FramesStored, Lists, RecordsOpen, OcrIndexed, ExtractionsIndexed, Counted;
    if seq_ in p.frameIdBySeq {
      assert p.frameIdBySeq[seq_] in p.evidence;
    }
  }

  /**
   A frame is accepted exactly when its digest fits, the caller is live for the open partition, no frame of its
   sequence number is there, count and bytes stay within the limits, nothing fails on the way and the caller commits it.
   */
  lemma FrameAcceptedIff(s: Store, epoch: Epoch, env: Env, input: FrameInput, fault: FaultPoint, commits: bool)
    requires StoreInv(s)
    ensures var reply := PutFrame(s, epoch, env, input, fault, commits).1;
            && (reply.StoredFrame? <==>
                  && input.digestMatches && LiveFor(s, epoch, env) && FrameFits(s.partition.value, input)
                  && Sealable(s.partition.value, FrameJpeg, input.payload, fault) && fault.NoFault? && commits)
            && (reply == Refused(CAPACITY_EXCEEDED) <==>
                  input.digestMatches && LiveFor(s, epoch, env) && !FrameFits(s.partition.value, input))
            && (reply == Refused(INVARIANT_FAILURE) <==>
                  && input.digestMatches && LiveFor(s, epoch, env) && FrameFits(s.partition.value, input)
                  && !fault.BeforeKeyLookup?
                  && (!Acceptable(FrameJpeg, input.payload) || s.partition.value.nonceCounter >= MAX_NONCE_COUNTER))
            && (reply.StoredFrame? ==>
                  && reply.frame.frameSeq == input.frameSeq && reply.frame.encodedSize == |input.payload|
                  && reply.frame.digest == input.digest && reply.frame.epoch == epoch)
  {
    hide WellFormed, LogFits, Acceptable, HasSeq, InsertFrame;
    RefusalIff(s, epoch, env);
    hide Refusal;
    if LiveFor(s, epoch, env) {
      SeqIndexed(s.partition.value, s.keys.key.value, s.ids, input.frameSeq);
      SealsIff(s, FrameJpeg, input.payload, fault);
    }
  }

  // ---------------------------------------------------------------- auxiliary records

  predicate AuxFits(p: Partition, payload: Bytes) {
    |p.auxIds| < 16 && p.auxBytes + |payload| <= 1024 * 1024
  }

  lemma RoomIff(p: Partition, key: Key, ids: Id, payload: Bytes)
    requires WellFormed(p, key, ids)
    ensures AuxRoom(p, payload) <==> AuxFits(p, payload)
  {
    hide FramesStored, Lists, RecordsOpen, OcrIndexed, ExtractionsIndexed, Counted;
  }

  /** An auxiliary record is accepted exactly when it has a fitting size, the caller is live and there is room. */
  lemma RecordAcceptedIff(s: Store, epoch: Epoch, env: Env, payload: Bytes)
    requires StoreInv(s)
    ensures var reply := PutRecord(s, epoch, env, payload).1;
            && (reply.StoredRecord? <==>
                  && 0 < |payload| <= MAX_AUXILIARY_CANONICAL_JSON_BYTES && LiveFor(s, epoch, env)
                  && AuxFits(s.partition.value, payload) && Sealable(s.partition.value, AuxiliaryJson, payload, NoFault))
            && (reply == Refused(CAPACITY_EXCEEDED) <==>
                  && 0 < |payload| <= MAX_AUXILIARY_CANONICAL_JSON_BYTES && LiveFor(s, epoch, env)
                  && !AuxFits(s.partition.value, payload))
            && (reply.StoredRecord? ==> !reply.reused)
  {
    hide WellFormed, LogFits, Acceptable, AuxRoom, AuxFits, InsertAux;
    RefusalIff(s, epoch, env);
    hide Refusal;
    if LiveFor(s, epoch, env) {
      RoomIff(s.partition.value, s.keys.key.value, s.ids, payload);
      SealsIff(s, AuxiliaryJson, payload, NoFault);
    }
  }

  // ---------------------------------------------------------------- OCR results

  /** The identities an OCR result must share with the first one of its capture. */
  predicate SharesIdentity(p: Partition, page: Page, calibration: Digest) {
    && (p.captureSet.inference.Some? ==> p.captureSet.inference.value == page.inference)
    && (p.captureSet.calibration.Some? ==> p.captureSet.calibration.value == calibration)
  }

  /** An OCR result is on record for that frame, inference and preprocessing. */
  predicate HasOcr(p: Partition, page: Page) {
    OcrKey(page.frameId, page.inference, page.preprocessing) in p.ocrByKey
  }

  lemma FrameIsStored(s: Store, frameId: Id)
    requires StoreInv(s) && s.partition.Some?
    ensures HasFrame(s.partition.value, frameId) <==> frameId in PlainOf(s).frames
  {
    hide LogFits, FramesStored, Lists, RecordsOpen, OcrIndexed, ExtractionsIndexed, Counted, RecordsPartitioned;
  }

  lemma OcrIsLive(p: Partition, key: Key, ids: Id, k: OcrKey)
    requires WellFormed(p, key, ids) && k in p.ocrByKey
    ensures IsLiveAux(p, p.ocrByKey[k].recordId)
  {
    hide FramesIndexed, FramesStored, Lists, RecordsOpen, ExtractionsIndexed, Counted;
  }

  /**
   An OCR result is accepted exactly when the caller is live, its frame is stored, and either a result for the same
   frame and identities is on record, which is then answered, or it shares the identities of its capture, there is room
   and nothing fails on the way.
   */
  lemma OcrAcceptedIff(s: Store, epoch: Epoch, env: Env, page: Page, calibration: Digest, fault: FaultPoint)
    requires StoreInv(s)
    ensures var reply := PutOcr(s, epoch, env, page, calibration, fault).1;
            var asked := 0 < |page.payload| <= MAX_AUXILIARY_CANONICAL_JSON_BYTES && LiveFor(s, epoch, env);
            && (reply.StoredRecord? && reply.reused <==>
                  asked && page.frameId in PlainOf(s).frames && HasOcr(s.partition.value, page))
            && (reply.StoredRecord? && reply.reused ==> reply.recordId == s.partition.value.ocrByKey[KeyOf(page)].recordId)
            && (reply.StoredRecord? && !reply.reused <==>
                  && asked && page.frameId in PlainOf(s).frames && !HasOcr(s.partition.value, page)
                  && SharesIdentity(s.partition.value, page, calibration) && AuxFits(s.partition.value, page.payload)
                  && |s.partition.value.ocrByKey| < 16
                  && Sealable(s.partition.value, AuxiliaryJson, page.payload, fault) && fault.NoFault?)
            && (reply == Refused(RECORD_NOT_FOUND) <==> asked && page.frameId !in PlainOf(s).frames)
            && (reply == Refused(IDENTITY_MISMATCH) <==>
                  && asked && page.frameId in PlainOf(s).frames && !HasOcr(s.partition.value, page)
                  && !SharesIdentity(s.partition.value, page, calibration))
  {
    hide WellFormed, LogFits, Acceptable, AuxRoom, AuxFits, InsertOcr, HasFrame, PlainOf, IsLiveAux;
    RefusalIff(s, epoch, env);
    hide Refusal;
    if LiveFor(s, epoch, env) {
      var p, key := s.partition.value, s.keys.key.value;
      RoomIff(p, key, s.ids, page.payload);
      SealsIff(s, AuxiliaryJson, page.payload, fault);
      FrameIsStored(s, page.frameId);
      if KeyOf(page) in p.ocrByKey { OcrIsLive(p, key, s.ids, KeyOf(page)); }
    }
  }

  // ---------------------------------------------------------------- extractions

  /** On record for its frame and identities, with its result ID, and with exactly its bytes. */
  predicate SourceStored(s: Store, page: Page) {
    && s.partition.Some? && HasOcr(s.partition.value, page)
    && var stored := s.partition.value.ocrByKey[OcrKey(page.frameId, page.inference, page.preprocessing)];
       && stored.resultId == page.resultId && stored.recordId in PlainOf(s).aux
       && PlainOf(s).aux[stored.recordId] == page.payload
  }

  predicate OnRecord(s: Store, page: Page) {
    && s.partition.Some? && HasOcr(s.partition.value, page)
    && s.partition.value.ocrByKey[OcrKey(page.frameId, page.inference, page.preprocessing)].resultId == page.resultId
  }

  /** A page is refused unless it is stored: for not being on record under its result ID, or for other bytes. */
  lemma PageAnswer(s: Store, page: Page)
    requires StoreInv(s) && s.partition.Some?
    ensures PageRefusal(s.partition.value, s.keys.key, page)
            == if SourceStored(s, page) then None
               else if OnRecord(s, page) then Some(INTEGRITY_FAILURE) else Some(RECORD_NOT_FOUND)
  {
    hide WellFormed, LogFits, FramesOf, PayloadOf, Decrypt;
    var p, key, k := s.partition.value, s.keys.key.value, KeyOf(page);
    Shape(p, key, s.ids);
    if k in p.ocrByKey {
      OcrIsLive(p, key, s.ids, k);
      DecryptReads(p, key, s.ids, p.ocrByKey[k].recordId);
    }
  }

  lemma {:induction false} PagesAnswer(s: Store, pages: seq<Page>)
    requires StoreInv(s) && s.partition.Some?
    ensures PagesRefusal(s.partition.value, s.keys.key, pages).None? <==> forall i :: 0 <= i < |pages| ==> SourceStored(s, pages[i])
  {
    hide StoreInv, PageRefusal, SourceStored, OnRecord;
    if pages != [] {
      PagesAnswer(s, pages[..|pages| - 1]);
      PageAnswer(s, pages[|pages| - 1]);
    }
  }

  /** The pages are named in order of result ID, one to three of them, all of different frames. */
  predicate Names(x: ExtractionInput, pages: seq<Page>) {
    && 1 <= |pages| <= 3 && |x.sources| == |pages|
    && (forall i :: 0 <= i < |pages| ==> x.sources[i] == pages[i].resultId)
    && (forall i, j :: 0 <= i < j < |pages| ==> pages[i].resultId < pages[j].resultId && pages[i].frameId != pages[j].frameId)
  }

  lemma ExtractionIsLive(p: Partition, key: Key, ids: Id, k: ExtractionKey)
    requires WellFormed(p, key, ids) && k in p.extractionByKey
    ensures IsLiveAux(p, p.extractionByKey[k].recordId)
  {
    hide FramesIndexed, FramesStored, Lists, RecordsOpen, OcrIndexed, Counted;
  }

  predicate ExtractionAsked(s: Store, epoch: Epoch, env: Env, pages: seq<Page>, x: ExtractionInput) {
    && Names(x, pages) && x.provenanceValid && 0 < |x.payload| <= MAX_AUXILIARY_CANONICAL_JSON_BYTES
    && LiveFor(s, epoch, env) && s.partition.value.captureSet.profile == x.profile
  }

  /**
   An extraction is accepted exactly when it names its pages, the caller is live for its profile, every page is stored
   with exactly its bytes, and either the same extraction is on record with the same digest, which is then answered, or
   none is, there is room and nothing fails on the way.
   */
  lemma ExtractionAcceptedIff(s: Store, epoch: Epoch, env: Env, pages: seq<Page>, x: ExtractionInput, fault: FaultPoint)
    requires StoreInv(s)
    ensures var reply := PutExtraction(s, epoch, env, pages, x, fault).1;
            var asked := ExtractionAsked(s, epoch, env, pages, x) && forall i :: 0 <= i < |pages| ==> SourceStored(s, pages[i]);
            var k := ExtractionKey(x.sources, x.identity);
            && (reply.StoredRecord? && reply.reused <==>
                  && asked && k in s.partition.value.extractionByKey
                  && s.partition.value.extractionByKey[k].digest == x.digest)
            && (reply.StoredRecord? && reply.reused ==> reply.recordId == s.partition.value.extractionByKey[k].recordId)
            && (reply.StoredRecord? && !reply.reused <==>
                  && asked && k !in s.partition.value.extractionByKey && AuxFits(s.partition.value, x.payload)
                  && |s.partition.value.extractionByKey| < 16
                  && Sealable(s.partition.value, AuxiliaryJson, x.payload, fault) && fault.NoFault?)
  {
    hide WellFormed, LogFits, Acceptable, AuxRoom, AuxFits, InsertExtraction, PlainOf, IsLiveAux, PagesRefusal, SourceStored;
    RefusalIff(s, epoch, env);
    assert NamesPages(pages, x) <==> Names(x, pages);
    hide Refusal, NamesPages, Names;
    if LiveFor(s, epoch, env) {
      var p, key, k := s.partition.value, s.keys.key.value, ExtractionKey(x.sources, x.identity);
      RoomIff(p, key, s.ids, x.payload);
      SealsIff(s, AuxiliaryJson, x.payload, fault);
      PagesAnswer(s, pages);
      if k in p.extractionByKey { ExtractionIsLive(p, key, s.ids, k); }
    }
  }

  /** The first page that is not stored decides the refusal: it is not on record, or on record with other bytes. */
  lemma FirstPageRefuses(s: Store, epoch: Epoch, env: Env, pages: seq<Page>, x: ExtractionInput, fault: FaultPoint, i: nat)
    requires StoreInv(s) && ExtractionAsked(s, epoch, env, pages, x)
    requires i < |pages| && !SourceStored(s, pages[i]) && forall k :: 0 <= k < i ==> SourceStored(s, pages[k])
    ensures PutExtraction(s, epoch, env, pages, x, fault)
            == (s, Refused(if OnRecord(s, pages[i]) then INTEGRITY_FAILURE else RECORD_NOT_FOUND))
  {
    hide StoreInv, SourceStored, OnRecord, PagesRefusal;
    RefusalIff(s, epoch, env);
    hide Refusal;
    FirstRefusal(s, pages, i);
  }

  lemma {:induction false} FirstRefusal(s: Store, pages: seq<Page>, i: nat)
    requires StoreInv(s) && s.partition.Some? && i < |pages|
    requires !SourceStored(s, pages[i]) && forall k :: 0 <= k < i ==> SourceStored(s, pages[k])
    ensures PagesRefusal(s.partition.value, s.keys.key, pages)
            == Some(if OnRecord(s, pages[i]) then INTEGRITY_FAILURE else RECORD_NOT_FOUND)
    decreases |pages|
  {
    hide StoreInv, SourceStored, OnRecord, PageRefusal;
    var init := pages[..|pages| - 1];
    if i == |pages| - 1 {
      PagesAnswer(s, init);
      PageAnswer(s, pages[i]);
    } else {
      FirstRefusal(s, init, i);
    }
  }

  lemma OcrIsOnRecord(s: Store, epoch: Epoch, env: Env, page: Page, calibration: Digest, fault: FaultPoint)
    ensures var (s', reply) := PutOcr(s, epoch, env, page, calibration, fault);
            reply.StoredRecord? && !reply.reused ==>
              && s'.partition.Some? && HasOcr(s'.partition.value, page)
              && s'.partition.value.ocrByKey[KeyOf(page)] == StoredOcr(reply.recordId, page.resultId, KeyOf(page))
  {
    hide Consume, InsertAux, AuxRoom, HasFrame, Refusal, IsLiveAux, AuxSized;
  }

  lemma OcrBytesAreKept(s: Store, epoch: Epoch, env: Env, page: Page, calibration: Digest, fault: FaultPoint)
    requires StoreInv(s)
    ensures var (s', reply) := PutOcr(s, epoch, env, page, calibration, fault);
            reply.StoredRecord? && !reply.reused ==>
              reply.recordId in PlainOf(s').aux && PlainOf(s').aux[reply.recordId] == page.payload
  {
    hide StoreInv, PlainOf, PutOcr, NewOnly;
    PutOcrRefines(s, OpPutOcr(epoch, env, page, calibration, fault));
  }

  /** A result that was stored is a source from then on: no extraction over that very page is refused because of it. */
  lemma StoredPageIsSource(s: Store, epoch: Epoch, env: Env, page: Page, calibration: Digest, fault: FaultPoint)
    requires StoreInv(s)
    ensures var (s', reply) := PutOcr(s, epoch, env, page, calibration, fault);
            reply.StoredRecord? && !reply.reused ==> SourceStored(s', page)
  {
    OcrIsOnRecord(s, epoch, env, page, calibration, fault);
    OcrBytesAreKept(s, epoch, env, page, calibration, fault);
    hide StoreInv, PlainOf, PutOcr;
  }

  // ---------------------------------------------------------------- tampering

  /** The ciphertext of one record, put in the place of another's. */
  function Transplanted(p: Partition, from: Id, to: Id): Partition
    requires from in p.records && to in p.records
  {
    var r := p.records[from];
    p.(records := p.records[to := Record(to, p.records[to].recordType, r.nonce, r.ciphertext, r.plaintextLength)])
  }

  /** What does not open under the associated data of its place is an integrity failure. */
  lemma NotOpened(p: Partition, key: Key, id: Id, t: RecordType)
    requires id in p.records && p.records[id].id == id
    requires Open(key, p.records[id].nonce, Aad(p.epoch, id, t), p.records[id].ciphertext).None?
    ensures Decrypt(p, Some(key), id, t) == Refused(if p.records[id].recordType == t then INTEGRITY_FAILURE else RECORD_TYPE_MISMATCH)
  {
    hide Open;
  }

  /** A record is sealed for its own place. */
  lemma SealedForItsPlace(p: Partition, key: Key, ids: Id, id: Id)
    requires WellFormed(p, key, ids) && id in p.records
    ensures p.records[id].ciphertext.aad == Aad(p.epoch, id, p.records[id].recordType)
  {
    RecordOpens(p, key, ids, id);
    hide WellFormed, Decode;
  }

  lemma OtherPlaceOpensNot(key: Key, nonce: nat, aad: Aad, c: Ciphertext)
    requires c.aad != aad
    ensures Open(key, nonce, aad, c).None?
  {
  }

  /** A ciphertext is bound to its record: in the place of another's it does not open. */
  lemma TransplantIsRefused(p: Partition, key: Key, ids: Id, from: Id, to: Id, t: RecordType)
    requires WellFormed(p, key, ids) && from in p.records && to in p.records && from != to
    ensures Decrypt(Transplanted(p, from, to), Some(key), to, t)
            == Refused(if p.records[to].recordType == t then INTEGRITY_FAILURE else RECORD_TYPE_MISMATCH)
  {
    hide WellFormed, Decode, Decrypt, Open;
    SealedForItsPlace(p, key, ids, from);
    var q := Transplanted(p, from, to);
    OtherPlaceOpensNot(key, q.records[to].nonce, Aad(q.epoch, to, t), q.records[to].ciphertext);
    NotOpened(q, key, to, t);
  }

  /** A partition whose epoch, key or nonces are not those of sealing opens nothing. */
  lemma OnlyAsSealed(p: Partition, key: Key, ids: Id, id: Id, other: Partition, otherKey: Key)
    requires WellFormed(p, key, ids) && id in p.records && id in other.records
    requires other.records[id].recordType == p.records[id].recordType && other.records[id].ciphertext == p.records[id].ciphertext
    requires other.records[id].id == id
    requires otherKey != key || other.epoch != p.epoch || other.records[id].nonce != p.records[id].nonce
    ensures Decrypt(other, Some(otherKey), id, p.records[id].recordType) == Refused(INTEGRITY_FAILURE)
  {
    RecordOpens(p, key, ids, id);
    hide WellFormed, Decode, Decrypt;
    NotOpened(other, otherKey, id, p.records[id].recordType);
  }
}
