/** The encrypted evidence store as the source keeps it: a key authority, one partition, saved copies and rollback. */
module EvidenceStore {
  import opened Basics
  import opened PrivateCodec
  import opened EvidenceModel
  import opened EvidenceSafety
  import opened EvidenceTheorems
  import opened FrameMetadata

  /** The only owner of the capture's key. The log is a history variable. */
  class CaptureKeyAuthority {
    var epoch: Option<Epoch>
    var key: Option<Key>
    var lastDestroyed: nat
    var drawn: Key
    ghost var log: seq<Use>

    ghost function View(): KeyAuthority
      reads this
    {
      KeyAuthority(epoch, key, lastDestroyed, drawn, log)
    }

    constructor ()
      ensures View() == INITIAL_STORE.keys
    {
      epoch, key, lastDestroyed, drawn, log := None, None, 0, 0, [];
    }

    method CreateKey(forEpoch: Epoch) returns (ok: bool)
      modifies this
      ensures var was := old(View());
              && ok == (forEpoch.captureSeq > was.lastDestroyed && was.epoch.None? && was.key.None?)
              && View() == if ok then was.(epoch := Some(forEpoch), key := Some(was.drawn), drawn := was.drawn + 1) else was
    {
      if forEpoch.captureSeq <= lastDestroyed || epoch.Some? || key.Some? {
        return false;
      }
      epoch, key, drawn := Some(forEpoch), Some(drawn), drawn + 1;
      return true;
    }

    method Encrypt(forEpoch: Epoch, nonce: nat, plaintext: Bytes, aad: Aad) returns (c: Option<Ciphertext>)
      modifies this
      ensures var was := old(View());
              if was.epoch == Some(forEpoch) && was.key.Some? then
                c == Some(Sealed(was.key.value, nonce, aad, plaintext))
                && View() == was.(log := was.log + [Use(was.key.value, nonce)])
              else c == None && View() == was
    {
      if epoch != Some(forEpoch) || key.None? {
        return None;
      }
      log := log + [Use(key.value, nonce)];
      return Some(Sealed(key.value, nonce, aad, plaintext));
    }

    method DestroyKey(forEpoch: Epoch) returns (ok: bool)
      modifies this
      ensures var r := EvidenceModel.DestroyKey(old(View()), forEpoch); View() == r.0 && ok == r.1
    {
      if epoch.None? && key.None? {
        return forEpoch.captureSeq <= lastDestroyed;
      }
      if epoch != Some(forEpoch) || key.None? {
        return false;
      }
      key, epoch := None, None;
      lastDestroyed := Max(lastDestroyed, forEpoch.captureSeq);
      return true;
    }

    predicate HasKey(forEpoch: Epoch): (ok: bool)
      reads this
      ensures ok <==> View().epoch == Some(forEpoch) && View().key.Some?
    {
      epoch == Some(forEpoch) && key.Some?
    }
  }

  class CapturePartition {
    const epoch: Epoch
    var captureSet: CaptureSet
    var isOpen: bool
    var committed: bool
    var nonceCounter: nat
    var records: map<Id, Record>
    var evidence: map<Id, Frame>
    var frameIdBySeq: map<nat, Id>
    var auxIds: set<Id>
    var ocrByKey: map<OcrKey, StoredOcr>
    var extractionByKey: map<ExtractionKey, StoredExtraction>
    var acceptedBytes: nat
    var auxBytes: nat
    var frameCipherBytes: nat
    var auxCipherBytes: nat

    function View(): Partition
      reads this
    {
      Partition(epoch, captureSet, isOpen, committed, nonceCounter, records, evidence, frameIdBySeq, auxIds, ocrByKey,
                extractionByKey, acceptedBytes, auxBytes, frameCipherBytes, auxCipherBytes)
    }

    constructor (epoch: Epoch, profile: Digest)
      ensures View() == EmptyPartition(epoch, profile)
    {
      this.epoch := epoch;
      captureSet := CaptureSet(profile, [], None, None);
      isOpen, committed, nonceCounter := true, false, 0;
      records, evidence, frameIdBySeq, auxIds := map[], map[], map[], {};
      ocrByKey, extractionByKey := map[], map[];
      acceptedBytes, auxBytes, frameCipherBytes, auxCipherBytes := 0, 0, 0, 0;
    }

    /** The counter is moved before the nonce is used, and nothing ever moves it back. */
    method NextNonce() returns (nonce: Option<nat>)
      modifies this
      ensures var was := old(View());
              if was.nonceCounter >= MAX_NONCE_COUNTER then nonce == None && View() == was
              else nonce == Some(was.nonceCounter + 1) && View() == was.(nonceCounter := was.nonceCounter + 1)
    {
      if nonceCounter >= MAX_NONCE_COUNTER {
        return None;
      }
      nonceCounter := nonceCounter + 1;
      return Some(nonceCounter);
    }

    method AddFrame(f: Frame, r: Record, nextCipher: nat)
      requires nextCipher == View().frameCipherBytes + Size(r.ciphertext)
      modifies this
      ensures View() == InsertFrame(old(View()), f, r)
    {
      hide InsertSorted, Size;
      var sorted := SortedFrameIds(captureSet.frameIds, evidence, f);
      records := records[r.id := r];
      evidence := evidence[f.frameId := f];
      frameIdBySeq := frameIdBySeq[f.frameSeq := f.frameId];
      acceptedBytes := acceptedBytes + f.encodedSize;
      frameCipherBytes := nextCipher;
      captureSet := captureSet.(frameIds := sorted);
    }

    method AddAux(payload: Bytes, r: Record, nextCipher: nat)
      requires nextCipher == View().auxCipherBytes + Size(r.ciphertext)
      modifies this
      ensures View() == InsertAux(old(View()), payload, r)
    {
      records := records[r.id := r];
      auxIds := auxIds + {r.id};
      auxBytes := auxBytes + |payload|;
      auxCipherBytes := nextCipher;
    }

    method AddOcr(page: Page, calibration: Digest, r: Record, nextCipher: nat)
      requires nextCipher == View().auxCipherBytes + Size(r.ciphertext)
      modifies this
      ensures View() == InsertOcr(old(View()), page, calibration, r)
    {
      AddAux(page.payload, r, nextCipher);
      ocrByKey := ocrByKey[KeyOf(page) := StoredOcr(r.id, page.resultId, KeyOf(page))];
      captureSet := captureSet.(inference := Some(page.inference), calibration := Some(calibration));
    }

    method AddExtraction(x: ExtractionInput, r: Record, nextCipher: nat)
      requires nextCipher == View().auxCipherBytes + Size(r.ciphertext)
      modifies this
      ensures View() == InsertExtraction(old(View()), x, r)
    {
      AddAux(x.payload, r, nextCipher);
      var k := ExtractionKey(x.sources, x.identity);
      extractionByKey := extractionByKey[k := StoredExtraction(r.id, x.digest, k)];
    }

    /** Put the saved copies of a frame insertion back; the nonce counter is not among them. */
    method RestoreFrames(saved: Partition)
      requires saved == View().(captureSet := saved.captureSet, records := saved.records, evidence := saved.evidence,
                                frameIdBySeq := saved.frameIdBySeq, acceptedBytes := saved.acceptedBytes,
                                frameCipherBytes := saved.frameCipherBytes)
      modifies this
      ensures View() == saved
    {
      captureSet, records, evidence, frameIdBySeq := saved.captureSet, saved.records, saved.evidence, saved.frameIdBySeq;
      acceptedBytes, frameCipherBytes := saved.acceptedBytes, saved.frameCipherBytes;
    }

    /** Put the saved copies of an auxiliary insertion back. */
    method RestoreAux(saved: Partition)
      requires saved == View().(captureSet := saved.captureSet, records := saved.records, auxIds := saved.auxIds,
                                ocrByKey := saved.ocrByKey, extractionByKey := saved.extractionByKey,
                                auxBytes := saved.auxBytes, auxCipherBytes := saved.auxCipherBytes)
      modifies this
      ensures View() == saved
    {
      captureSet, records, auxIds := saved.captureSet, saved.records, saved.auxIds;
      ocrByKey, extractionByKey := saved.ocrByKey, saved.extractionByKey;
      auxBytes, auxCipherBytes := saved.auxBytes, saved.auxCipherBytes;
    }

    method DropAux(id: Id)
      requires id in View().records && AuxPayload(View().records[id]) <= View().auxBytes
      requires Size(View().records[id].ciphertext) <= View().auxCipherBytes
      requires View().records[id].recordType.AuxiliaryJson? && View().records[id].plaintextLength >= OVERHEAD_BYTES
      modifies this
      ensures View() == RemoveAux(old(View()), id)
    {
      hide OcrWithout, ExtractionsWithout;
      var record := records[id];
      records := records - {id};
      auxIds := auxIds - {id};
      ocrByKey := OcrWithout(ocrByKey, id);
      extractionByKey := ExtractionsWithout(extractionByKey, id);
      auxBytes := auxBytes - (record.plaintextLength - OVERHEAD_BYTES);
      auxCipherBytes := auxCipherBytes - Size(record.ciphertext);
    }

    method Shut()
      modifies this
      ensures View() == old(View()).(open := false)
    {
      isOpen := false;
    }

    method MarkCommitted()
      modifies this
      ensures View() == old(View()).(committed := true)
    {
      committed := true;
    }

    method ClearRecords()
      modifies this
      ensures View() == old(View()).(records := map[])
    {
      records := map[];
    }

    method ClearIndices()
      modifies this
      ensures View() == old(View()).(evidence := map[], frameIdBySeq := map[], auxIds := {}, ocrByKey := map[],
                                     extractionByKey := map[])
    {
      evidence, frameIdBySeq, auxIds, ocrByKey, extractionByKey := map[], map[], {}, map[], map[];
    }

    method ClearMetadata()
      modifies this
      ensures View() == old(View()).(
                captureSet := CaptureSet(old(View()).captureSet.profile, [], None, None),
                acceptedBytes := 0, auxBytes := 0, frameCipherBytes := 0, auxCipherBytes := 0)
    {
      captureSet := captureSet.(frameIds := [], inference := None, calibration := None);
      acceptedBytes, auxBytes, frameCipherBytes, auxCipherBytes := 0, 0, 0, 0;
    }
  }

  lemma InsertedFurtherLeft(frameIds: seq<Id>, i: nat, evidence: map<Id, Frame>, f: Frame)
    requires 0 < i <= |frameIds|
    ensures var last := frameIds[i - 1];
            if last in evidence && evidence[last].frameSeq > f.frameSeq then
              InsertSorted(frameIds[..i], evidence, f) + frameIds[i..]
              == InsertSorted(frameIds[..i - 1], evidence, f) + frameIds[i - 1..]
            else InsertSorted(frameIds[..i], evidence, f) == frameIds[..i] + [f.frameId]
  {
    assert frameIds[..i][..i - 1] == frameIds[..i - 1];
    assert [frameIds[i - 1]] + frameIds[i..] == frameIds[i - 1..];
  }

  /** Sort the frames by sequence number: the sorted list so far and one more frame. */
  method SortedFrameIds(frameIds: seq<Id>, evidence: map<Id, Frame>, f: Frame) returns (sorted: seq<Id>)
    ensures sorted == InsertSorted(frameIds, evidence, f)
  {
    var i := |frameIds|;
    assert frameIds[..i] == frameIds && InsertSorted([], evidence, f) == [] + [f.frameId];
    hide InsertSorted;
    while i > 0 && frameIds[i - 1] in evidence && evidence[frameIds[i - 1]].frameSeq > f.frameSeq
      invariant 0 <= i <= |frameIds|
      invariant InsertSorted(frameIds, evidence, f) == InsertSorted(frameIds[..i], evidence, f) + frameIds[i..]
    {
      InsertedFurtherLeft(frameIds, i, evidence, f);
      i := i - 1;
    }
    if i > 0 {
      InsertedFurtherLeft(frameIds, i, evidence, f);
    }
    sorted := frameIds[..i] + [f.frameId] + frameIds[i..];
  }

  class PrivateEvidenceStore {
    const keys: CaptureKeyAuthority
    var partition: CapturePartition?
    var lastDestroyed: nat
    var lastFence: Option<nat>
    var trace: seq<CleanupStep>
    var destroyed: bool
    var ids: Id

    ghost function View(): Store
      reads this, keys, partition
    {
      Store(keys.View(), if partition == null then None else Some(partition.View()), lastDestroyed, lastFence, trace,
            destroyed, ids)
    }

    constructor ()
      ensures View() == INITIAL_STORE && StoreInv(View()) && fresh(keys)
    {
      keys := new CaptureKeyAuthority();
      partition, lastDestroyed, lastFence, trace, destroyed, ids := null, 0, None, [], false, 0;
    }

    /** The exact live authority every operation on an open partition needs. */
    method RequireOpen(epoch: Epoch, env: Env) returns (refusal: Option<Reason>)
      ensures refusal == Refusal(View(), epoch, env)
      ensures refusal.None? ==> partition != null
    {
      if !env.slotFree {
        return Some(OPERATION_BUSY);
      }
      if !env.live || !env.authorised {
        return Some(ACCESS_DENIED);
      }
      if destroyed || partition == null || partition.epoch != epoch || !env.fenceFits || !partition.isOpen {
        return Some(CAPTURE_CLOSED);
      }
      return None;
    }

    /** Look up the key, draw IDs and a nonce, encode, and encrypt. */
    method SealRecord(p: CapturePartition, t: RecordType, payload: Bytes, fault: FaultPoint) returns (sealing: Sealing)
      requires p == partition
      modifies this`ids, keys, p
      ensures var r := Consume(old(View()), t, payload, fault); View() == r.0 && sealing == r.1
    {
      hide Encode, CapturePartition.View, CaptureKeyAuthority.View;
      var v := p.View();
      if fault == BeforeKeyLookup {
        return NotMade(OPERATION_FAILED);
      }
      if !keys.HasKey(v.epoch) {
        return NotMade(INVARIANT_FAILURE);
      }
      ids := ids + Draws(t);
      var recordId := ids - 1;
      var nonce := p.NextNonce();
      if nonce.None? {
        return NotMade(INVARIANT_FAILURE);
      }
      var encoded := Encode(t, payload);
      if encoded.None? {
        return NotMade(CodecReason(t));
      }
      if fault == BeforeEncryption {
        return NotMade(OPERATION_FAILED);
      }
      var ciphertext := keys.Encrypt(v.epoch, nonce.value, encoded.value, Aad(v.epoch, recordId, t));
      if fault == AfterEncryption {
        return NotMade(OPERATION_FAILED);
      }
      return Made(Record(recordId, t, nonce.value, ciphertext.value, |encoded.value|));
    }

    method CheckFrame(epoch: Epoch, env: Env, input: FrameInput) returns (refusal: Option<Reason>)
      ensures refusal == FrameRefusal(View(), epoch, env, input)
      ensures refusal.None? ==> partition != null
    {
      if !input.digestMatches {
        return Some(OPERATION_FAILED);
      }
      refusal := RequireOpen(epoch, env);
      if refusal.Some? {
        return;
      }
      var p := partition;
      if input.frameSeq in p.frameIdBySeq || |p.frameIdBySeq| >= MAX_CAPTURE_FRAMES || |p.records| >= MAX_PRIVATE_RECORDS
         || p.acceptedBytes + |input.payload| > MAX_CAPTURE_ENCODED_BYTES {
        return Some(CAPACITY_EXCEEDED);
      }
    }

    method PutFrame(epoch: Epoch, env: Env, input: FrameInput, fault: FaultPoint, table: FrameTable, a: Acceptance,
                    metadataFault: MetadataFault)
      returns (reply: Reply)
      requires StoreInv(View())
      modifies this, keys, partition, table
      ensures StoreInv(View()) && partition == old(partition)
      ensures var r := EvidenceModel.PutFrame(old(View()), epoch, env, input, fault, CommitsMetadata(a, metadataFault));
              View() == r.0 && reply == r.1
      ensures table.View() == if reply.StoredFrame? then Committed(old(table.View()), a, reply.frame) else old(table.View())
    {
      hide Consume, CapturePartition.View,
        CaptureKeyAuthority.View, StoreInv, Refusal, FrameTable.View, InsertFrame, CommitsMetadata, Committed, FrameRefusal;
      PutFrameKeeps(View(), epoch, env, input, fault, CommitsMetadata(a, metadataFault));
      FrameTotalFits(View(), epoch, env, input, fault);
      var refusal := CheckFrame(epoch, env, input);
      if refusal.Some? {
        return Refused(refusal.value);
      }
      var sealing := SealRecord(partition, FrameJpeg, input.payload, fault);
      if sealing.NotMade? {
        return Refused(sealing.reason);
      }
      var f := Frame(ids - 2, input.frameSeq, |input.payload|, input.digest, epoch, sealing.record.id);
      reply := CommitFrame(partition, f, sealing.record, fault, table, a, metadataFault);
    }

    /** Insert a sealed frame and commit its metadata, or put both back. */
    method CommitFrame(p: CapturePartition, f: Frame, r: Record, fault: FaultPoint, table: FrameTable, a: Acceptance,
                       metadataFault: MetadataFault)
      returns (reply: Reply)
      requires p == partition && View().partition.value.frameCipherBytes + Size(r.ciphertext) <= MAX_FRAME_CIPHERTEXT_BYTES
      modifies p, table
      ensures reply == if fault != AfterInsertion && CommitsMetadata(a, metadataFault) then StoredFrame(f)
                       else Refused(OPERATION_FAILED)
      ensures var was := old(View());
              View() == if reply.StoredFrame? then was.(partition := Some(InsertFrame(was.partition.value, f, r))) else was
      ensures table.View() == if reply.StoredFrame? then Committed(old(table.View()), a, f) else old(table.View())
    {
      hide CapturePartition.View, FrameTable.View;
      var saved := p.View();
      reply := Refused(OPERATION_FAILED);
      label attempt: {
        var nextCipher := saved.frameCipherBytes + Size(r.ciphertext);
        if nextCipher > MAX_FRAME_CIPHERTEXT_BYTES {
          reply := Refused(CAPACITY_EXCEEDED);
          break attempt;
        }
        p.AddFrame(f, r, nextCipher);
        if fault == AfterInsertion {
          break attempt;
        }
        var ok := table.CommitMetadata(a, f, metadataFault);
        if !ok {
          break attempt;
        }
        return StoredFrame(f);
      }
      p.RestoreFrames(saved);
    }

    method CheckRecord(epoch: Epoch, env: Env, payload: Bytes) returns (refusal: Option<Reason>)
      ensures refusal == RecordRefusal(View(), epoch, env, payload)
      ensures refusal.None? ==> partition != null
    {
      if !AuxSized(payload) {
        return Some(OPERATION_FAILED);
      }
      refusal := RequireOpen(epoch, env);
      if refusal.None? && !AuxRoom(partition.View(), payload) {
        return Some(CAPACITY_EXCEEDED);
      }
    }

    method PutRecord(epoch: Epoch, env: Env, payload: Bytes) returns (reply: Reply)
      requires StoreInv(View())
      modifies this, keys, partition
      ensures StoreInv(View()) && partition == old(partition)
      ensures var r := EvidenceModel.PutRecord(old(View()), epoch, env, payload); View() == r.0 && reply == r.1
    {
      hide StoreInv, Consume, InsertAux;
      PutRecordKeeps(View(), epoch, env, payload);
      if Refusal(View(), epoch, env).None? { AuxTotalFits(View(), payload, NoFault); }
      var refusal := CheckRecord(epoch, env, payload);
      hide CapturePartition.View, CaptureKeyAuthority.View;
      if refusal.Some? {
        return Refused(refusal.value);
      }
      var sealing := SealRecord(partition, AuxiliaryJson, payload, NoFault);
      if sealing.NotMade? {
        return Refused(sealing.reason);
      }
      var nextCipher := partition.View().auxCipherBytes + Size(sealing.record.ciphertext);
      if nextCipher > MAX_AUXILIARY_CIPHERTEXT_BYTES {
        return Refused(CAPACITY_EXCEEDED);
      }
      partition.AddAux(payload, sealing.record, nextCipher);
      return StoredRecord(sealing.record.id, false);
    }

    method CheckOcr(epoch: Epoch, env: Env, page: Page, calibration: Digest) returns (answer: Option<Reply>)
      ensures answer == OcrReply(View(), epoch, env, page, calibration)
      ensures answer.None? ==> partition != null
    {
      if !AuxSized(page.payload) {
        return Some(Refused(OPERATION_FAILED));
      }
      var refusal := RequireOpen(epoch, env);
      if refusal.Some? {
        return Some(Refused(refusal.value));
      }
      var p, k := partition, KeyOf(page);
      if !HasFrame(p.View(), page.frameId) {
        return Some(Refused(RECORD_NOT_FOUND));
      }
      if k in p.ocrByKey {
        if p.ocrByKey[k].recordId !in p.auxIds || p.ocrByKey[k].recordId !in p.records {
          return Some(Refused(INTEGRITY_FAILURE));
        }
        return Some(StoredRecord(p.ocrByKey[k].recordId, true));
      }
      if (p.captureSet.inference.Some? && p.captureSet.inference.value != page.inference)
         || (p.captureSet.calibration.Some? && p.captureSet.calibration.value != calibration) {
        return Some(Refused(IDENTITY_MISMATCH));
      }
      if !AuxRoom(p.View(), page.payload) || |p.ocrByKey| >= MAX_AUXILIARY_RECORDS {
        return Some(Refused(CAPACITY_EXCEEDED));
      }
      return None;
    }

    method PutOcr(epoch: Epoch, env: Env, page: Page, calibration: Digest, fault: FaultPoint) returns (reply: Reply)
      requires StoreInv(View())
      modifies this, keys, partition
      ensures StoreInv(View()) && partition == old(partition)
      ensures var r := EvidenceModel.PutOcr(old(View()), epoch, env, page, calibration, fault); View() == r.0 && reply == r.1
    {
      hide Consume, PrivateEvidenceStore.View, CapturePartition.View,
        CaptureKeyAuthority.View, StoreInv, Refusal, InsertOcr, OcrReply;
      PutOcrKeeps(View(), epoch, env, page, calibration, fault);
      OcrTotalFits(View(), epoch, env, page, calibration, fault);
      var answer := CheckOcr(epoch, env, page, calibration);
      if answer.Some? {
        return answer.value;
      }
      var sealing := SealRecord(partition, AuxiliaryJson, page.payload, fault);
      if sealing.NotMade? {
        return Refused(sealing.reason);
      }
      reply := CommitOcr(partition, page, calibration, sealing.record, fault);
    }

    /** Insert and index a sealed OCR result, or put everything back. */
    method CommitOcr(p: CapturePartition, page: Page, calibration: Digest, r: Record, fault: FaultPoint)
      returns (reply: Reply)
      requires p == partition && View().partition.value.auxCipherBytes + Size(r.ciphertext) <= MAX_AUXILIARY_CIPHERTEXT_BYTES
      modifies p
      ensures reply == if fault != AfterInsertion then StoredRecord(r.id, false) else Refused(OPERATION_FAILED)
      ensures var was := old(View());
              View() == if reply.StoredRecord? then was.(partition := Some(InsertOcr(was.partition.value, page, calibration, r))) else was
    {
      hide CapturePartition.View;
      var saved := p.View();
      reply := Refused(OPERATION_FAILED);
      label attempt: {
        var nextCipher := saved.auxCipherBytes + Size(r.ciphertext);
        if nextCipher > MAX_AUXILIARY_CIPHERTEXT_BYTES {
          reply := Refused(CAPACITY_EXCEEDED);
          break attempt;
        }
        p.AddOcr(page, calibration, r, nextCipher);
        if fault == AfterInsertion {
          break attempt;
        }
        return StoredRecord(r.id, false);
      }
      p.RestoreAux(saved);
    }

    /** Decrypt and check every source page of an extraction. */
    method CheckPages(p: CapturePartition, pages: seq<Page>) returns (refusal: Option<Reason>)
      requires p == partition
      ensures refusal == PagesRefusal(p.View(), keys.View().key, pages)
    {
      refusal := None;
      var i := 0;
      while i < |pages| && refusal.None?
        invariant i <= |pages|
        invariant refusal == PagesRefusal(p.View(), keys.View().key, pages[..i])
        invariant refusal.Some? ==> PagesRefusal(p.View(), keys.View().key, pages) == refusal
      {
        assert pages[..i + 1][..i] == pages[..i];
        refusal := PageRefusal(p.View(), keys.key, pages[i]);
        i := i + 1;
        if refusal.Some? {
          FirstRefusalStands(p.View(), keys.key, pages, i);
        }
      }
      assert pages[..|pages|] == pages;
    }

    method CheckExtraction(epoch: Epoch, env: Env, pages: seq<Page>, x: ExtractionInput) returns (answer: Option<Reply>)
      ensures answer == ExtractionReply(View(), epoch, env, pages, x)
      ensures answer.None? ==> partition != null
    {
      hide PagesRefusal, NamesPages;
      if !NamesPages(pages, x) || !x.provenanceValid {
        return Some(Refused(OPERATION_FAILED));
      }
      if !AuxSized(x.payload) {
        return Some(Refused(CAPACITY_EXCEEDED));
      }
      var refusal := RequireOpen(epoch, env);
      if refusal.Some? {
        return Some(Refused(refusal.value));
      }
      var p, k := partition, ExtractionKey(x.sources, x.identity);
      if p.captureSet.profile != x.profile {
        return Some(Refused(INTEGRITY_FAILURE));
      }
      refusal := CheckPages(p, pages);
      if refusal.Some? {
        return Some(Refused(refusal.value));
      }
      if k in p.extractionByKey {
        if !IsLiveAux(p.View(), p.extractionByKey[k].recordId) || p.extractionByKey[k].digest != x.digest {
          return Some(Refused(INTEGRITY_FAILURE));
        }
        return Some(StoredRecord(p.extractionByKey[k].recordId, true));
      }
      if !AuxRoom(p.View(), x.payload) || |p.extractionByKey| >= MAX_AUXILIARY_RECORDS {
        return Some(Refused(CAPACITY_EXCEEDED));
      }
      return None;
    }

    method PutExtraction(epoch: Epoch, env: Env, pages: seq<Page>, x: ExtractionInput, fault: FaultPoint)
      returns (reply: Reply)
      requires StoreInv(View())
      modifies this, keys, partition
      ensures StoreInv(View()) && partition == old(partition)
      ensures var r := EvidenceModel.PutExtraction(old(View()), epoch, env, pages, x, fault); View() == r.0 && reply == r.1
    {
      hide Consume, PrivateEvidenceStore.View, CapturePartition.View,
        CaptureKeyAuthority.View, StoreInv, Refusal, InsertExtraction, ExtractionReply;
      PutExtractionKeeps(View(), epoch, env, pages, x, fault);
      ExtractionTotalFits(View(), epoch, env, pages, x, fault);
      var answer := CheckExtraction(epoch, env, pages, x);
      if answer.Some? {
        return answer.value;
      }
      var sealing := SealRecord(partition, AuxiliaryJson, x.payload, fault);
      if sealing.NotMade? {
        return Refused(sealing.reason);
      }
      reply := CommitExtraction(partition, x, sealing.record, fault);
    }

    /** Insert and index a sealed extraction, or put everything back. */
    method CommitExtraction(p: CapturePartition, x: ExtractionInput, r: Record, fault: FaultPoint)
      returns (reply: Reply)
      requires p == partition && View().partition.value.auxCipherBytes + Size(r.ciphertext) <= MAX_AUXILIARY_CIPHERTEXT_BYTES
      modifies p
      ensures reply == if fault != AfterInsertion then StoredRecord(r.id, false) else Refused(OPERATION_FAILED)
      ensures var was := old(View());
              View() == if reply.StoredRecord? then was.(partition := Some(InsertExtraction(was.partition.value, x, r))) else was
    {
      hide CapturePartition.View;
      var saved := p.View();
      reply := Refused(OPERATION_FAILED);
      label attempt: {
        var nextCipher := saved.auxCipherBytes + Size(r.ciphertext);
        if nextCipher > MAX_AUXILIARY_CIPHERTEXT_BYTES {
          reply := Refused(CAPACITY_EXCEEDED);
          break attempt;
        }
        p.AddExtraction(x, r, nextCipher);
        if fault == AfterInsertion {
          break attempt;
        }
        return StoredRecord(r.id, false);
      }
      p.RestoreAux(saved);
    }

    method DecryptRecord(p: CapturePartition, r: Record, id: Id, t: RecordType) returns (reply: Reply)
      requires p == partition && id in p.records && p.records[id] == r
      ensures reply == Decrypt(p.View(), keys.key, id, t)
    {
      if r.id != id {
        return Refused(INTEGRITY_FAILURE);
      }
      if r.recordType != t {
        return Refused(RECORD_TYPE_MISMATCH);
      }
      if keys.key.None? {
        return Refused(INVARIANT_FAILURE);
      }
      var encoded := Open(keys.key.value, r.nonce, Aad(p.epoch, id, t), r.ciphertext);
      if encoded.None? || |encoded.value| != r.plaintextLength {
        return Refused(INTEGRITY_FAILURE);
      }
      var payload := Decode(t, encoded.value);
      return if payload.Some? then Payload(payload.value) else Refused(INTEGRITY_FAILURE);
    }

    method GetFrame(epoch: Epoch, env: Env, frameId: Id) returns (reply: Reply)
      ensures reply == EvidenceModel.GetFrame(View(), epoch, env, frameId)
    {
      var refusal := RequireOpen(epoch, env);
      if refusal.Some? {
        return Refused(refusal.value);
      }
      var p := partition;
      if !HasFrame(p.View(), frameId) {
        return Refused(RECORD_NOT_FOUND);
      }
      var ref := p.evidence[frameId].recordRef;
      if ref !in p.records {
        return Refused(INTEGRITY_FAILURE);
      }
      reply := DecryptRecord(p, p.records[ref], ref, FrameJpeg);
    }

    method GetRecord(epoch: Epoch, env: Env, id: Id, t: RecordType) returns (reply: Reply)
      ensures reply == EvidenceModel.GetRecord(View(), epoch, env, id, t)
    {
      if t != AuxiliaryJson {
        return Refused(RECORD_TYPE_MISMATCH);
      }
      var refusal := RequireOpen(epoch, env);
      if refusal.Some? {
        return Refused(refusal.value);
      }
      var p := partition;
      if id !in p.auxIds {
        return Refused(RECORD_NOT_FOUND);
      }
      if id !in p.records {
        return Refused(INTEGRITY_FAILURE);
      }
      reply := DecryptRecord(p, p.records[id], id, t);
    }

    method CheckDelete(epoch: Epoch, env: Env, id: Id) returns (answer: Option<Reply>)
      ensures answer == DeleteReply(View(), epoch, env, id)
      ensures answer.None? ==> partition != null
    {
      hide SourcesUse;
      var refusal := RequireOpen(epoch, env);
      if refusal.Some? {
        return Some(if env.slotFree && !env.live then Answer(false) else Refused(refusal.value));
      }
      var p := partition;
      if id !in p.auxIds {
        return Some(Refused(RECORD_NOT_FOUND));
      }
      if id !in p.records || p.records[id].recordType != AuxiliaryJson {
        return Some(Refused(INVARIANT_FAILURE));
      }
      if SourcesUse(p.View(), id) {
        return Some(Refused(INVARIANT_FAILURE));
      }
      return None;
    }

    method DeleteRecord(epoch: Epoch, env: Env, id: Id) returns (reply: Reply)
      requires StoreInv(View())
      modifies this, keys, partition
      ensures StoreInv(View()) && partition == old(partition)
      ensures var r := Delete(old(View()), epoch, env, id); View() == r.0 && reply == r.1
    {
      DeleteKeeps(View(), epoch, env, id);
      DeletedBytesFit(View(), epoch, env, id);
      hide StoreInv, SourcesUse, RemoveAux, CaptureKeyAuthority.View, CapturePartition.View, DeleteReply;
      var answer := CheckDelete(epoch, env, id);
      if answer.Some? {
        return answer.value;
      }
      partition.DropAux(id);
      return Answer(true);
    }

    method CreatePartition(epoch: Epoch, profile: Digest, env: Env) returns (reply: Reply)
      requires StoreInv(View())
      modifies this, keys, partition
      ensures StoreInv(View()) && (partition == old(partition) || fresh(partition))
      ensures var r := Create(old(View()), epoch, profile, env); View() == r.0 && reply == r.1
    {
      CreateKeeps(View(), epoch, profile, env);
      hide StoreInv;
      if !env.slotFree {
        return Refused(OPERATION_BUSY);
      }
      if !env.live || !env.authorised {
        return Refused(ACCESS_DENIED);
      }
      if destroyed || !env.fenceFits || epoch.captureSeq <= lastDestroyed {
        return Refused(CAPTURE_CLOSED);
      }
      if partition != null {
        return if partition.epoch == epoch && partition.isOpen && keys.HasKey(epoch) then Opened
               else Refused(INVARIANT_FAILURE);
      }
      var ok := keys.CreateKey(epoch);
      if !ok {
        return Refused(INVARIANT_FAILURE);
      }
      partition := new CapturePartition(epoch, profile);
      trace := [];
      return Opened;
    }

    method CheckCommit(epoch: Epoch, authorised: bool) returns (ok: bool)
      ensures ok == MayCommit(View(), epoch, authorised)
    {
      if partition == null || partition.epoch != epoch || !partition.isOpen || partition.committed
         || !StillEmpty(partition.View()) || !keys.HasKey(epoch) || !authorised {
        return false;
      }
      return true;
    }

    method CommitPartition(epoch: Epoch, authorised: bool) returns (reply: Reply)
      requires StoreInv(View())
      modifies this, keys, partition
      ensures StoreInv(View()) && partition == old(partition)
      ensures var r := Commit(old(View()), epoch, authorised); View() == r.0 && reply == r.1
    {
      CommitKeeps(View(), epoch, authorised);
      var ok := CheckCommit(epoch, authorised);
      assert ok ==> partition != null;
      hide StoreInv, MayCommit, CaptureKeyAuthority.View, CapturePartition.View;
      if !ok {
        return Answer(false);
      }
      partition.MarkCommitted();
      return Answer(true);
    }

    method CloseAdmission(epoch: Epoch, authorised: bool) returns (reply: Reply)
      requires StoreInv(View())
      modifies this, keys, partition
      ensures StoreInv(View()) && partition == old(partition)
      ensures var r := Close(old(View()), epoch, authorised); View() == r.0 && reply == r.1
    {
      hide StoreInv;
      CloseKeeps(View(), epoch, authorised);
      if !authorised {
        return Refused(ACCESS_DENIED);
      }
      if partition == null {
        return Answer(keys.epoch.None? && keys.key.None?);
      }
      if partition.epoch != epoch {
        return Answer(false);
      }
      partition.Shut();
      if trace == [] || trace[|trace| - 1] != AdmissionClosed {
        trace := [AdmissionClosed];
      }
      return Answer(true);
    }

    /** What is there at this very moment, as a step of the erasure of `p` is completed. */
    ghost function Observed(step: CleanupStep, p: CapturePartition): Phase
      reads this, keys, p
    {
      Phase(step, keys.View().key.Some?, p.View())
    }

    /**
     The ordered erasure: the key first, then the ciphertexts, the indices and the metadata. `history` is what
     was observed right after each step.
     */
    method ErasePartition(p: CapturePartition, epoch: Epoch, before: seq<CleanupStep>)
      returns (ok: bool, steps: seq<CleanupStep>, ghost history: seq<Phase>)
      modifies keys, p
      ensures var r := EvidenceModel.DestroyKey(old(keys.View()), epoch); keys.View() == r.0 && ok == r.1
      ensures if ok then
                && steps == before + [KeyDestroyed, CiphertextCleared, IndicesCleared, MetadataCleared]
                && ErasurePhases(history, old(p.View())) && p.View() == history[|history| - 1].left
              else p.View() == old(p.View()).(open := false)
    {
      hide CapturePartition.View, CaptureKeyAuthority.View;
      steps := before;
      p.Shut();
      history := [Observed(AdmissionClosed, p)];
      ok := keys.DestroyKey(epoch);
      if !ok {
        return;
      }
      history := history + [Observed(KeyDestroyed, p)];
      steps := steps + [KeyDestroyed];
      p.ClearRecords();
      history := history + [Observed(CiphertextCleared, p)];
      steps := steps + [CiphertextCleared];
      p.ClearIndices();
      history := history + [Observed(IndicesCleared, p)];
      steps := steps + [IndicesCleared];
      p.ClearMetadata();
      history := history + [Observed(MetadataCleared, p)];
      steps := steps + [MetadataCleared];
    }

    /** `history` is empty when nothing is erased. */
    method DestroyPartition(epoch: Epoch) returns (ok: bool, ghost history: seq<Phase>)
      requires StoreInv(View())
      modifies this, keys, partition
      ensures StoreInv(View()) && View() == Destroy(old(View()), epoch).0 && ok == Destroy(old(View()), epoch).1
      ensures ok && old(partition) != null ==>
                && KeyGoesFirst(history, old(partition.View()))
                && old(partition).View() == Cleared(old(partition.View())).(open := false)
    {
      hide StoreInv, KeyGoesFirst, Cleared, ErasurePhases, EvidenceModel.DestroyKey, Max;
      DestroyKeeps(View(), epoch);
      history := [];
      if partition == null {
        return epoch.captureSeq <= lastDestroyed, history;
      }
      var p := partition;
      if p.epoch != epoch {
        return false, history;
      }
      assert p.View().epoch == epoch;
      DestroyedStore(View(), epoch);
      hide CapturePartition.View, CaptureKeyAuthority.View, Destroy;
      ghost var was := p.View();
      var steps;
      ok, steps, history := ErasePartition(p, epoch, if trace == [] then [AdmissionClosed] else trace);
      if !ok {
        return false, history;
      }
      PhasesFit(history, was);
      lastDestroyed := Max(lastDestroyed, epoch.captureSeq);
      partition := null;
      trace := steps;
    }

    method RollbackUncommitted(epoch: Epoch, authorised: bool) returns (reply: Reply)
      requires StoreInv(View())
      modifies this, keys, partition
      ensures StoreInv(View())
      ensures var r := Rollback(old(View()), epoch, authorised); View() == r.0 && reply == r.1
    {
      if partition == null {
        return Answer(epoch.captureSeq <= lastDestroyed);
      }
      if partition.epoch != epoch || partition.committed || !StillEmpty(partition.View()) || !authorised {
        return Answer(false);
      }
      hide StoreInv, Destroy;
      var ok, history := DestroyPartition(epoch);
      return Answer(ok);
    }

    method DestroyCapture(epoch: Epoch, authorised: bool, fence: nat, fenceAuthorises: bool) returns (reply: Reply)
      requires StoreInv(View())
      modifies this, keys, partition
      ensures StoreInv(View())
      ensures var r := EvidenceModel.DestroyCapture(old(View()), epoch, authorised, fence, fenceAuthorises); View() == r.0 && reply == r.1
    {
      DestroyCaptureKeeps(View(), epoch, authorised, fence, fenceAuthorises);
      hide StoreInv, Destroy;
      if !authorised {
        return Refused(ACCESS_DENIED);
      }
      if partition == null && epoch.captureSeq <= lastDestroyed {
        return Answer(lastFence == Some(fence));
      }
      if !fenceAuthorises {
        return Refused(ACCESS_DENIED);
      }
      var ok, history := DestroyPartition(epoch);
      if !ok {
        return Refused(INVARIANT_FAILURE);
      }
      lastFence := Some(fence);
      return Answer(true);
    }

    method ShutdownStore(authorised: bool) returns (reply: Reply)
      requires StoreInv(View())
      modifies this
      ensures StoreInv(View())
      ensures var r := Shutdown(old(View()), authorised); View() == r.0 && reply == r.1
    {
      if !authorised || partition != null || keys.epoch.Some? || keys.key.Some? {
        return Answer(false);
      }
      destroyed := true;
      return Answer(true);
    }
  }

  // ---------------------------------------------------------------- facts the methods lean on

  /** Whether the key and what of the partition is still there when a step of the erasure is completed. */
  datatype Phase = Phase(step: CleanupStep, keyPresent: bool, left: Partition)

  /**
   The five steps in order. No record has gone while the key is still there, no index has gone while a record is
   still there, and the counters are the last to go.
   */
  predicate KeyGoesFirst(history: seq<Phase>, was: Partition) {
    && |history| == |FULL_TRACE|
    && (forall i :: 0 <= i < |history| ==> history[i].step == FULL_TRACE[i] && !history[i].left.open)
    && (forall i :: 0 <= i < |history| && history[i].left.records != was.records ==> !history[i].keyPresent)
    && (forall i :: 0 <= i < |history| && !SameIndices(history[i].left, was) ==> history[i].left.records == map[])
    && (forall i :: 0 <= i < |history| && history[i].left.captureSet != was.captureSet ==> NoIndices(history[i].left))
    && !history[|history| - 1].keyPresent && history[|history| - 1].left == Cleared(was).(open := false)
  }

  /** The phases of an erasure: what changes from each to the next is what the step at hand clears. */
  predicate ErasurePhases(history: seq<Phase>, was: Partition) {
    && |history| == 5
    && history[0] == Phase(AdmissionClosed, history[0].keyPresent, was.(open := false))
    && history[1] == Phase(KeyDestroyed, false, was.(open := false))
    && history[2] == Phase(CiphertextCleared, false, history[1].left.(records := map[]))
    && history[3] == Phase(IndicesCleared, false, history[2].left.(
                       evidence := map[], frameIdBySeq := map[], auxIds := {}, ocrByKey := map[], extractionByKey := map[]))
    && history[4] == Phase(MetadataCleared, false, history[3].left.(
                       captureSet := CaptureSet(was.captureSet.profile, [], None, None),
                       acceptedBytes := 0, auxBytes := 0, frameCipherBytes := 0, auxCipherBytes := 0))
  }

  /** What a destruction leaves of a store whose partition is meant. */
  lemma DestroyedStore(s: Store, epoch: Epoch)
    requires s.partition.Some? && s.partition.value.epoch == epoch
    ensures var (keys, ok) := DestroyKey(s.keys, epoch);
            Destroy(s, epoch) ==
              if ok then
                (s.(keys := keys, partition := None, lastDestroyed := Max(s.lastDestroyed, epoch.captureSeq),
                    trace := (if s.trace == [] then [AdmissionClosed] else s.trace)
                             + [KeyDestroyed, CiphertextCleared, IndicesCleared, MetadataCleared]),
                 true)
              else (s.(partition := Some(s.partition.value.(open := false))), false)
  {
    hide Max;
  }

  lemma PhasesFit(history: seq<Phase>, was: Partition)
    requires ErasurePhases(history, was)
    ensures KeyGoesFirst(history, was) && history[4].left == Cleared(was).(open := false)
  {
  }

  predicate SameIndices(p: Partition, was: Partition) {
    && p.evidence == was.evidence && p.frameIdBySeq == was.frameIdBySeq && p.auxIds == was.auxIds
    && p.ocrByKey == was.ocrByKey && p.extractionByKey == was.extractionByKey
  }

  predicate NoIndices(p: Partition) {
    p.evidence == map[] && p.frameIdBySeq == map[] && p.auxIds == {} && p.ocrByKey == map[] && p.extractionByKey == map[]
  }

  /** An erased partition: only its identity, its flags and its nonce counter are left. */
  function Cleared(p: Partition): Partition {
    EmptyPartition(p.epoch, p.captureSet.profile).(open := p.open, committed := p.committed, nonceCounter := p.nonceCounter)
  }

  /** The ciphertext total after sealing an admitted frame is within its bound. */
  lemma FrameTotalFits(s: Store, epoch: Epoch, env: Env, input: FrameInput, fault: FaultPoint)
    requires StoreInv(s)
    ensures FrameRefusal(s, epoch, env, input).None? && Consume(s, FrameJpeg, input.payload, fault).1.Made? ==>
              s.partition.value.frameCipherBytes + Size(Consume(s, FrameJpeg, input.payload, fault).1.record.ciphertext)
              <= MAX_FRAME_CIPHERTEXT_BYTES
  {
    hide WellFormed, LogFits, Consume;
    if FrameRefusal(s, epoch, env, input).None? {
      ConsumeKeeps(s, FrameJpeg, input.payload, fault);
      FrameCount(s.partition.value, s.keys.key.value, s.ids);
      CiphertextFits(s.partition.value, s.keys.key.value, s.ids, input.payload);
    }
  }

  lemma AuxTotalFits(s: Store, payload: Bytes, fault: FaultPoint)
    requires StoreInv(s) && s.partition.Some?
    ensures AuxRoom(s.partition.value, payload) && Consume(s, AuxiliaryJson, payload, fault).1.Made? ==>
              s.partition.value.auxCipherBytes + Size(Consume(s, AuxiliaryJson, payload, fault).1.record.ciphertext)
              <= MAX_AUXILIARY_CIPHERTEXT_BYTES
  {
    hide WellFormed, LogFits, Consume;
    ConsumeKeeps(s, AuxiliaryJson, payload, fault);
    CiphertextFits(s.partition.value, s.keys.key.value, s.ids, payload);
  }

  lemma OcrTotalFits(s: Store, epoch: Epoch, env: Env, page: Page, calibration: Digest, fault: FaultPoint)
    requires StoreInv(s)
    ensures OcrReply(s, epoch, env, page, calibration).None? && Consume(s, AuxiliaryJson, page.payload, fault).1.Made? ==>
              s.partition.value.auxCipherBytes + Size(Consume(s, AuxiliaryJson, page.payload, fault).1.record.ciphertext)
              <= MAX_AUXILIARY_CIPHERTEXT_BYTES
  {
    hide StoreInv, Consume;
    if OcrReply(s, epoch, env, page, calibration).None? { AuxTotalFits(s, page.payload, fault); }
  }

  lemma ExtractionTotalFits(s: Store, epoch: Epoch, env: Env, pages: seq<Page>, x: ExtractionInput, fault: FaultPoint)
    requires StoreInv(s)
    ensures ExtractionReply(s, epoch, env, pages, x).None? && Consume(s, AuxiliaryJson, x.payload, fault).1.Made? ==>
              s.partition.value.auxCipherBytes + Size(Consume(s, AuxiliaryJson, x.payload, fault).1.record.ciphertext)
              <= MAX_AUXILIARY_CIPHERTEXT_BYTES
  {
    hide StoreInv, Consume, PagesRefusal;
    if ExtractionReply(s, epoch, env, pages, x).None? { AuxTotalFits(s, x.payload, fault); }
  }

  /** Deleting never takes a counter below zero. */
  lemma DeletedBytesFit(s: Store, epoch: Epoch, env: Env, id: Id)
    requires StoreInv(s)
    ensures DeleteReply(s, epoch, env, id).None? ==>
              var (p, r) := (s.partition.value, s.partition.value.records[id]);
              && r.recordType.AuxiliaryJson? && r.plaintextLength >= OVERHEAD_BYTES
              && p.auxBytes >= AuxPayload(r) && p.auxCipherBytes >= Size(r.ciphertext)
  {
    hide SourcesUse;
    if DeleteReply(s, epoch, env, id).None? {
      var p := s.partition.value;
      RemovedOpens(p, id, s.keys.key.value, s.ids);
      SumsRemoved(p.records, p.acceptedBytes, p.auxBytes, p.frameCipherBytes, p.auxCipherBytes, id);
    }
    hide FramesIndexed, FramesStored, RecordsOpen, OcrIndexed, ExtractionsIndexed, Lists, Sums, LogFits;
  }

  lemma {:induction false} FirstRefusalStands(p: Partition, key: Option<Key>, pages: seq<Page>, i: nat)
    requires i <= |pages| && PagesRefusal(p, key, pages[..i]).Some?
    ensures PagesRefusal(p, key, pages) == PagesRefusal(p, key, pages[..i])
    decreases |pages|
  {
    if i < |pages| {
      assert pages[..|pages| - 1][..i] == pages[..i];
      FirstRefusalStands(p, key, pages[..|pages| - 1], i);
    } else {
      assert pages[..i] == pages;
    }
  }
}
