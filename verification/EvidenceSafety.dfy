/** What every operation of the evidence store keeps. */
module EvidenceSafety {
  import opened Basics
  import opened PrivateCodec
  import opened EvidenceModel

  // ---------------------------------------------------------------- sealing

  /** A drawn nonce and drawn IDs leave the partition well-formed. */
  lemma DrawKeeps(p: Partition, key: Key, ids: Id, ids': Id, nonceCounter: nat)
    requires WellFormed(p, key, ids) && ids <= ids' && p.nonceCounter <= nonceCounter
    ensures WellFormed(p.(nonceCounter := nonceCounter), key, ids')
  {
    hide FramesIndexed, FramesStored, Lists, RecordsPartitioned, OcrIndexed, ExtractionsIndexed, Sums, Decode;
  }

  /** The record a sealing makes: fresh, openable, and as long as its payload and a constant. */
  predicate FreshRecord(r: Record, t: RecordType, payload: Bytes, key: Key, epoch: Epoch, nonceCounter: nat, ids: Id) {
    && r.recordType == t && r.id < ids && Opens(r, r.id, epoch, key, nonceCounter)
    && Encode(t, payload) == Some(r.ciphertext.plaintext)
    && r.plaintextLength == |payload| + OVERHEAD_BYTES && Size(r.ciphertext) == |payload| + SEALING_BYTES
  }

  lemma LogKeeps(keys: KeyAuthority, nonceCounter: nat)
    requires LogFits(keys, nonceCounter) && keys.key.Some?
    ensures LogFits(keys, nonceCounter + 1)
    ensures LogFits(keys.(log := keys.log + [Use(keys.key.value, nonceCounter + 1)]), nonceCounter + 1)
  {
  }

  lemma EncodedOpens(t: RecordType, payload: Bytes)
    requires Encode(t, payload).Some?
    ensures Decode(t, Encode(t, payload).value) == Some(payload)
    ensures |Encode(t, payload).value| == |payload| + OVERHEAD_BYTES
  {
    DecodesExactlyWhatEncodes(t, payload, Encode(t, payload).value);
    EncodedShape(t, payload, if t.FrameJpeg? then AuxiliaryJson else FrameJpeg);
    hide Encode, Decode;
  }

  lemma ConsumeKeeps(s: Store, t: RecordType, payload: Bytes, fault: FaultPoint)
    requires StoreInv(s) && s.partition.Some?
    ensures var (used, sealing) := Consume(s, t, payload, fault);
            && StoreInv(used)
            && used.partition.Some? && used.ids <= s.ids + 2
            && used.partition.value == s.partition.value.(nonceCounter := used.partition.value.nonceCounter)
            && used == s.(keys := s.keys.(log := used.keys.log), partition := used.partition, ids := used.ids)
            && (sealing.Made? ==>
                  && FreshRecord(sealing.record, t, payload, s.keys.key.value, s.partition.value.epoch,
                                 used.partition.value.nonceCounter, used.ids)
                  && used.ids == s.ids + Draws(t) && sealing.record.id == used.ids - 1)
  {
    hide WellFormed, LogFits, Encode, Decode;
    var p := s.partition.value;
    var (used, sealing) := Consume(s, t, payload, fault);
    LogKeeps(s.keys, p.nonceCounter);
    DrawKeeps(p, s.keys.key.value, s.ids, used.ids, used.partition.value.nonceCounter);
    if Encode(t, payload).Some? {
      EncodedOpens(t, payload);
    }
  }

  // ---------------------------------------------------------------- frames

  lemma {:induction false} InsertSortedLists(ids: seq<Id>, evidence: map<Id, Frame>, f: Frame)
    requires forall i :: 0 <= i < |ids| ==> ids[i] in evidence && evidence[ids[i]].frameSeq != f.frameSeq
    requires forall i, j :: 0 <= i < j < |ids| ==> evidence[ids[i]].frameSeq < evidence[ids[j]].frameSeq
    requires f.frameId !in evidence
    ensures var (ids', evidence') := (InsertSorted(ids, evidence, f), evidence[f.frameId := f]);
            && |ids'| == |ids| + 1
            && (forall i :: 0 <= i < |ids'| ==> ids'[i] in ids || ids'[i] == f.frameId)
            && (forall i, j :: 0 <= i < j < |ids'| ==> evidence'[ids'[i]].frameSeq < evidence'[ids'[j]].frameSeq)
  {
    if ids != [] && evidence[ids[|ids| - 1]].frameSeq > f.frameSeq {
      InsertSortedLists(ids[..|ids| - 1], evidence, f);
    }
  }

  /** There is only one list of the frames by rising sequence number, so the insertion is the sorted list. */
  lemma {:induction false} ListsUnique(a: seq<Id>, b: seq<Id>, evidence: map<Id, Frame>)
    requires Lists(a, evidence) && Lists(b, evidence)
    ensures a == b
    decreases |a|
  {
    if a != [] {
      var n := |a| - 1;
      LastIsLast(a, b, evidence);
      LastIsLast(b, a, evidence);
      LessLast(a, evidence);
      LessLast(b, evidence);
      ListsUnique(a[..n], b[..n], evidence - {a[n]});
      assert a == a[..n] + [a[n]] && b == b[..n] + [b[n]];
    }
  }

  lemma LessLast(a: seq<Id>, evidence: map<Id, Frame>)
    requires Lists(a, evidence) && a != []
    ensures Lists(a[..|a| - 1], evidence - {a[|a| - 1]})
  {
    var last := a[|a| - 1];
    assert evidence.Keys == (evidence - {last}).Keys + {last};
  }

  lemma LastIsLast(a: seq<Id>, b: seq<Id>, evidence: map<Id, Frame>)
    requires Lists(a, evidence) && Lists(b, evidence) && a != []
    ensures a[|a| - 1] == b[|b| - 1]
  {
    ListsAll(a, evidence);
    ListsAll(b, evidence);
    var x, y := a[|a| - 1], b[|b| - 1];
    var i :| 0 <= i < |b| && b[i] == x;
    var j :| 0 <= j < |a| && a[j] == y;
  }

  lemma ListsAll(a: seq<Id>, evidence: map<Id, Frame>)
    requires Lists(a, evidence)
    ensures forall f :: f in evidence ==> f in a
  {
    var members := set i | 0 <= i < |a| :: a[i];
    Distinct(a);
    Filled(members, evidence.Keys);
  }

  lemma {:induction false} Distinct(a: seq<Id>)
    requires forall i, j :: 0 <= i < j < |a| ==> a[i] != a[j]
    ensures |set i | 0 <= i < |a| :: a[i]| == |a|
  {
    if a != [] {
      var n := |a| - 1;
      Distinct(a[..n]);
      assert (set i | 0 <= i < |a| :: a[i]) == (set i | 0 <= i < n :: a[..n][i]) + {a[n]};
    }
  }

  lemma Filled(part: set<Id>, whole: set<Id>)
    requires part <= whole && |part| == |whole|
    ensures part == whole
  {
    assert whole == part + (whole - part);
  }

  lemma ListsInserted(ids: seq<Id>, evidence: map<Id, Frame>, f: Frame, bySeq: map<nat, Id>, epoch: Epoch)
    requires Lists(ids, evidence) && FramesIndexed(evidence, bySeq, epoch)
    requires f.frameId !in evidence && f.frameSeq !in bySeq
    ensures Lists(InsertSorted(ids, evidence, f), evidence[f.frameId := f])
  {
    InsertSortedLists(ids, evidence, f);
    hide InsertSorted, FramesIndexed;
    assert |evidence[f.frameId := f]| == |evidence| + 1;
  }

  lemma FramesIndexedInserted(evidence: map<Id, Frame>, bySeq: map<nat, Id>, f: Frame)
    requires FramesIndexed(evidence, bySeq, f.epoch) && f.frameId !in evidence && f.frameSeq !in bySeq
    ensures FramesIndexed(evidence[f.frameId := f], bySeq[f.frameSeq := f.frameId], f.epoch)
  {
  }

  lemma FramesStoredInserted(evidence: map<Id, Frame>, records: map<Id, Record>, f: Frame, r: Record)
    requires FramesStored(evidence, records) && f.frameId !in evidence && r.id !in records
    requires f.recordRef == r.id && r.recordType.FrameJpeg? && r.plaintextLength == f.encodedSize + OVERHEAD_BYTES
    ensures FramesStored(evidence[f.frameId := f], records[r.id := r])
  {
  }

  lemma FramePartitioned(records: map<Id, Record>, evidence: map<Id, Frame>, auxIds: set<Id>, f: Frame, r: Record)
    requires RecordsPartitioned(records, evidence, auxIds) && f.frameId !in evidence && r.id !in records
    requires f.recordRef == r.id && r.recordType.FrameJpeg?
    ensures RecordsPartitioned(records[r.id := r], evidence[f.frameId := f], auxIds)
  {
    var evidence' := evidence[f.frameId := f];
    assert evidence'[f.frameId].recordRef == r.id;
    forall q | Referred(evidence, q) ensures Referred(evidence', q) {
      var g :| g in evidence && evidence[g].recordRef == q;
      assert evidence'[g].recordRef == q;
    }
  }

  lemma SumsAdded(records: map<Id, Record>, accepted: nat, aux: nat, frameCipher: nat, auxCipher: nat, r: Record)
    requires Sums(records, accepted, aux, frameCipher, auxCipher) && r.id !in records
    ensures Sums(records[r.id := r], accepted + FramePayload(r), aux + AuxPayload(r), frameCipher + FrameCipher(r),
                 auxCipher + AuxCipher(r))
  {
    SumAdd(records, FramePayload, r.id, r);
    SumAdd(records, AuxPayload, r.id, r);
    SumAdd(records, FrameCipher, r.id, r);
    SumAdd(records, AuxCipher, r.id, r);
    hide FramePayload, AuxPayload, FrameCipher, AuxCipher;
  }

  lemma InsertFrameKeeps(p: Partition, f: Frame, r: Record, payload: Bytes, key: Key, ids: Id)
    requires WellFormed(p, key, ids)
    requires FreshRecord(r, FrameJpeg, payload, key, p.epoch, p.nonceCounter, ids)
    requires f.frameId !in p.evidence && r.id !in p.records && f.frameSeq !in p.frameIdBySeq
    requires f.recordRef == r.id && f.epoch == p.epoch && f.encodedSize == |payload| && f.frameId < ids
    requires |p.evidence| < MAX_CAPTURE_FRAMES && p.acceptedBytes + |payload| <= MAX_CAPTURE_ENCODED_BYTES
    ensures WellFormed(InsertFrame(p, f, r), key, ids)
  {
    hide FramesIndexed, FramesStored, Lists, RecordsPartitioned, ExtractionsIndexed, Sums, Decode, Encode, InsertSorted;
    ListsInserted(p.captureSet.frameIds, p.evidence, f, p.frameIdBySeq, p.epoch);
    FramesIndexedInserted(p.evidence, p.frameIdBySeq, f);
    FramesStoredInserted(p.evidence, p.records, f, r);
    FramePartitioned(p.records, p.evidence, p.auxIds, f, r);
    SumsAdded(p.records, p.acceptedBytes, p.auxBytes, p.frameCipherBytes, p.auxCipherBytes, r);
    assert |p.evidence[f.frameId := f]| == |p.evidence| + 1;
  }

  // ---------------------------------------------------------------- auxiliary records

  lemma AuxPartitioned(records: map<Id, Record>, evidence: map<Id, Frame>, auxIds: set<Id>, r: Record)
    requires RecordsPartitioned(records, evidence, auxIds) && r.id !in records && r.recordType.AuxiliaryJson?
    ensures RecordsPartitioned(records[r.id := r], evidence, auxIds + {r.id}) && r.id !in auxIds
  {
    hide Referred;
  }

  lemma FramesStoredBeside(evidence: map<Id, Frame>, records: map<Id, Record>, r: Record)
    requires FramesStored(evidence, records) && r.id !in records
    ensures FramesStored(evidence, records[r.id := r])
  {
  }

  lemma ResultsBeside(p: Partition, id: Id)
    requires OcrIndexed(p.ocrByKey, p.auxIds, p.evidence, p.captureSet.inference)
    requires ExtractionsIndexed(p.extractionByKey, p.ocrByKey, p.auxIds)
    ensures OcrIndexed(p.ocrByKey, p.auxIds + {id}, p.evidence, p.captureSet.inference)
    ensures ExtractionsIndexed(p.extractionByKey, p.ocrByKey, p.auxIds + {id})
  {
    hide HasResult;
  }

  lemma RecordsOpenAdded(records: map<Id, Record>, epoch: Epoch, key: Key, nonceCounter: nat, ids: Id, r: Record)
    requires RecordsOpen(records, epoch, key, nonceCounter, ids)
    requires r.id < ids && Opens(r, r.id, epoch, key, nonceCounter)
    ensures RecordsOpen(records[r.id := r], epoch, key, nonceCounter, ids)
  {
    hide Opens;
  }

  lemma InsertAuxKeeps(p: Partition, r: Record, payload: Bytes, key: Key, ids: Id)
    requires WellFormed(p, key, ids)
    requires FreshRecord(r, AuxiliaryJson, payload, key, p.epoch, p.nonceCounter, ids) && r.id !in p.records
    requires AuxRoom(p, payload)
    ensures WellFormed(InsertAux(p, payload, r), key, ids)
  {
    hide FramesIndexed, FramesStored, Lists, RecordsPartitioned, RecordsOpen, FrameIdsDrawn, OcrIndexed, ExtractionsIndexed, Sums, Opens, Encode;
    AuxPartitioned(p.records, p.evidence, p.auxIds, r);
    FramesStoredBeside(p.evidence, p.records, r);
    ResultsBeside(p, r.id);
    RecordsOpenAdded(p.records, p.epoch, key, p.nonceCounter, ids, r);
    AuxCounted(p, payload, r);
    hide Counted;
  }

  lemma AuxCounted(p: Partition, payload: Bytes, r: Record)
    requires Counted(p) && Bounded(p) && AuxRoom(p, payload) && r.id !in p.records && r.id !in p.auxIds
    requires r.recordType.AuxiliaryJson? && r.plaintextLength == |payload| + OVERHEAD_BYTES
    requires Size(r.ciphertext) == |payload| + SEALING_BYTES
    ensures Counted(InsertAux(p, payload, r)) && Bounded(InsertAux(p, payload, r))
  {
    SumsAdded(p.records, p.acceptedBytes, p.auxBytes, p.frameCipherBytes, p.auxCipherBytes, r);
    AuxWeights(r, |payload|);
    hide Sums, Size, FramePayload, AuxPayload, FrameCipher, AuxCipher;
  }

  lemma AuxWeights(r: Record, n: nat)
    requires r.recordType.AuxiliaryJson? && r.plaintextLength == n + OVERHEAD_BYTES
    ensures FramePayload(r) == 0 && FrameCipher(r) == 0 && AuxPayload(r) == n && AuxCipher(r) == Size(r.ciphertext)
  {
  }

  lemma OcrAdded(p: Partition, page: Page, recordId: Id)
    requires OcrIndexed(p.ocrByKey, p.auxIds, p.evidence, p.captureSet.inference)
    requires ExtractionsIndexed(p.extractionByKey, p.ocrByKey, p.auxIds)
    requires KeyOf(page) !in p.ocrByKey && recordId in p.auxIds && page.frameId in p.evidence
    requires p.captureSet.inference.Some? ==> p.captureSet.inference.value == page.inference
    ensures var ocr := p.ocrByKey[KeyOf(page) := StoredOcr(recordId, page.resultId, KeyOf(page))];
            && OcrIndexed(ocr, p.auxIds, p.evidence, Some(page.inference))
            && ExtractionsIndexed(p.extractionByKey, ocr, p.auxIds)
  {
    var ocr := p.ocrByKey[KeyOf(page) := StoredOcr(recordId, page.resultId, KeyOf(page))];
    forall id | HasResult(p.ocrByKey, id) ensures HasResult(ocr, id) {
      var j :| j in p.ocrByKey && p.ocrByKey[j].resultId == id;
      assert ocr[j].resultId == id;
    }
    hide HasResult;
  }

  lemma InsertOcrKeeps(p: Partition, page: Page, calibration: Digest, r: Record, key: Key, ids: Id)
    requires WellFormed(p, key, ids)
    requires FreshRecord(r, AuxiliaryJson, page.payload, key, p.epoch, p.nonceCounter, ids) && r.id !in p.records
    requires AuxRoom(p, page.payload) && HasFrame(p, page.frameId) && KeyOf(page) !in p.ocrByKey
    requires p.captureSet.inference.Some? ==> p.captureSet.inference.value == page.inference
    ensures WellFormed(InsertOcr(p, page, calibration, r), key, ids)
  {
    hide FramesIndexed, FramesStored, Lists, RecordsPartitioned, RecordsOpen, FrameIdsDrawn, OcrIndexed, ExtractionsIndexed, Sums, FreshRecord;
    InsertAuxKeeps(p, r, page.payload, key, ids);
    OcrAdded(InsertAux(p, page.payload, r), page, r.id);
  }

  lemma {:induction false} PagesHaveResults(p: Partition, key: Option<Key>, pages: seq<Page>)
    requires PagesRefusal(p, key, pages).None?
    ensures forall i :: 0 <= i < |pages| ==> HasResult(p.ocrByKey, pages[i].resultId)
  {
    if pages != [] {
      PagesHaveResults(p, key, pages[..|pages| - 1]);
      assert KeyOf(pages[|pages| - 1]) in p.ocrByKey;
    }
  }

  lemma ExtractionAdded(p: Partition, x: ExtractionInput, recordId: Id)
    requires ExtractionsIndexed(p.extractionByKey, p.ocrByKey, p.auxIds) && recordId in p.auxIds
    requires forall i :: 0 <= i < |x.sources| ==> HasResult(p.ocrByKey, x.sources[i])
    ensures var k := ExtractionKey(x.sources, x.identity);
            ExtractionsIndexed(p.extractionByKey[k := StoredExtraction(recordId, x.digest, k)], p.ocrByKey, p.auxIds)
  {
    hide HasResult;
  }

  lemma InsertExtractionKeeps(p: Partition, x: ExtractionInput, r: Record, key: Key, ids: Id)
    requires WellFormed(p, key, ids)
    requires FreshRecord(r, AuxiliaryJson, x.payload, key, p.epoch, p.nonceCounter, ids) && r.id !in p.records
    requires AuxRoom(p, x.payload)
    requires forall i :: 0 <= i < |x.sources| ==> HasResult(p.ocrByKey, x.sources[i])
    ensures WellFormed(InsertExtraction(p, x, r), key, ids)
  {
    hide FramesIndexed, FramesStored, Lists, RecordsPartitioned, RecordsOpen, FrameIdsDrawn, OcrIndexed, ExtractionsIndexed, Sums, FreshRecord, HasResult;
    InsertAuxKeeps(p, r, x.payload, key, ids);
    ExtractionAdded(InsertAux(p, x.payload, r), x, r.id);
  }

  // ---------------------------------------------------------------- deletion

  lemma RemovalKeepsResults(p: Partition, id: Id)
    requires OcrIndexed(p.ocrByKey, p.auxIds, p.evidence, p.captureSet.inference)
    requires ExtractionsIndexed(p.extractionByKey, p.ocrByKey, p.auxIds) && id in p.records && !SourcesUse(p, id)
    ensures var p' := RemoveAux(p, id);
            && OcrIndexed(p'.ocrByKey, p'.auxIds, p.evidence, p.captureSet.inference)
            && ExtractionsIndexed(p'.extractionByKey, p'.ocrByKey, p'.auxIds)
  {
    var p' := RemoveAux(p, id);
    forall x, i | x in p'.extractionByKey && 0 <= i < |x.sources| ensures HasResult(p'.ocrByKey, x.sources[i]) {
      assert HasResult(p.ocrByKey, x.sources[i]);
      var k :| k in p.ocrByKey && p.ocrByKey[k].resultId == x.sources[i];
      assert k in p'.ocrByKey && p'.ocrByKey[k].resultId == x.sources[i];
    }
    hide HasResult, SourcesUse;
  }

  lemma SumsRemoved(records: map<Id, Record>, accepted: nat, aux: nat, frameCipher: nat, auxCipher: nat, id: Id)
    requires Sums(records, accepted, aux, frameCipher, auxCipher) && id in records
    requires records[id].recordType.AuxiliaryJson?
    ensures aux >= AuxPayload(records[id]) && auxCipher >= Size(records[id].ciphertext)
    ensures Sums(records - {id}, accepted, aux - AuxPayload(records[id]), frameCipher,
                 auxCipher - Size(records[id].ciphertext))
  {
    SumRemove(records, FramePayload, id);
    SumRemove(records, AuxPayload, id);
    SumRemove(records, FrameCipher, id);
    SumRemove(records, AuxCipher, id);
  }

  lemma FramesStoredWithout(evidence: map<Id, Frame>, records: map<Id, Record>, id: Id)
    requires FramesStored(evidence, records) && id in records && records[id].recordType.AuxiliaryJson?
    ensures FramesStored(evidence, records - {id})
  {
  }

  lemma PartitionedWithout(records: map<Id, Record>, evidence: map<Id, Frame>, auxIds: set<Id>, id: Id)
    requires RecordsPartitioned(records, evidence, auxIds) && id in auxIds
    ensures RecordsPartitioned(records - {id}, evidence, auxIds - {id})
  {
    assert records.Keys == (records - {id}).Keys + {id};
    hide Referred;
  }

  lemma RemoveAuxKeeps(p: Partition, id: Id, key: Key, ids: Id)
    requires WellFormed(p, key, ids) && id in p.auxIds && id in p.records && !SourcesUse(p, id)
    ensures WellFormed(RemoveAux(p, id), key, ids)
  {
    hide SourcesUse, OcrIndexed, ExtractionsIndexed, FramesIndexed, FramesStored, Lists, Sums, Encode, Decode;
    RemovalKeepsResults(p, id);
    RemovedOpens(p, id, key, ids);
    assert p.records[id].recordType.AuxiliaryJson?;
    FramesStoredWithout(p.evidence, p.records, id);
    PartitionedWithout(p.records, p.evidence, p.auxIds, id);
    SumsRemoved(p.records, p.acceptedBytes, p.auxBytes, p.frameCipherBytes, p.auxCipherBytes, id);
    assert |p.auxIds| == |p.auxIds - {id}| + 1;
    hide RecordsPartitioned, RecordsOpen;
  }

  lemma RemovedOpens(p: Partition, id: Id, key: Key, ids: Id)
    requires RecordsOpen(p.records, p.epoch, key, p.nonceCounter, ids) && id in p.records
    ensures p.records[id].plaintextLength > OVERHEAD_BYTES
    ensures Size(p.records[id].ciphertext) == p.records[id].plaintextLength + TAG_BYTES
    ensures RecordsOpen(p.records - {id}, p.epoch, key, p.nonceCounter, ids)
  {
    assert Opens(p.records[id], id, p.epoch, key, p.nonceCounter);
    hide Opens;
  }
}
