/**
 The encrypted evidence store on values: its records, indices and counters, what each operation does to
 them, and the invariant they keep. AES-GCM is ideal: a ciphertext is exactly what was sealed, and opens
 only under the key, nonce and associated data it was sealed with.
 */
module EvidenceModel {
  import opened Basics
  import opened PrivateCodec

  const MAX_CAPTURE_FRAMES: nat := 8
  const MAX_CAPTURE_ENCODED_BYTES: nat := 16 * 1024 * 1024
  const MAX_AUXILIARY_RECORDS: nat := 16
  const MAX_AUXILIARY_PLAINTEXT_BYTES: nat := 1024 * 1024
  const MAX_PRIVATE_RECORDS: nat := MAX_CAPTURE_FRAMES + MAX_AUXILIARY_RECORDS
  const TAG_BYTES: nat := 16
  
  /** What encoding and sealing add to a payload: OVERHEAD_BYTES and TAG_BYTES. */
  const SEALING_BYTES: nat := 33
  const MAX_FRAME_CIPHERTEXT_BYTES: nat := MAX_CAPTURE_ENCODED_BYTES + MAX_CAPTURE_FRAMES * SEALING_BYTES
  const MAX_AUXILIARY_CIPHERTEXT_BYTES: nat := MAX_AUXILIARY_PLAINTEXT_BYTES + MAX_AUXILIARY_RECORDS * SEALING_BYTES
  const MAX_ADMISSION_NOTICE_SOURCE_RESULTS: nat := 3
  const MAX_NONCE_COUNTER: nat := 0xFFFF_FFFF_FFFF_FFFF_FFFF_FFFF

  /** UUIDs and keys are drawn fresh: the n-th draw is n. */
  type Id = nat
  type Key = nat

  /** Digests and identities that are only ever compared. */
  type Digest = int

  datatype Reason =
    | ACCESS_DENIED | CAPTURE_CLOSED | RECORD_NOT_FOUND | RECORD_TYPE_MISMATCH | IDENTITY_MISMATCH
    | CAPACITY_EXCEEDED | INTEGRITY_FAILURE | INVARIANT_FAILURE | OPERATION_BUSY | OPERATION_FAILED

  // ---------------------------------------------------------------- ideal encryption

  datatype Aad = Aad(epoch: Epoch, recordId: Id, recordType: RecordType)

  datatype Ciphertext = Sealed(key: Key, nonce: nat, aad: Aad, plaintext: Bytes)

  function Size(c: Ciphertext): nat {
    |c.plaintext| + TAG_BYTES
  }

  function Open(key: Key, nonce: nat, aad: Aad, c: Ciphertext): Option<Bytes> {
    if c.key == key && c.nonce == nonce && c.aad == aad then Some(c.plaintext) else None
  }

  /** One encrypt call. */
  datatype Use = Use(key: Key, nonce: nat)

  /** The owner of the capture's key; `log` is a history of every encrypt call. */
  datatype KeyAuthority = KeyAuthority(
    epoch: Option<Epoch>, key: Option<Key>, lastDestroyed: nat, drawn: Key, log: seq<Use>)

  // ---------------------------------------------------------------- records and indices

  datatype Record = Record(id: Id, recordType: RecordType, nonce: nat, ciphertext: Ciphertext, plaintextLength: nat)

  datatype Frame = Frame(frameId: Id, frameSeq: nat, encodedSize: nat, digest: Digest, epoch: Epoch, recordRef: Id)

  datatype OcrKey = OcrKey(frameId: Id, inference: Digest, preprocessing: Digest)

  datatype StoredOcr = StoredOcr(recordId: Id, resultId: Id, key: OcrKey)

  datatype ExtractionKey = ExtractionKey(sources: seq<Id>, identity: Digest)

  datatype StoredExtraction = StoredExtraction(recordId: Id, digest: Digest, key: ExtractionKey)

  datatype CaptureSet = CaptureSet(
    profile: Digest, frameIds: seq<Id>, inference: Option<Digest>, calibration: Option<Digest>)

  datatype Partition = Partition(
    epoch: Epoch,
    captureSet: CaptureSet,
    open: bool,
    committed: bool,
    nonceCounter: nat,
    records: map<Id, Record>,
    evidence: map<Id, Frame>,
    frameIdBySeq: map<nat, Id>,
    auxIds: set<Id>,
    ocrByKey: map<OcrKey, StoredOcr>,
    extractionByKey: map<ExtractionKey, StoredExtraction>,
    acceptedBytes: nat,
    auxBytes: nat,
    frameCipherBytes: nat,
    auxCipherBytes: nat)

  datatype CleanupStep = AdmissionClosed | KeyDestroyed | CiphertextCleared | IndicesCleared | MetadataCleared

  const FULL_TRACE: seq<CleanupStep> :=
    [AdmissionClosed, KeyDestroyed, CiphertextCleared, IndicesCleared, MetadataCleared]

  datatype Store = Store(
    keys: KeyAuthority,
    partition: Option<Partition>,
    lastDestroyed: nat,
    lastFence: Option<nat>,
    trace: seq<CleanupStep>,
    destroyed: bool,
    ids: Id)

  const INITIAL_STORE := Store(KeyAuthority(None, None, 0, 0, []), None, 0, None, [], false, 0)

  // ---------------------------------------------------------------- the invariant

  function FramePayload(r: Record): nat {
    if r.recordType.FrameJpeg? && r.plaintextLength >= OVERHEAD_BYTES then r.plaintextLength - OVERHEAD_BYTES else 0
  }

  function AuxPayload(r: Record): nat {
    if r.recordType.AuxiliaryJson? && r.plaintextLength >= OVERHEAD_BYTES then r.plaintextLength - OVERHEAD_BYTES else 0
  }

  function FrameCipher(r: Record): nat {
    if r.recordType.FrameJpeg? then Size(r.ciphertext) else 0
  }

  function AuxCipher(r: Record): nat {
    if r.recordType.AuxiliaryJson? then Size(r.ciphertext) else 0
  }

  /** The sequence lists exactly the frames, by rising sequence number. */
  predicate Lists(ids: seq<Id>, evidence: map<Id, Frame>) {
    && |ids| == |evidence|
    && (forall i :: 0 <= i < |ids| ==> ids[i] in evidence)
    && (forall i, j :: 0 <= i < j < |ids| ==> evidence[ids[i]].frameSeq < evidence[ids[j]].frameSeq)
  }

  /** Sequence numbers and frame IDs are in bijection. */
  predicate FramesIndexed(evidence: map<Id, Frame>, frameIdBySeq: map<nat, Id>, epoch: Epoch) {
    && (forall f :: f in evidence ==>
          && evidence[f].frameId == f && evidence[f].epoch == epoch
          && evidence[f].frameSeq in frameIdBySeq && frameIdBySeq[evidence[f].frameSeq] == f)
    && (forall q :: q in frameIdBySeq ==> frameIdBySeq[q] in evidence && evidence[frameIdBySeq[q]].frameSeq == q)
    && |frameIdBySeq| == |evidence|
  }

  /** Each frame refers to a frame record of its own, of its own length. */
  predicate FramesStored(evidence: map<Id, Frame>, records: map<Id, Record>) {
    && (forall f :: f in evidence ==>
          && evidence[f].recordRef in records
          && records[evidence[f].recordRef].recordType.FrameJpeg?
          && records[evidence[f].recordRef].plaintextLength == evidence[f].encodedSize + OVERHEAD_BYTES)
    && (forall f, g :: f in evidence && g in evidence && evidence[f].recordRef == evidence[g].recordRef ==> f == g)
  }

  /** The record keys are the disjoint union of the frame references and the auxiliary IDs. */
  predicate RecordsPartitioned(records: map<Id, Record>, evidence: map<Id, Frame>, auxIds: set<Id>) {
    && (forall a :: a in auxIds ==> a in records && records[a].recordType.AuxiliaryJson?)
    && (forall r :: r in records ==> r in auxIds || (records[r].recordType.FrameJpeg? && Referred(evidence, r)))
    && |records| == |evidence| + |auxIds|
  }

  predicate Referred(evidence: map<Id, Frame>, recordId: Id) {
    exists f :: f in evidence && evidence[f].recordRef == recordId
  }

  /** The record opens under the live key to a well-formed plaintext of its type. */
  predicate Opens(r: Record, id: Id, epoch: Epoch, key: Key, nonceCounter: nat) {
    && r.id == id
    && r.ciphertext == Sealed(key, r.nonce, Aad(epoch, id, r.recordType), r.ciphertext.plaintext)
    && r.nonce <= nonceCounter
    && r.plaintextLength == |r.ciphertext.plaintext|
    && Decode(r.recordType, r.ciphertext.plaintext).Some?
  }

  predicate RecordsOpen(records: map<Id, Record>, epoch: Epoch, key: Key, nonceCounter: nat, ids: Id) {
    forall r :: r in records ==> r < ids && Opens(records[r], r, epoch, key, nonceCounter)
  }

  predicate FrameIdsDrawn(evidence: map<Id, Frame>, ids: Id) {
    forall f :: f in evidence ==> f < ids
  }

  predicate HasResult(ocr: map<OcrKey, StoredOcr>, resultId: Id) {
    exists k :: k in ocr && ocr[k].resultId == resultId
  }

  /** Every OCR entry points to a live record, belongs to a stored frame and carries the pinned identity. */
  predicate OcrIndexed(ocr: map<OcrKey, StoredOcr>, auxIds: set<Id>, evidence: map<Id, Frame>, inference: Option<Digest>) {
    forall k :: k in ocr ==>
      ocr[k].key == k && ocr[k].recordId in auxIds && k.frameId in evidence && inference == Some(k.inference)
  }

  /** Every extraction points to a live record, and its source results are still indexed. */
  predicate ExtractionsIndexed(extractions: map<ExtractionKey, StoredExtraction>, ocr: map<OcrKey, StoredOcr>, auxIds: set<Id>) {
    && (forall k :: k in extractions ==> extractions[k].key == k && extractions[k].recordId in auxIds)
    && (forall k, i :: k in extractions && 0 <= i < |k.sources| ==> HasResult(ocr, k.sources[i]))
  }

  /** The running byte counters are the sums over the live records. */
  ghost predicate Counted(p: Partition) {
    && Sums(p.records, p.acceptedBytes, p.auxBytes, p.frameCipherBytes, p.auxCipherBytes)
    && p.frameCipherBytes == p.acceptedBytes + |p.evidence| * SEALING_BYTES
    && p.auxCipherBytes == p.auxBytes + |p.auxIds| * SEALING_BYTES
  }

  ghost predicate Sums(records: map<Id, Record>, accepted: nat, aux: nat, frameCipher: nat, auxCipher: nat) {
    && accepted == Sum(records, FramePayload) && aux == Sum(records, AuxPayload)
    && frameCipher == Sum(records, FrameCipher) && auxCipher == Sum(records, AuxCipher)
  }

  predicate Bounded(p: Partition) {
    && |p.evidence| <= MAX_CAPTURE_FRAMES && |p.auxIds| <= MAX_AUXILIARY_RECORDS
    && p.acceptedBytes <= MAX_CAPTURE_ENCODED_BYTES && p.auxBytes <= MAX_AUXILIARY_PLAINTEXT_BYTES
  }

  ghost predicate WellFormed(p: Partition, key: Key, ids: Id) {
    && FramesIndexed(p.evidence, p.frameIdBySeq, p.epoch)
    && FramesStored(p.evidence, p.records)
    && Lists(p.captureSet.frameIds, p.evidence)
    && RecordsPartitioned(p.records, p.evidence, p.auxIds)
    && RecordsOpen(p.records, p.epoch, key, p.nonceCounter, ids)
    && FrameIdsDrawn(p.evidence, ids)
    && OcrIndexed(p.ocrByKey, p.auxIds, p.evidence, p.captureSet.inference)
    && ExtractionsIndexed(p.extractionByKey, p.ocrByKey, p.auxIds)
    && Counted(p) && Bounded(p)
  }

  /** No key was ever used twice with one nonce, and the counter is ahead of every use of the live key. */
  predicate LogFits(keys: KeyAuthority, nonceCounter: nat) {
    && (forall i, j :: 0 <= i < j < |keys.log| ==> keys.log[i] != keys.log[j])
    && (forall i :: 0 <= i < |keys.log| ==> keys.log[i].key < keys.drawn)
    && (keys.key.Some? ==>
          && keys.key.value < keys.drawn
          && forall i :: 0 <= i < |keys.log| && keys.log[i].key == keys.key.value ==> keys.log[i].nonce <= nonceCounter)
  }

  /** A key exists exactly when a partition exists, for the same epoch, above everything destroyed. */
  predicate KeyFits(s: Store) {
    && s.keys.lastDestroyed == s.lastDestroyed
    && s.keys.key.Some? == s.keys.epoch.Some? == s.partition.Some?
    && (s.partition.Some? ==>
          s.keys.epoch == Some(s.partition.value.epoch) && s.partition.value.epoch.captureSeq > s.lastDestroyed)
    && (s.destroyed ==> s.partition.None?)
  }

  /** What a cleanup trace can be: of an open, a closed, or an absent partition. */
  predicate TraceFits(s: Store) {
    if s.partition.Some? then s.trace == if s.partition.value.open then [] else [AdmissionClosed]
    else s.trace == if s.lastDestroyed == 0 then [] else FULL_TRACE
  }

  ghost predicate StoreInv(s: Store) {
    && KeyFits(s) && TraceFits(s)
    && LogFits(s.keys, if s.partition.Some? then s.partition.value.nonceCounter else 0)
    && (s.partition.Some? ==> WellFormed(s.partition.value, s.keys.key.value, s.ids))
  }

  // ---------------------------------------------------------------- requests

  /** The answers of the slot semaphore, the work controller, the access authority and the work fence. */
  datatype Env = Env(slotFree: bool, live: bool, authorised: bool, fenceFits: bool)

  datatype FaultPoint = NoFault | BeforeKeyLookup | BeforeEncryption | AfterEncryption | AfterInsertion

  datatype Reply =
    | Refused(reason: Reason)
    | Opened
    | StoredFrame(frame: Frame)
    | StoredRecord(recordId: Id, reused: bool)
    | Payload(payload: Bytes)
    | Answer(ok: bool)

  datatype FrameInput = FrameInput(frameSeq: nat, payload: Bytes, digest: Digest, digestMatches: bool)

  datatype Page = Page(resultId: Id, frameId: Id, inference: Digest, preprocessing: Digest, payload: Bytes)

  function KeyOf(page: Page): OcrKey {
    OcrKey(page.frameId, page.inference, page.preprocessing)
  }

  datatype ExtractionInput = ExtractionInput(
    sources: seq<Id>, identity: Digest, profile: Digest, digest: Digest, payload: Bytes, provenanceValid: bool)

  function EnvRefusal(env: Env): Option<Reason> {
    if !env.slotFree then Some(OPERATION_BUSY)
    else if !env.live || !env.authorised then Some(ACCESS_DENIED)
    else None
  }

  /** Why an operation on an open partition is turned away before it looks at anything in it. */
  function Refusal(s: Store, epoch: Epoch, env: Env): Option<Reason> {
    if EnvRefusal(env).Some? then EnvRefusal(env)
    else if s.destroyed || s.partition.None? || s.partition.value.epoch != epoch || !env.fenceFits
            || !s.partition.value.open then Some(CAPTURE_CLOSED)
    else None
  }

  function Current(s: Store, epoch: Epoch, env: Env): Partition
    requires Refusal(s, epoch, env).None?
  {
    s.partition.value
  }

  // ---------------------------------------------------------------- sealing one record

  /** A sealed record of a payload, or the reason there is none. */
  datatype Sealing = Made(record: Record) | NotMade(reason: Reason)

  /** The failure reason a rejected plaintext is reported with. */
  function CodecReason(t: RecordType): Reason {
    if t.FrameJpeg? then INVARIANT_FAILURE else OPERATION_FAILED
  }

  /** How many IDs an insertion draws; the last of them names the record. */
  function Draws(t: RecordType): nat {
    if t.FrameJpeg? then 2 else 1
  }

  /**
   Draw IDs and a nonce and encrypt: what that leaves behind even when the insertion fails later.
   The counter moves before the nonce is used.
   */
  function Consume(s: Store, t: RecordType, payload: Bytes, fault: FaultPoint): (r: (Store, Sealing))
    requires s.partition.Some?
    ensures r.0.partition.Some? && r.0.ids >= s.ids && r.0.lastDestroyed == s.lastDestroyed
    ensures r.0.partition.value == s.partition.value.(nonceCounter := r.0.partition.value.nonceCounter)
    ensures r.1.Made? ==> r.0.ids == s.ids + Draws(t) && r.1.record.id == r.0.ids - 1
  {
    var p := s.partition.value;
    if fault == BeforeKeyLookup then (s, NotMade(OPERATION_FAILED))
    else if s.keys.epoch != Some(p.epoch) || s.keys.key.None? then (s, NotMade(INVARIANT_FAILURE))
    else
      var drawn := s.(ids := s.ids + Draws(t));
      if p.nonceCounter >= MAX_NONCE_COUNTER then (drawn, NotMade(INVARIANT_FAILURE))
      else
        var nonce := p.nonceCounter + 1;
        var counted := drawn.(partition := Some(p.(nonceCounter := nonce)));
        var encoded := Encode(t, payload);
        if encoded.None? then (counted, NotMade(CodecReason(t)))
        else if fault == BeforeEncryption then (counted, NotMade(OPERATION_FAILED))
        else
          var id := drawn.ids - 1;
          var logged := counted.(keys := s.keys.(log := s.keys.log + [Use(s.keys.key.value, nonce)]));
          if fault == AfterEncryption then (logged, NotMade(OPERATION_FAILED))
          else
            (logged, Made(Record(id, t, nonce, Sealed(s.keys.key.value, nonce, Aad(p.epoch, id, t), encoded.value),
                                 |encoded.value|)))
  }

  // ---------------------------------------------------------------- insertions

  /** Put a frame ID behind every ID with a smaller sequence number. */
  function InsertSorted(ids: seq<Id>, evidence: map<Id, Frame>, f: Frame): seq<Id> {
    if ids != [] && ids[|ids| - 1] in evidence && evidence[ids[|ids| - 1]].frameSeq > f.frameSeq then
      InsertSorted(ids[..|ids| - 1], evidence, f) + [ids[|ids| - 1]]
    else ids + [f.frameId]
  }

  function InsertFrame(p: Partition, f: Frame, r: Record): Partition {
    p.(records := p.records[r.id := r],
       evidence := p.evidence[f.frameId := f],
       frameIdBySeq := p.frameIdBySeq[f.frameSeq := f.frameId],
       acceptedBytes := p.acceptedBytes + f.encodedSize,
       frameCipherBytes := p.frameCipherBytes + Size(r.ciphertext),
       captureSet := p.captureSet.(frameIds := InsertSorted(p.captureSet.frameIds, p.evidence, f)))
  }

  function InsertAux(p: Partition, payload: Bytes, r: Record): Partition {
    p.(records := p.records[r.id := r],
       auxIds := p.auxIds + {r.id},
       auxBytes := p.auxBytes + |payload|,
       auxCipherBytes := p.auxCipherBytes + Size(r.ciphertext))
  }

  function AuxRoom(p: Partition, payload: Bytes): bool {
    && |p.auxIds| < MAX_AUXILIARY_RECORDS && |p.records| < MAX_PRIVATE_RECORDS
    && p.auxBytes + |payload| <= MAX_AUXILIARY_PLAINTEXT_BYTES
  }

  function AuxSized(payload: Bytes): bool {
    0 < |payload| <= MAX_AUXILIARY_CANONICAL_JSON_BYTES
  }

  /** Why a frame is turned away before anything is drawn for it. */
  function FrameRefusal(s: Store, epoch: Epoch, env: Env, input: FrameInput): (r: Option<Reason>)
    ensures r.None? ==> Refusal(s, epoch, env).None?
  {
    if !input.digestMatches then Some(OPERATION_FAILED)
    else if Refusal(s, epoch, env).Some? then Refusal(s, epoch, env)
    else
      var p := Current(s, epoch, env);
      if input.frameSeq in p.frameIdBySeq || |p.frameIdBySeq| >= MAX_CAPTURE_FRAMES
         || |p.records| >= MAX_PRIVATE_RECORDS
         || p.acceptedBytes + |input.payload| > MAX_CAPTURE_ENCODED_BYTES then Some(CAPACITY_EXCEEDED)
      else None
  }

  /** `metadataCommits` is false when the caller's own commit of the frame's metadata raises. */
  function PutFrame(s: Store, epoch: Epoch, env: Env, input: FrameInput, fault: FaultPoint, metadataCommits: bool)
    : (Store, Reply)
  {
    if FrameRefusal(s, epoch, env, input).Some? then (s, Refused(FrameRefusal(s, epoch, env, input).value))
    else
      var (used, sealing) := Consume(s, FrameJpeg, input.payload, fault);
      match sealing
      case NotMade(reason) => (used, Refused(reason))
      case Made(r) =>
        var f := Frame(used.ids - 2, input.frameSeq, |input.payload|, input.digest, epoch, r.id);
        if fault == AfterInsertion || !metadataCommits then (used, Refused(OPERATION_FAILED))
        else (used.(partition := Some(InsertFrame(used.partition.value, f, r))), StoredFrame(f))
  }

  function RecordRefusal(s: Store, epoch: Epoch, env: Env, payload: Bytes): (r: Option<Reason>)
    ensures r.None? ==> Refusal(s, epoch, env).None?
  {
    if !AuxSized(payload) then Some(OPERATION_FAILED)
    else if Refusal(s, epoch, env).Some? then Refusal(s, epoch, env)
    else if !AuxRoom(Current(s, epoch, env), payload) then Some(CAPACITY_EXCEEDED)
    else None
  }

  function PutRecord(s: Store, epoch: Epoch, env: Env, payload: Bytes): (Store, Reply) {
    if RecordRefusal(s, epoch, env, payload).Some? then (s, Refused(RecordRefusal(s, epoch, env, payload).value))
    else
      var (used, sealing) := Consume(s, AuxiliaryJson, payload, NoFault);
      match sealing
      case NotMade(reason) => (used, Refused(reason))
      case Made(r) =>
        (used.(partition := Some(InsertAux(used.partition.value, payload, r))), StoredRecord(r.id, false))
  }

  function InsertOcr(p: Partition, page: Page, calibration: Digest, r: Record): Partition {
    var inserted := InsertAux(p, page.payload, r);
    inserted.(ocrByKey := p.ocrByKey[KeyOf(page) := StoredOcr(r.id, page.resultId, KeyOf(page))],
              captureSet := p.captureSet.(inference := Some(page.inference), calibration := Some(calibration)))
  }

  /** The reply to an OCR result that is refused or already stored. */
  function OcrReply(s: Store, epoch: Epoch, env: Env, page: Page, calibration: Digest): (r: Option<Reply>)
    ensures r.None? ==> Refusal(s, epoch, env).None?
  {
    if !AuxSized(page.payload) then Some(Refused(OPERATION_FAILED))
    else if Refusal(s, epoch, env).Some? then Some(Refused(Refusal(s, epoch, env).value))
    else
      var p, k := Current(s, epoch, env), KeyOf(page);
      if !HasFrame(p, page.frameId) then Some(Refused(RECORD_NOT_FOUND))
      else if k in p.ocrByKey then
        Some(if IsLiveAux(p, p.ocrByKey[k].recordId) then StoredRecord(p.ocrByKey[k].recordId, true)
             else Refused(INTEGRITY_FAILURE))
      else if (p.captureSet.inference.Some? && p.captureSet.inference.value != page.inference)
              || (p.captureSet.calibration.Some? && p.captureSet.calibration.value != calibration) then
        Some(Refused(IDENTITY_MISMATCH))
      else if !AuxRoom(p, page.payload) || |p.ocrByKey| >= MAX_AUXILIARY_RECORDS then Some(Refused(CAPACITY_EXCEEDED))
      else None
  }

  function PutOcr(s: Store, epoch: Epoch, env: Env, page: Page, calibration: Digest, fault: FaultPoint): (Store, Reply) {
    if OcrReply(s, epoch, env, page, calibration).Some? then (s, OcrReply(s, epoch, env, page, calibration).value)
    else
      var (used, sealing) := Consume(s, AuxiliaryJson, page.payload, fault);
      match sealing
      case NotMade(reason) => (used, Refused(reason))
      case Made(r) =>
        if fault == AfterInsertion then (used, Refused(OPERATION_FAILED))
        else (used.(partition := Some(InsertOcr(used.partition.value, page, calibration, r))), StoredRecord(r.id, false))
  }

  predicate HasFrame(p: Partition, frameId: Id) {
    && frameId in p.evidence && p.evidence[frameId].epoch == p.epoch
    && p.evidence[frameId].frameSeq in p.frameIdBySeq && p.frameIdBySeq[p.evidence[frameId].frameSeq] == frameId
  }

  predicate IsLiveAux(p: Partition, id: Id) {
    id in p.auxIds && id in p.records
  }

  /** Why a page is not the stored source it claims to be. */
  function PageRefusal(p: Partition, key: Option<Key>, page: Page): Option<Reason> {
    var k := KeyOf(page);
    if k !in p.ocrByKey || p.ocrByKey[k].resultId != page.resultId || !IsLiveAux(p, p.ocrByKey[k].recordId) then
      Some(RECORD_NOT_FOUND)
    else
      match Decrypt(p, key, p.ocrByKey[k].recordId, AuxiliaryJson)
      case Refused(reason) => Some(reason)
      case Payload(payload) => if payload == page.payload then None else Some(INTEGRITY_FAILURE)
      case _ => Some(INTEGRITY_FAILURE)
  }

  function PagesRefusal(p: Partition, key: Option<Key>, pages: seq<Page>): Option<Reason> {
    if pages == [] then None
    else
      var before := PagesRefusal(p, key, pages[..|pages| - 1]);
      if before.Some? then before else PageRefusal(p, key, pages[|pages| - 1])
  }

  function InsertExtraction(p: Partition, x: ExtractionInput, r: Record): Partition {
    var k := ExtractionKey(x.sources, x.identity);
    InsertAux(p, x.payload, r).(extractionByKey := p.extractionByKey[k := StoredExtraction(r.id, x.digest, k)])
  }

  /** The extraction names exactly the given pages, in order of result ID. */
  predicate NamesPages(pages: seq<Page>, x: ExtractionInput) {
    && 1 <= |pages| == |x.sources| <= MAX_ADMISSION_NOTICE_SOURCE_RESULTS
    && (forall i :: 0 <= i < |pages| ==> pages[i].resultId == x.sources[i])
    && (forall i, j :: 0 <= i < j < |pages| ==> pages[i].resultId < pages[j].resultId && pages[i].frameId != pages[j].frameId)
  }

  /** The reply to an extraction that is refused or already stored. */
  function ExtractionReply(s: Store, epoch: Epoch, env: Env, pages: seq<Page>, x: ExtractionInput): (r: Option<Reply>)
    ensures r.None? ==> Refusal(s, epoch, env).None?
  {
    if !NamesPages(pages, x) || !x.provenanceValid then Some(Refused(OPERATION_FAILED))
    else if !AuxSized(x.payload) then Some(Refused(CAPACITY_EXCEEDED))
    else if Refusal(s, epoch, env).Some? then Some(Refused(Refusal(s, epoch, env).value))
    else
      var p, k := Current(s, epoch, env), ExtractionKey(x.sources, x.identity);
      if p.captureSet.profile != x.profile then Some(Refused(INTEGRITY_FAILURE))
      else if PagesRefusal(p, s.keys.key, pages).Some? then Some(Refused(PagesRefusal(p, s.keys.key, pages).value))
      else if k in p.extractionByKey then
        Some(if IsLiveAux(p, p.extractionByKey[k].recordId) && p.extractionByKey[k].digest == x.digest then
               StoredRecord(p.extractionByKey[k].recordId, true)
             else Refused(INTEGRITY_FAILURE))
      else if !AuxRoom(p, x.payload) || |p.extractionByKey| >= MAX_AUXILIARY_RECORDS then
        Some(Refused(CAPACITY_EXCEEDED))
      else None
  }

  function PutExtraction(s: Store, epoch: Epoch, env: Env, pages: seq<Page>, x: ExtractionInput, fault: FaultPoint)
    : (Store, Reply)
  {
    if ExtractionReply(s, epoch, env, pages, x).Some? then (s, ExtractionReply(s, epoch, env, pages, x).value)
    else
      var (used, sealing) := Consume(s, AuxiliaryJson, x.payload, fault);
      match sealing
      case NotMade(reason) => (used, Refused(reason))
      case Made(r) =>
        if fault == AfterInsertion then (used, Refused(OPERATION_FAILED))
        else (used.(partition := Some(InsertExtraction(used.partition.value, x, r))), StoredRecord(r.id, false))
  }

  // ---------------------------------------------------------------- reads

  /** Decrypt one record of the partition under the live key. */
  function Decrypt(p: Partition, key: Option<Key>, id: Id, t: RecordType): (reply: Reply)
    requires id in p.records
    ensures reply.Payload? || reply.Refused?
  {
    var r := p.records[id];
    if r.id != id then Refused(INTEGRITY_FAILURE)
    else if r.recordType != t then Refused(RECORD_TYPE_MISMATCH)
    else if key.None? then Refused(INVARIANT_FAILURE)
    else
      var encoded := Open(key.value, r.nonce, Aad(p.epoch, id, t), r.ciphertext);
      if encoded.None? || |encoded.value| != r.plaintextLength then Refused(INTEGRITY_FAILURE)
      else
        match Decode(t, encoded.value)
        case None => Refused(INTEGRITY_FAILURE)
        case Some(payload) => Payload(payload)
  }

  function GetFrame(s: Store, epoch: Epoch, env: Env, frameId: Id): Reply {
    if Refusal(s, epoch, env).Some? then Refused(Refusal(s, epoch, env).value)
    else
      var p := Current(s, epoch, env);
      if !HasFrame(p, frameId) then Refused(RECORD_NOT_FOUND)
      else if p.evidence[frameId].recordRef !in p.records then Refused(INTEGRITY_FAILURE)
      else Decrypt(p, s.keys.key, p.evidence[frameId].recordRef, FrameJpeg)
  }

  function GetRecord(s: Store, epoch: Epoch, env: Env, id: Id, t: RecordType): Reply {
    if t != AuxiliaryJson then Refused(RECORD_TYPE_MISMATCH)
    else if Refusal(s, epoch, env).Some? then Refused(Refusal(s, epoch, env).value)
    else
      var p := Current(s, epoch, env);
      if id !in p.auxIds then Refused(RECORD_NOT_FOUND)
      else if id !in p.records then Refused(INTEGRITY_FAILURE)
      else Decrypt(p, s.keys.key, id, t)
  }

  // ---------------------------------------------------------------- removal, opening and destruction

  predicate SourcesUse(p: Partition, id: Id) {
    exists k, x, i :: k in p.ocrByKey && p.ocrByKey[k].recordId == id && x in p.extractionByKey
      && 0 <= i < |x.sources| && x.sources[i] == p.ocrByKey[k].resultId
  }

  function OcrWithout(ocr: map<OcrKey, StoredOcr>, id: Id): map<OcrKey, StoredOcr> {
    map k | k in ocr && ocr[k].recordId != id :: ocr[k]
  }

  function ExtractionsWithout(extractions: map<ExtractionKey, StoredExtraction>, id: Id)
    : map<ExtractionKey, StoredExtraction>
  {
    map k | k in extractions && extractions[k].recordId != id :: extractions[k]
  }

  function RemoveAux(p: Partition, id: Id): Partition
    requires id in p.records
  {
    p.(records := p.records - {id},
       auxIds := p.auxIds - {id},
       ocrByKey := OcrWithout(p.ocrByKey, id),
       extractionByKey := ExtractionsWithout(p.extractionByKey, id),
       auxBytes := if p.auxBytes >= AuxPayload(p.records[id]) then p.auxBytes - AuxPayload(p.records[id]) else 0,
       auxCipherBytes :=
         if p.auxCipherBytes >= Size(p.records[id].ciphertext) then p.auxCipherBytes - Size(p.records[id].ciphertext) else 0)
  }

  /** The reply to a deletion that removes nothing. */
  function DeleteReply(s: Store, epoch: Epoch, env: Env, id: Id): (r: Option<Reply>)
    ensures r.None? ==> Refusal(s, epoch, env).None? && id in Current(s, epoch, env).records
    ensures r != Some(Answer(true))
  {
    if Refusal(s, epoch, env).Some? then
      Some(if env.slotFree && !env.live then Answer(false) else Refused(Refusal(s, epoch, env).value))
    else
      var p := Current(s, epoch, env);
      if id !in p.auxIds then Some(Refused(RECORD_NOT_FOUND))
      else if id !in p.records || p.records[id].recordType != AuxiliaryJson then Some(Refused(INVARIANT_FAILURE))
      else if SourcesUse(p, id) then Some(Refused(INVARIANT_FAILURE))
      else None
  }

  function Delete(s: Store, epoch: Epoch, env: Env, id: Id): (Store, Reply) {
    if DeleteReply(s, epoch, env, id).Some? then (s, DeleteReply(s, epoch, env, id).value)
    else (s.(partition := Some(RemoveAux(s.partition.value, id))), Answer(true))
  }

  function EmptyPartition(epoch: Epoch, profile: Digest): Partition {
    Partition(epoch, CaptureSet(profile, [], None, None), true, false, 0, map[], map[], map[], {}, map[], map[], 0, 0, 0, 0)
  }

  function Create(s: Store, epoch: Epoch, profile: Digest, env: Env): (Store, Reply) {
    if EnvRefusal(env).Some? then (s, Refused(EnvRefusal(env).value))
    else if s.destroyed || !env.fenceFits || epoch.captureSeq <= s.lastDestroyed then (s, Refused(CAPTURE_CLOSED))
    else if s.partition.Some? then
      if s.partition.value.epoch == epoch && s.partition.value.open && s.keys.epoch == Some(epoch) && s.keys.key.Some? then
        (s, Opened)
      else (s, Refused(INVARIANT_FAILURE))
    else if epoch.captureSeq <= s.keys.lastDestroyed || s.keys.epoch.Some? || s.keys.key.Some? then
      (s, Refused(INVARIANT_FAILURE))
    else
      (s.(keys := s.keys.(epoch := Some(epoch), key := Some(s.keys.drawn), drawn := s.keys.drawn + 1),
          partition := Some(EmptyPartition(epoch, profile)),
          trace := []),
       Opened)
  }

  /** Nothing was ever put into the partition as far as its owner looks. */
  predicate StillEmpty(p: Partition) {
    && p.records == map[] && p.evidence == map[] && p.frameIdBySeq == map[]
    && p.ocrByKey == map[] && p.extractionByKey == map[]
  }

  predicate MayCommit(s: Store, epoch: Epoch, authorised: bool) {
    && s.partition.Some? && s.partition.value.epoch == epoch && s.partition.value.open
    && !s.partition.value.committed && StillEmpty(s.partition.value)
    && s.keys.epoch == Some(epoch) && s.keys.key.Some? && authorised
  }

  function Commit(s: Store, epoch: Epoch, authorised: bool): (Store, Reply) {
    if !MayCommit(s, epoch, authorised) then (s, Answer(false))
    else (s.(partition := Some(s.partition.value.(committed := true))), Answer(true))
  }

  function DestroyKey(k: KeyAuthority, epoch: Epoch): (KeyAuthority, bool) {
    if k.epoch.None? && k.key.None? then (k, epoch.captureSeq <= k.lastDestroyed)
    else if k.epoch != Some(epoch) || k.key.None? then (k, false)
    else (k.(epoch := None, key := None, lastDestroyed := Max(k.lastDestroyed, epoch.captureSeq)), true)
  }

  function Max(a: nat, b: nat): nat {
    if a >= b then a else b
  }

  /** Destruction of the partition of `epoch`, once it is authorised. */
  function Destroy(s: Store, epoch: Epoch): (Store, bool) {
    if s.partition.None? then (s, epoch.captureSeq <= s.lastDestroyed)
    else if s.partition.value.epoch != epoch then (s, false)
    else
      var (keys, ok) := DestroyKey(s.keys, epoch);
      if !ok then (s.(partition := Some(s.partition.value.(open := false))), false)
      else
        var trace := if s.trace == [] then [AdmissionClosed] else s.trace;
        (s.(keys := keys, partition := None, lastDestroyed := Max(s.lastDestroyed, epoch.captureSeq),
            trace := trace + [KeyDestroyed, CiphertextCleared, IndicesCleared, MetadataCleared]),
         true)
  }

  function Rollback(s: Store, epoch: Epoch, authorised: bool): (Store, Reply) {
    if s.partition.None? then (s, Answer(epoch.captureSeq <= s.lastDestroyed))
    else if s.partition.value.epoch != epoch || s.partition.value.committed || !StillEmpty(s.partition.value)
            || !authorised then (s, Answer(false))
    else (Destroy(s, epoch).0, Answer(Destroy(s, epoch).1))
  }

  function Close(s: Store, epoch: Epoch, authorised: bool): (Store, Reply) {
    if !authorised then (s, Refused(ACCESS_DENIED))
    else if s.partition.None? then (s, Answer(s.keys.epoch.None? && s.keys.key.None?))
    else if s.partition.value.epoch != epoch then (s, Answer(false))
    else
      (s.(partition := Some(s.partition.value.(open := false)),
          trace := if s.trace == [] || s.trace[|s.trace| - 1] != AdmissionClosed then [AdmissionClosed] else s.trace),
       Answer(true))
  }

  /** `fence` names a cleanup fence object; `fenceAuthorises` says that it covers this epoch's generation. */
  function DestroyCapture(s: Store, epoch: Epoch, authorised: bool, fence: nat, fenceAuthorises: bool): (Store, Reply) {
    if !authorised then (s, Refused(ACCESS_DENIED))
    else if s.partition.None? && epoch.captureSeq <= s.lastDestroyed then (s, Answer(s.lastFence == Some(fence)))
    else if !fenceAuthorises then (s, Refused(ACCESS_DENIED))
    else if !Destroy(s, epoch).1 then (Destroy(s, epoch).0, Refused(INVARIANT_FAILURE))
    else (Destroy(s, epoch).0.(lastFence := Some(fence)), Answer(true))
  }

  function Shutdown(s: Store, authorised: bool): (Store, Reply) {
    if !authorised || s.partition.Some? || s.keys.epoch.Some? || s.keys.key.Some? then (s, Answer(false))
    else (s.(destroyed := true), Answer(true))
  }
}
