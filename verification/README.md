# Certificate capture: a Dafny model

This project models the private certificate-capture subsystem of the repository and proves what its parts promise.

- **Capture lifecycle** (`Isolation`, `Lifecycle`, `LifecycleSafety`, `LifecycleTheorems`, `LifecycleAnswers`). BEGIN, END,
  upload, seal, activation and failure are a step system: one atomic step for each stretch of a coroutine without an await,
  in any interleaving, with every answer of session authority, session controller and cleanup as a parameter of the step.
- **Replay ledger and control protocol** (`ReplayLedger`, `ControlProtocol`, `ControlAnswers`). The ledger is a value with its
  class beside it; the three control operations under their lock, with callers cancelled anywhere, are a second step system.
- **Encrypted evidence store** (`PrivateCodec`, `EvidenceModel`, `EvidenceSafety`, `EvidenceTheorems`, `EvidenceAnswers`,
  `EvidenceStore`, `FrameMetadata`, `FrameCommit`, `UploadAnswers`, `CaptureRuns`). A specification with every fault point,
  its refinement of a plain map, the classes proved against it, the frame commit across the coordinator's table and the
  store, and whole runs of both.
- **Parsers and loops** (`JpegWalker`, `JsonDepth`, `Slicer`, `SidecarSlot`, `SidecarAnswers`).
- **Reading order, template match and extraction** (`Sorting`, `Collections`, `ReadingOrder`, `ReadingLoops`, `ReadingShape`,
  `MappedText`, `AnchorSearch`, `SearchExactness`, `TemplateMatch`, `PageMatch`, `TitlePlaces`, `TwoColumnPage`, `CapturePages`,
  `FieldCandidates`, `FieldText`, `FieldPlaces`, `FieldCollectors`, `CandidateSources`, `NoticeExtraction`, `FieldMeaning`,
  `NoticeProvenance`), from the spans of a page to the four fields and the store's own check of them.

The modules named after answers, shapes and places say what each request gets, and which spans make a line, a heading or a
field, exactly and without the functions that compute it.

Idealisations. AES-GCM is an ideal seal that opens only under the same key, nonce and associated data; keys and UUIDs are
fresh draws; UUIDs compare as numbers; coordinates and clocks are reals. Canonical JSON, Unicode tables, the validators of
field values and the checks of Chinese text around an anchor are uninterpreted constants, so the theorems hold for any of
them.

What turned out not to hold, and when it does.

- An END claimed in FAILED_CLOSED can meet a generation mismatch, because a BEGIN suspended inside its retirement may still
  raise the generation it read; `EndBindsIffItCan` gives the exact condition, `GuardCanFail` a run in which it fails.
- FAILED_CLOSED is left again exactly when the failure did not retire the capture's own generation
  (`RecoversIffNotStranded`); a failure that did leaves the gate shut until shutdown (`StrandingIsReachable`).
- The gate may be open for a moment inside the synchronous stretch that resumes normal work, and is shut again in the same
  stretch if that fails; between steps it is open exactly in IDLE.
- When the session authority runs a callback and then reports the session dead, the effect stays and only the reply changes
  (`LateDeathChangesOnlyTheReply`).
- Clearing the replay ledger lets a granted request be granted again (`ClearForgets`).
- The search for a body signature keeps, for each key, the occurrence that ends first, while compatibility also depends on
  the horizontal extent: it is sound (`SearchIsSound`) but can miss a chain, and `FindsEarlyIff` and `FindsAllIff` say
  exactly when. So a page with two columns can be turned away although its right column is a whole notice: `PageIsMissed`
  gives the spans of one.
- The JSON depth scanner does not compare bracket kinds (`MismatchedBracketsPass`).

`dafny verify dfyconfig.toml` checks the whole project.

## Model

| member | source | states |
|---|---|---|
| `LifecycleTheorems.GateOpenExactlyWhenIdle` | src/certificate_capture/coordinator.py:3828-4008 | In every state of every run the normal-application gate is open exactly when the state is IDLE; there is then no epoch, no active transition, no held lock and no evidence; closes minus reopens is 0 when open and 1 when closed. |
| `LifecycleTheorems.PublicationsIncrease` | src/certificate_capture/coordinator.py:3220-3457 | Over any run the published epochs rise strictly in capture sequence and in generation, and each generation is one above the one its BEGIN claimed from. |
| `LifecycleTheorems.SupersededIsInert` | src/certificate_capture/coordinator.py:3391-3457 | However a coroutine that is not the active transition resumes, it leaves state, epoch, gate, active transition, evidence and publications alone; it can at most finish its own retirement. |
| `LifecycleTheorems.SupersededForever` | src/certificate_capture/coordinator.py:2994-3009 | A transition that is not active never becomes active again, over any continuation. |
| `LifecycleTheorems.EndAlwaysBinds` | src/certificate_capture/coordinator.py:3638-3742 | An END claimed from any state but FAILED_CLOSED, also one that overtook a running BEGIN, finds the current generation among its candidates when it takes the lock, and binds it as its origin. |
| `LifecycleTheorems.BoundEndKeepsGeneration` | src/certificate_capture/coordinator.py:3725-3742 | Between binding and retiring no other coroutine moves the generation an active END is bound to, so its retirement starts. |
| `LifecycleTheorems.EndBindsIffItCan` | src/certificate_capture/coordinator.py:3578-3653 | For a claim from any state: the END binds in every continuation if and only if no retirement is outstanding and the generation is a candidate at the claim. |
| `LifecycleTheorems.GuardCanFail` | src/certificate_capture/coordinator.py:3590-3598 | That guard does fail in a reachable FAILED_CLOSED state, so the promise is not unconditional there. |
| `LifecycleTheorems.ClaimIsRemembered` | src/certificate_capture/coordinator.py:3617-3723 | What an END recorded at its claim is still what it holds when it gets the lock. |
| `LifecycleTheorems.RecoversIffNotStranded` | src/certificate_capture/coordinator.py:3578-3615 | FAILED_CLOSED is not terminal: IDLE can be reached from it again if and only if the failure did not retire the generation of the epoch that every END must name. |
| `LifecycleTheorems.StrandingIsReachable` | src/certificate_capture/coordinator.py:2893-2930 | The stranding happens: one activated capture, then a runtime failure whose erasure retires the generation. |
| `LifecycleTheorems.StrandedForever` | src/certificate_capture/coordinator.py:2893-2955 | A stranded coordinator stays stranded whatever happens next. |
| `LifecycleTheorems.BeginArms` | src/certificate_capture/coordinator.py:3459-3576 | An undisturbed BEGIN of a fresh coordinator does reach ARMED, with epoch (1, 1). |
| `LifecycleSafety.StepKeeps` | src/certificate_capture/coordinator.py:3121-3179 | Every atomic step of every coroutine, failures included, keeps the whole lifecycle invariant: gate follows state, active transition fits state, the lock and a running retirement belong to one transition, epoch and evidence fit state. |
| `LifecycleSafety.RunKeepsInv` | src/certificate_capture/coordinator.py:274-540 | So every run from a fresh coordinator satisfies the invariant. |
| `LifecycleSafety.FailClosedShape` | src/certificate_capture/coordinator.py:3121-3157 | Failing closed, whatever its erasure achieves, ends in FAILED_CLOSED with no active transition and a closed gate, and raises the generation by at most one. |
| `LifecycleAnswers.OnlyRightEndsMatter` | src/certificate_capture/coordinator.py:3578-3615 | In every state of every run an END that does not name exactly the capture there is, by its epoch (and its sequence number if it gives one) or before an epoch is published by the sequence number alone, changes nothing whatever else it carries; nor does any END in IDLE or ENDING. |
| `LifecycleAnswers.LateEndIsIgnored` | src/certificate_capture/coordinator.py:3601-3614 | In particular a late END of a capture published earlier leaves the present one alone. |
| `LifecycleAnswers.RightEndIsLetThrough` | src/certificate_capture/coordinator.py:3617-3653 | An END that names the capture is let through in every entering, live or failed state: it is claimed, capability and permits are revoked and nothing of the evidence is destroyed yet; where session or release fail the coordinator fails closed. |
| `LifecycleAnswers.BeginEntersOnlyFromIdle` | src/certificate_capture/coordinator.py:3181-3276 | A BEGIN enters the next capture sequence exactly from IDLE with its preconditions met, the session live and the controller usable; in any other state it changes nothing, and where something fails it fails closed. |
| `LifecycleAnswers.SealIsAnswered` | src/certificate_capture/coordinator.py:2116-2267 | A seal of an open capture with frames under a free lock starts the build with its workers, or asks for another frame; in any other state it changes nothing. |
| `LifecycleAnswers.BuildReturns` | src/certificate_capture/coordinator.py:2238-2267 | A build that returns gives the lock back, and fails the capture closed if its processor did not start. |
| `LifecycleAnswers.ProcessorMakesReady` | src/certificate_capture/coordinator.py:2607-2670 | A processor that finishes makes the capture ready exactly if it is still being built. |
| `LifecycleAnswers.OnlyTheseEdges` | src/certificate_capture/coordinator.py:3220-4008 | Over every run the coordinator moves between its states along the stated edges only, each with the request, the answers and the evidence it needs. |
| `LifecycleAnswers.OnlyTheseGrow` | src/certificate_capture/coordinator.py:900-1162 | Evidence comes in by an activation of an empty armed capture, an admitted upload, a committed frame or a build only, one piece at a time. |
| `LifecycleAnswers.DestroyedOnlyRetired` | src/certificate_capture/coordinator.py:2893-2955 | Whatever is captured is destroyed only by a destruction that goes through, and only when the generation of its own epoch has been retired. |
| `LifecycleAnswers.RetirementIsAlone` | src/certificate_capture/coordinator.py:2893-2930 | While a retirement is in flight nothing else moves the generation. |
| `LifecycleAnswers.OnlyGoodAnswersAdvance` | src/certificate_capture/coordinator.py:3276-3457 | A transition advances by its own resumption only, one suspension at a time, and only on the answers that allow it. |
| `LifecycleAnswers.DrainGoesOnIff` | src/certificate_capture/coordinator.py:3744-3828 | An END that has retired its generation goes on if and only if the partition it finds is destroyed and the token it finds acknowledged; otherwise the coordinator fails closed. |
| `LifecycleAnswers.FailedIsShut` | src/certificate_capture/coordinator.py:3121-3157 | Over every run FAILED_CLOSED means no active transition, a shut gate, no capability, no permit and no completed quiescence. |
| `LifecycleAnswers.FailureErasesWhatItCan` | src/certificate_capture/coordinator.py:2893-2930 | What a runtime failure leaves of a capture, piece by piece, in terms of which of admission, retirement, destruction and acknowledgement go through. |
| `LifecycleAnswers.FullCircle` | src/certificate_capture/coordinator.py:3459-4010 | A capture of any number of frames can become READY, and from there normal work can be resumed. |
| `Isolation.CountersTellPosition` | src/certificate_capture/isolation.py:121-167 | After any sequence of commands without a destruction the gate counts one more close than reopens exactly while it is closed. |
| `Isolation.DestroyedStaysShut` | src/certificate_capture/isolation.py:159-167 | A destroyed gate never opens again. |
| `Isolation.IsolationAuthority.CloseGate` | src/certificate_capture/isolation.py:121-132 | Close succeeds exactly for the owner on an undestroyed open gate, and then moves the gate as the specification does; otherwise nothing changes. |
| `Isolation.IsolationAuthority.ReopenGate` | src/certificate_capture/isolation.py:134-146 | Reopen succeeds exactly for the owner on an undestroyed closed gate, and then moves the gate as the specification does; otherwise nothing changes. |
| `Isolation.IsolationAuthority.DisableTransportKeepalive` | src/certificate_capture/isolation.py:148-157 | Only the owner disables the keepalive, and the gate is not moved. |
| `Isolation.IsolationAuthority.DestroyGate` | src/certificate_capture/isolation.py:159-167 | Only the owner destroys: the gate is shut, the counters stand, and the owner token is replaced by a fresh one. |
| `ReplayLedger.RunKeepsWellFormed` | src/certificate_capture/replay.py:40-67 | Every run of ledger operations keeps record IDs and sequence numbers distinct, in rising order, at most the high-water mark, and within capacity. |
| `ReplayLedger.GrantsAreConsecutive` | src/certificate_capture/replay.py:86-115 | Absent a clear, a run grants exactly the numbers after its first high-water mark, one by one, no gap and no repeat. |
| `ReplayLedger.GrantedOnce` | src/certificate_capture/replay.py:69-115 | A request granted once is never granted again, whatever is evicted, retained or discarded; once its record is gone it is refused as stale. |
| `ReplayLedger.ClearForgets` | src/certificate_capture/replay.py:217-220 | A clear resets the high-water mark, and the same first request is granted a second time. |
| `ReplayLedger.OnlyGrantsChange` | src/certificate_capture/replay.py:69-115 | Every refusal and every replay leaves the ledger exactly as it was; a grant takes the next number. |
| `ReplayLedger.EvictsLeastCompleted` | src/certificate_capture/replay.py:117-131 | A grant evicts nothing while there is room, and otherwise the completed record with the least sequence number. |
| `ReplayLedger.CapacityExceededIff` | src/certificate_capture/replay.py:117-131 | A request is refused for capacity if and only if it is new, next in sequence, and all of a full ledger is still running. |
| `ReplayLedger.ControlReplayLedger.LookupOrClaimRecord` | src/certificate_capture/replay.py:69-115 | The two dictionaries stay mutually inverse, and answer and new state are those of the specification; a found or claimed record object is one the ledger owns. |
| `ReplayLedger.ControlReplayLedger.EnsureRoom` | src/certificate_capture/replay.py:117-131 | The eviction loop makes room if and only if some record is completed, and removes exactly the least completed one. |
| `ReplayLedger.ControlReplayLedger.Evict` | src/certificate_capture/replay.py:117-131 | Both dictionaries lose exactly the evicted record. |
| `ReplayLedger.ControlReplayLedger.ExistingRecord` | src/certificate_capture/replay.py:133-154 | A lookup without a claim: found record, conflict or busy, or nothing, as the specification answers. |
| `ReplayLedger.ControlReplayLedger.CompleteResult` | src/certificate_capture/replay.py:186-193 | The result is written into the record object, and the ledger shows it exactly if it still owns that object. |
| `ReplayLedger.ControlReplayLedger.CompleteError` | src/certificate_capture/replay.py:195-202 | The error is written into the record object, and the ledger shows it exactly if it still owns that object. |
| `ReplayLedger.ControlReplayLedger.RetainOnlyRecord` | src/certificate_capture/replay.py:228-236 | Succeeds exactly for a record object the ledger owns, and then that record alone is left, with the high-water mark unchanged. |
| `ReplayLedger.ControlReplayLedger.DiscardReplayRecords` | src/certificate_capture/replay.py:222-226 | All records go, the high-water mark stays. |
| `ReplayLedger.ControlReplayLedger.ClearLedger` | src/certificate_capture/replay.py:217-220 | Records and high-water mark are reset. |
| `ReplayLedger.ControlReplayRecord.ReplayResult` | src/certificate_capture/replay.py:203-215 | A completed record replays its stored outcome; an incomplete one is an error. |
| `ControlProtocol.FreeLockMeansCompleted` | src/certificate_capture/coordinator.py:2010-2115 | In every run, with callers cancelled at any point, every ledger record is completed whenever the control lock is free. |
| `ControlProtocol.NeverBusyNeverFull` | src/certificate_capture/coordinator.py:742-832 | So a claim under a free lock never meets CONTROL_BUSY or CONTROL_CAPACITY_EXCEEDED. |
| `ControlProtocol.EffectsOncePerSequence` | src/certificate_capture/coordinator.py:2288-2388 | The effect of each control sequence number is started at most once, in order, without gaps. |
| `ControlProtocol.DeliveriesAreTheEffect` | src/certificate_capture/coordinator.py:2720-2736 | Every outcome told to a caller is how the one effect of its own request ended; all callers of one number are told the same. |
| `ControlProtocol.CancellationIsDurable` | src/certificate_capture/coordinator.py:2720-2736 | Cancelling the caller of a running mutation changes neither ledger nor effect nor lock, and a retry replays the outcome. A result is then not told to it; a failure still is, since the raised error replaces the cancellation. |
| `ControlProtocol.StepKeeps` | src/certificate_capture/coordinator.py:742-832 | Every step of the three control operations and of the expiry watchdog keeps the protocol invariant: a running record belongs to the holder of the lock, records and deliveries quote the effects. |
| `ControlAnswers.RetryIsAnswered` | src/certificate_capture/coordinator.py:2311-2319 | In every reached state with a free lock, whoever repeats a request that is still on record is told exactly how the one effect of that request ended, and nothing is started; a BEGIN result alone needs authority at that moment. |
| `ControlAnswers.NextIsStarted` | src/certificate_capture/coordinator.py:2062-2115 | A new request that is next in sequence starts its effect and takes the lock. |
| `ControlAnswers.OthersLeaveEmptyHanded` | src/certificate_capture/coordinator.py:2044-2061 | Whoever else gets the lock leaves it with nothing started, nothing recorded and nothing told. |
| `ControlAnswers.EndIsRecordedAndTold` | src/certificate_capture/coordinator.py:2720-2736 | The end of a running mutation is recorded in its record and as its effect, and frees the lock; a result is told to its caller unless that was cancelled or, for a BEGIN, has lost authority, and a failure in any case. After a successful END the record of that END alone is left. |
| `ControlAnswers.CallWaitsOrIsTurnedAway` | src/certificate_capture/coordinator.py:672-715 | A call waits for the lock, unless four requests are outstanding already. |
| `ControlAnswers.CancellingLeavesMutations` | src/certificate_capture/coordinator.py:2720-2736 | The cancelled caller of a running mutation is only marked, one that waits leaves at once; no record, effect or delivery changes. |
| `ControlAnswers.WatchdogDiscards` | src/certificate_capture/coordinator.py:2805-2835 | The expiry watchdog waits for the free lock like a caller; when it has ended the capture no record is left, and nobody is told anything. |
| `ControlAnswers.LockExcludes` | src/certificate_capture/coordinator.py:672-715 | While the lock is held nobody enters, and only the end of its holder is an end. |
| `PrivateCodec.DecodesExactlyWhatEncodes` | src/certificate_capture/private_codec.py:40-120 | Decoding some bytes as a type yields a payload if and only if encoding that payload as that type yields those bytes: both round trips at once. |
| `PrivateCodec.EncodedShape` | src/certificate_capture/private_codec.py:40-81 | An encoding is the payload plus 17 bytes, and no other record type decodes it. |
| `PrivateCodec.EncodingIsPrefixFree` | src/certificate_capture/private_codec.py:83-120 | No encoding is a proper prefix of another, so truncated and extended records are rejected. |
| `PrivateCodec.EncodesIff` | src/certificate_capture/private_codec.py:40-81 | Frames of one byte up to two megabytes are encoded, and canonical JSON objects up to 64 kilobytes, and nothing else; type and length stand in the header. |
| `PrivateCodec.BigEndianUnique` | src/certificate_capture/private_codec.py:102-107 | Two length fields of equal width with equal value are equal bytes, so the length field has one spelling. |
| `EvidenceTheorems.DoKeeps` | src/certificate_capture/private_store.py:244-263 | Every operation, at every fault point, keeps the whole store invariant. |
| `EvidenceTheorems.IndicesAgree` | src/certificate_capture/private_store.py:244-263 | In every reachable partition record keys are the disjoint union of frame references and auxiliary IDs, frame sequence and frame ID are in bijection, the capture set lists frames by sequence, OCR entries point to live auxiliary records of the pinned identity, and extraction sources stay in the OCR index. |
| `EvidenceTheorems.CountersAreSums` | src/certificate_capture/private_store.py:816-826 | The four byte counters are the sums over the live records; ciphertext bytes are plaintext bytes plus 33 per record. |
| `EvidenceTheorems.CiphertextFits` | src/certificate_capture/private_store.py:1009-1019 | So the two capacity checks after encryption can never fire for an admitted record. |
| `EvidenceTheorems.NoncesNeverReused` | src/certificate_capture/private_store.py:702-712 | No two encrypt calls of any run use the same key and nonce, rolled-back insertions included. |
| `EvidenceTheorems.KeyExactlyWithPartition` | src/certificate_capture/private_store.py:286-354 | A key exists exactly when a partition exists, for its epoch; after a destruction and until the next creation the five-step trace is complete. |
| `EvidenceTheorems.DeleteKeepsUsedSources` | src/certificate_capture/private_store.py:2254-2348 | An auxiliary record of an open partition is deleted if and only if no stored extraction uses it as a source. |
| `EvidenceTheorems.DoRefines` | src/certificate_capture/private_store.py:714-928 | Every operation does to the store what it does to a plain map of payloads, and no insertion overwrites. |
| `EvidenceTheorems.ReadsArePlain` | src/certificate_capture/private_store.py:1866-2105 | A read that is let through answers as the plain map does: the very payload, not found, or the wrong type, never an integrity failure. |
| `EvidenceTheorems.ReadsReturnWhatWasPut` | src/certificate_capture/private_store.py:1956-2105 | In any run a read returns exactly the bytes put under that ID. |
| `EvidenceTheorems.RefusedRollsBack` | src/certificate_capture/private_store.py:885-897 | Whatever is refused at whatever fault point leaves the store as it was but for the consumed nonce and drawn IDs. |
| `EvidenceTheorems.BuriedStaysShut` | src/certificate_capture/private_store.py:518-585 | Nothing is read from, put into or created for a capture sequence up to the highest destroyed one. |
| `EvidenceTheorems.DestroyedForever` | src/certificate_capture/private_store.py:2465-2560 | That holds over every continuation. |
| `EvidenceAnswers.FrameAcceptedIff` | src/certificate_capture/private_store.py:714-928 | A frame is accepted if and only if its digest fits, the caller is live for the open partition, no frame of its number is stored, count and bytes stay within the limits, nothing fails and the caller commits it; CAPACITY_EXCEEDED and INVARIANT_FAILURE have their exact conditions too. |
| `EvidenceAnswers.RecordAcceptedIff` | src/certificate_capture/private_store.py:930-1085 | The same for auxiliary records. |
| `EvidenceAnswers.OcrAcceptedIff` | src/certificate_capture/private_store.py:1155-1407 | An OCR result is accepted if and only if its frame is stored, its identity is that of the capture, and either the same result is on record, which is then answered, or none is and there is room. |
| `EvidenceAnswers.PageAnswer` | src/certificate_capture/private_store.py:1644-1687 | A source page is let through if and only if the record indexed for it holds exactly its bytes in the plain map; other bytes are INTEGRITY_FAILURE, no record is RECORD_NOT_FOUND. |
| `EvidenceAnswers.ExtractionAcceptedIff` | src/certificate_capture/private_store.py:1549-1864 | An extraction is accepted if and only if it names its one to three pages, every one of them is stored with exactly its bytes, and either the same extraction is on record, which is then answered, or none is, there is room and nothing fails. |
| `EvidenceAnswers.FirstPageRefuses` | src/certificate_capture/private_store.py:1644-1687 | What refuses an extraction for its pages is the answer to the first page that is not stored. |
| `EvidenceAnswers.StoredPageIsSource` | src/certificate_capture/private_store.py:1644-1687 | An OCR result that was stored is from then on on record with exactly its bytes, so no extraction over that very page is refused because of it. |
| `EvidenceAnswers.TransplantIsRefused` | src/certificate_capture/private_store.py:1866-1918 | The ciphertext of one record put in the place of another is refused there as an integrity failure, or as the wrong type if that is what was asked for. |
| `EvidenceAnswers.OnlyAsSealed` | src/certificate_capture/private_store.py:1866-1918 | With another key, epoch or nonce than those it was sealed with a record is an integrity failure. |
| `EvidenceStore.CaptureKeyAuthority.CreateKey` | src/certificate_capture/private_store.py:286-299 | A key is drawn exactly when none exists and the sequence is above the last destroyed one. |
| `EvidenceStore.CaptureKeyAuthority.Encrypt` | src/certificate_capture/private_store.py:301-316 | Encrypts under the live key of the epoch, and logs key and nonce. |
| `EvidenceStore.CaptureKeyAuthority.DestroyKey` | src/certificate_capture/private_store.py:335-348 | Destroys exactly the key of the epoch; without a key it succeeds for destroyed sequences. |
| `EvidenceStore.CapturePartition.NextNonce` | src/certificate_capture/private_store.py:702-712 | The counter advances before the nonce is used, and stops at its maximum. |
| `EvidenceStore.CapturePartition.RestoreFrames` | src/certificate_capture/private_store.py:885-897 | The saved indices and counters come back; the nonce counter does not. |
| `EvidenceStore.CapturePartition.RestoreAux` | src/certificate_capture/private_store.py:1367-1379 | Likewise for auxiliary insertions. |
| `EvidenceStore.SortedFrameIds` | src/certificate_capture/private_store.py:852-860 | The frame list with the new frame at its place by sequence. |
| `EvidenceStore.PrivateEvidenceStore.RequireOpen` | src/certificate_capture/private_store.py:466-496 | Refuses exactly as the specification does: busy, denied, closed, or another epoch. |
| `EvidenceStore.PrivateEvidenceStore.SealRecord` | src/certificate_capture/private_store.py:773-838 | Nonce, encoding, encryption and record in the source order, each fault point included, with the specified new state. |
| `EvidenceStore.PrivateEvidenceStore.CheckFrame` | src/certificate_capture/private_store.py:747-772 | The checks before any nonce is used. |
| `EvidenceStore.PrivateEvidenceStore.PutFrame` | src/certificate_capture/private_store.py:714-928 | The whole insertion with the metadata commit inside it: new store and table are those of the specification, or restored. |
| `EvidenceStore.PrivateEvidenceStore.CommitFrame` | src/certificate_capture/private_store.py:839-897 | The insertion and its restoration after a failed metadata commit or a fault. |
| `EvidenceStore.PrivateEvidenceStore.PutRecord` | src/certificate_capture/private_store.py:930-1085 | Stores an auxiliary record as specified. |
| `EvidenceStore.PrivateEvidenceStore.CheckOcr` | src/certificate_capture/private_store.py:1201-1268 | Reuse, identity mismatch and capacity before any nonce is used. |
| `EvidenceStore.PrivateEvidenceStore.PutOcr` | src/certificate_capture/private_store.py:1155-1407 | Stores or reuses an OCR result as specified. |
| `EvidenceStore.PrivateEvidenceStore.CommitOcr` | src/certificate_capture/private_store.py:1338-1379 | The insertion and its restoration after a fault. |
| `EvidenceStore.PrivateEvidenceStore.CheckPages` | src/certificate_capture/private_store.py:1644-1687 | The loop over the source pages refuses at the first page that is not the stored source it claims to be. |
| `EvidenceStore.PrivateEvidenceStore.CheckExtraction` | src/certificate_capture/private_store.py:1580-1726 | Reuse, source and capacity checks before any nonce is used. |
| `EvidenceStore.PrivateEvidenceStore.PutExtraction` | src/certificate_capture/private_store.py:1549-1864 | Stores or reuses an extraction as specified. |
| `EvidenceStore.PrivateEvidenceStore.CommitExtraction` | src/certificate_capture/private_store.py:1797-1832 | The insertion and its restoration after a fault. |
| `EvidenceStore.PrivateEvidenceStore.DecryptRecord` | src/certificate_capture/private_store.py:1866-1918 | Checks ID, type, epoch and sizes, opens, decodes; answers as specified. |
| `EvidenceStore.PrivateEvidenceStore.GetFrame` | src/certificate_capture/private_store.py:1956-2033 | Reads a frame as specified. |
| `EvidenceStore.PrivateEvidenceStore.GetRecord` | src/certificate_capture/private_store.py:2035-2105 | Reads a record as specified. |
| `EvidenceStore.PrivateEvidenceStore.DeleteRecord` | src/certificate_capture/private_store.py:2242-2366 | Deletes a record with its index entries and bytes, or refuses, as specified. |
| `EvidenceStore.PrivateEvidenceStore.CreatePartition` | src/certificate_capture/private_store.py:498-609 | Creates, reuses or refuses as specified. |
| `EvidenceStore.PrivateEvidenceStore.CommitPartition` | src/certificate_capture/private_store.py:611-639 | Commits exactly the open partition of the epoch. |
| `EvidenceStore.PrivateEvidenceStore.CloseAdmission` | src/certificate_capture/private_store.py:2435-2463 | Closes exactly the partition of the epoch and starts the trace. |
| `EvidenceStore.PrivateEvidenceStore.ErasePartition` | src/certificate_capture/private_store.py:2474-2499 | The state observed right after each of the five steps differs from the one before by exactly what that step clears; when the key is not destroyed nothing but admission is shut. |
| `EvidenceStore.PrivateEvidenceStore.DestroyPartition` | src/certificate_capture/private_store.py:2465-2506 | In the observed history of the call no record is gone while the key is still there, no index while a record is still there, and the counters go last; store and answer are those of the specification. |
| `EvidenceStore.PrivateEvidenceStore.RollbackUncommitted` | src/certificate_capture/private_store.py:641-675 | Destroys exactly an uncommitted, empty partition. |
| `EvidenceStore.PrivateEvidenceStore.DestroyCapture` | src/certificate_capture/private_store.py:2508-2560 | Destroys under an authorised fence, and repeats only for the same fence. |
| `EvidenceStore.PrivateEvidenceStore.ShutdownStore` | src/certificate_capture/private_store.py:2562-2577 | Succeeds exactly when nothing is left. |
| `FrameMetadata.FrameTable.Clear` | src/certificate_capture/coordinator.py:2805-2811 | Frames, digests and byte total are forgotten, the rest stands. |
| `FrameMetadata.FrameTable.CommitMetadata` | src/certificate_capture/coordinator.py:1420-1466 | Record, digest and byte total are all entered, or after a fault all as before. |
| `FrameCommit.UploadKeepsAgreement` | src/certificate_capture/coordinator.py:1363-1487 | After any upload, at any fault point, the table lists exactly the frames of the store, their digests and their total size. |
| `FrameCommit.RejectedChangesNothing` | src/certificate_capture/coordinator.py:1363-1487 | A rejected upload that ran leaves the table alone and the store but for the consumed nonce and IDs. |
| `FrameCommit.AcceptedAddsTheFrame` | src/certificate_capture/coordinator.py:1387-1487 | An accepted new upload adds exactly its bytes to the store and exactly its record to the table. |
| `FrameCommit.LateDeathChangesOnlyTheReply` | src/certificate_capture/coordinator.py:1515-1529 | When the session is reported dead after the commit ran, only the reply differs. |
| `FrameCommit.StoreHasRoom` | src/certificate_capture/coordinator.py:1375-1386 | The limits of the coordinator make those of the store unreachable. |
| `FrameCommit.CommitFrameUpload` | src/certificate_capture/coordinator.py:1300-1529 | The method over both objects leaves both as the specification says and replies as it says. |
| `FrameCommit.CheckUpload` | src/certificate_capture/coordinator.py:1324-1386 | The checks before the store is called. |
| `FrameCommit.AcceptedReplyIsTrue` | src/certificate_capture/coordinator.py:1387-1417 | What the reply to an accepted new upload says is so afterwards: accepted count and bytes are those of table and store, with the remaining slots they make eight, number and size are those of the upload, and the wait for frames begins again. |
| `UploadAnswers.AgainIsAnswered` | src/certificate_capture/coordinator.py:1363-1373 | A frame of a number the capture has is answered as the first time if the bytes are the same, and as a conflict otherwise; nothing changes. |
| `UploadAnswers.LimitsAreAnswered` | src/certificate_capture/coordinator.py:1375-1386 | FRAME_LIMIT_REACHED if and only if eight frames are stored, and CAPTURE_BYTE_LIMIT_REACHED if and only if fewer are and the bytes would exceed sixteen megabytes; whatever passes both fits into the store. |
| `UploadAnswers.NewIsAnswered` | src/certificate_capture/coordinator.py:1467-1529 | A new frame within the limits is accepted if and only if its digest is right, the caller is live and nothing fails; the exact conditions of failing closed and of refused access, and anything else is a failed upload. |
| `UploadAnswers.StrangersAreRefused` | src/certificate_capture/coordinator.py:1330-1361 | Whoever has no permit, came too late or has no live session is refused and changes nothing. |
| `CaptureRuns.AccountsAgree` | src/certificate_capture/coordinator.py:1300-1529 | From the beginning, after any run of openings, uploads, auxiliary operations, reads, deletions, closings and destructions, at whatever fault points, the table lists exactly the frames of the partition, their digests and their total size, while there is a partition. |
| `CaptureRuns.ActKeepsAccounts` | src/certificate_capture/coordinator.py:2836-2891 | Each single one of those events keeps the agreement, from every state in which it holds. |
| `CaptureRuns.OpenKeepsAccounts` | src/certificate_capture/coordinator.py:995-1061 | Opening, with the publication of the partition or its rollback, begins with an account that agrees. |
| `CaptureRuns.EndIs` | src/certificate_capture/coordinator.py:2823-2891 | An end destroys exactly the capture it names, under a fence that covers it; the table is forgotten if that capture is gone and none has come up since, and is not touched otherwise. |
| `CaptureRuns.OpeningIsFresh` | src/certificate_capture/coordinator.py:995-1061 | A capture opens exactly above all destroyed sequence numbers, empty, published under its profile, in the table as in the store; otherwise nothing changes. |
| `CaptureRuns.RunKeepsRecords` | src/certificate_capture/coordinator.py:1363-1373 | Within a capture a record of the table, once entered, never changes and never goes. |
| `CaptureRuns.ReuploadAnyTimeLater` | src/certificate_capture/coordinator.py:1363-1373 | Uploading an accepted frame again gives the first result and changes nothing, whatever was uploaded or asked of the store in between. |
| `JpegWalker.AcceptsExactlyTheGrammar` | src/certificate_capture/frame_ingress.py:224-287 | The walker accepts a file if and only if it is spelled by the marker grammar: SOI, items with fill bytes and length-prefixed segments, a scan with stuffed zeros and restart markers, EOI (B.1.1.2, B.1.1.4 and B.1.1.5 of ITU-T T.81). |
| `JpegWalker.AcceptedSetIsPrefixFree` | src/certificate_capture/frame_ingress.py:224-287 | No accepted file is a proper prefix of another, so any truncation and any trailing byte is rejected. |
| `JpegWalker.StrictJpegContainer` | src/certificate_capture/frame_ingress.py:224-287 | The nested loops terminate and decide exactly the specified acceptance. |
| `JpegWalker.WalkScan` | src/certificate_capture/frame_ingress.py:235-257 | The inner loop over entropy-coded data stops exactly where the specification does. |
| `JpegWalker.MarkerClasses` | src/certificate_capture/frame_ingress.py:242-287 | Which markers stand alone, take a segment or belong to scan data, marker by marker. |
| `JsonDepth.AcceptsExactlyBoundedForests` | src/certificate_capture/contracts/ocr.py:64-90 | The scanner accepts exactly the byte strings that are bracket forests with closed strings, nested within the bound. |
| `JsonDepth.JsonAcceptedIffShallow` | src/certificate_capture/contracts/admission_notice.py:382-406 | Any serialised JSON value, with white space and escapes (RFC 8259, section 7), is accepted if and only if its container depth is within the bound. |
| `JsonDepth.MismatchedBracketsPass` | src/certificate_capture/contracts/ocr.py:80-90 | Bracket kinds are not compared: an array closed as an object passes. |
| `JsonDepth.TighterBoundIsStricter` | src/certificate_capture/contracts/admission_notice.py:37-37 | What passes the bound of the extraction parser passes that of the OCR parser. |
| `JsonDepth.RequireBoundedJsonDepth` | services/certificate_ocr/certificate_ocr/protocol.py:61-85 | The loop, with its early exits, decides exactly the specified acceptance; the three copies differ in the bound only. |
| `Slicer.SlicesAndRest` | src/engine_utils/general_slicer.py:65-108 | The slices all have the slice size, and with the remainder they are the stream. |
| `Slicer.SlicingIsUnique` | src/engine_utils/general_slicer.py:65-108 | Any slices of that size with a shorter remainder that make up the stream are these. |
| `Slicer.SlicesContinue` | src/engine_utils/general_slicer.py:65-108 | Carrying the remainder into the next chunk is cutting the longer stream. |
| `Slicer.OutputIgnoresChunking` | src/engine_utils/general_slicer.py:65-108 | For every list of chunks the output is that of the whole stream at once. |
| `Slicer.SliceContext.SliceData` | src/engine_utils/general_slicer.py:65-108 | The loop over one chunk emits exactly those slices, keeps exactly that remainder, and reports for each slice where it stands in the stream. |
| `Slicer.SliceContext.Flush` | src/engine_utils/general_slicer.py:45-51 | Hands out the remainder and starts afresh. |
| `Slicer.SliceContext.UpdateStartId` | src/engine_utils/general_slicer.py:53-56 | Moves the start only before the first sample or when forced. |
| `SidecarSlot.AtMostOneInference` | services/certificate_ocr/certificate_ocr/app.py:201-302 | Over every interleaving of timeouts, cancellations and completions at most one kernel runs, and the slot is taken while it does. |
| `SidecarSlot.SlotReleasedOncePerAcquire` | services/certificate_ocr/certificate_ocr/app.py:146-164 | Each request acquires the slot at most once and releases it exactly once per acquire. |
| `SidecarSlot.RegisteredUntilKernelExits` | services/certificate_ocr/certificate_ocr/app.py:85-106 | While its kernel runs, an operation ID stays registered to its request, its image buffer is intact, and a second request of that ID is rejected. |
| `SidecarSlot.NothingLeaks` | services/certificate_ocr/certificate_ocr/app.py:275-302 | When all requests are finished the slot is free and the table is empty. |
| `SidecarSlot.ResultsAreUncancelled` | services/certificate_ocr/certificate_ocr/app.py:240-300 | A result is delivered only from a kernel that succeeded and only if no cancellation came first. |
| `SidecarSlot.RunKeepsInv` | services/certificate_ocr/certificate_ocr/app.py:181-302 | Every run keeps slot, table and requests consistent. |
| `SidecarSlot.OperationTable.Register` | services/certificate_ocr/certificate_ocr/app.py:85-91 | Registers a new ID with a fresh event, or refuses a known one and changes nothing. |
| `SidecarSlot.OperationTable.Cancel` | services/certificate_ocr/certificate_ocr/app.py:93-97 | Sets exactly the event of the ID, if there is one. |
| `SidecarSlot.OperationTable.Release` | services/certificate_ocr/certificate_ocr/app.py:99-106 | Removes the ID only if it still holds this very event. |
| `SidecarAnswers.ArrivalIsAnswered` | services/certificate_ocr/certificate_ocr/app.py:181-200 | A request is taken in if and only if its identity fits and no other of its ID is underway; otherwise it is answered at once. |
| `SidecarAnswers.SlotIsGiven` | services/certificate_ocr/certificate_ocr/app.py:201-239 | A waiting request that finds the slot free starts its kernel unless it was cancelled meanwhile; with the slot taken nothing happens. |
| `SidecarAnswers.KernelEndIsAnswered` | services/certificate_ocr/certificate_ocr/app.py:240-274 | A kernel that ended is answered to its waiting caller: an error, a cancellation that came meanwhile, or the result; slot and buffer are given back. |
| `SidecarAnswers.DetachedEndGivesBack` | services/certificate_ocr/certificate_ocr/app.py:275-302 | The end of a kernel whose request has been answered before gives back slot and ID and changes no answer. |
| `SidecarAnswers.GivingUp` | services/certificate_ocr/certificate_ocr/app.py:201-239 | A timeout or a lost caller ends a waiting request with everything given back; one whose kernel runs is answered, marked and detached, and keeps slot, buffer and ID until the kernel ends. |
| `SidecarAnswers.CancellationMarks` | services/certificate_ocr/certificate_ocr/app.py:93-97 | A cancellation sets the mark of the one request of that ID that is underway, and nothing else. |
| `SidecarAnswers.KernelEndsOnce` | services/certificate_ocr/certificate_ocr/app.py:240-302 | A running kernel ends once and then shows how; nothing else changes, and without a running kernel nothing happens. |
| `ReadingOrder.ReadingIgnoresSpanOrder` | src/certificate_capture/extraction/reading_order.py:370-423 | The reading order is the same for every permutation of spans with distinct IDs. |
| `ReadingOrder.ReadingHoldsEachSpanOnce` | src/certificate_capture/extraction/reading_order.py:370-423 | The runs of all lines hold exactly the spans of non-degenerate extent, each as often as the page has it. |
| `ReadingOrder.RunsCutExactlyAtGaps` | src/certificate_capture/extraction/reading_order.py:327-367 | The runs of a line are its spans by position, cut exactly between neighbours too far apart. |
| `ReadingLoops.ReconstructReadingOrder` | src/certificate_capture/extraction/reading_order.py:370-423 | The method computes the specified reading order. |
| `ReadingLoops.GroupIntoLines` | src/certificate_capture/extraction/reading_order.py:390-401 | The loop that places each span in the nearest line it fits computes the specified groups. |
| `ReadingOrder.SelectGroupIsNearest` | src/certificate_capture/extraction/reading_order.py:390-401 | A line is selected if and only if some line fits; no fitting line is nearer than the selected one, and none before it is as near. |
| `ReadingLoops.SelectLine` | src/certificate_capture/extraction/reading_order.py:390-401 | The loop over the fitting lines selects as specified. |
| `ReadingLoops.CutRuns` | src/certificate_capture/extraction/reading_order.py:341-355 | The loop that begins a new run at each wide gap computes the specified runs. |
| `ReadingLoops.RunsOfLine` | src/certificate_capture/extraction/reading_order.py:327-367 | The loop that cuts a line computes the specified runs. |
| `ReadingLoops.CollectGeometries` | src/certificate_capture/extraction/reading_order.py:377-379 | Exactly the spans with an extent have a geometry. |
| `ReadingLoops.RelatedExactly` | src/certificate_capture/extraction/reading_order.py:206-240 | Related are exactly the runs of an adjacent neighbouring line that overlap or begin near. |
| `ReadingLoops.ForwardPathsAre` | src/certificate_capture/extraction/reading_order.py:426-456 | Every forward path is a chain of related runs; unless the bound of sixteen was reached, every such chain is among them. |
| `ReadingLoops.ForwardRunPaths` | src/certificate_capture/extraction/reading_order.py:426-456 | The breadth-first loop terminates (paths left, then frontier) and computes the specified paths. |
| `ReadingLoops.ChainClimbs` | src/certificate_capture/extraction/reading_order.py:426-456 | A forward path goes up exactly one line at a time. |
| `ReadingShape.ReadingIs` | src/certificate_capture/extraction/reading_order.py:304-423 | On every page of distinct spans: each span, in the order down the page by centres, either fits no line there was before it and begins one, or has joined a line it fits, none of the others being nearer and none begun earlier as near; lines follow by their mean centre, top and left side; the spans of a line go right; boxes of lines and runs are exact. |
| `ReadingShape.RepresentativeIs` | src/certificate_capture/extraction/reading_order.py:304-313 | A span is compared with the item of a line whose centre is nearest, the leftmost of these. |
| `ReadingShape.OverlapIs` | src/certificate_capture/extraction/reading_order.py:291-302 | The overlap of two spans is the same both ways, 0 exactly when one is above the other and 1 exactly when one spans no more than the other. |
| `ReadingShape.SameLineIs` | src/certificate_capture/extraction/reading_order.py:304-325 | A span is on a line if and only if it overlaps the representative by 0.35, or their centres are within 0.012 or 0.6 of either height. |
| `ReadingShape.SplitsIs` | src/certificate_capture/extraction/reading_order.py:341-355 | A run is cut if and only if the gap exceeds 0.055 and 1.25 of either height. |
| `ReadingShape.AdjacentIs` | src/certificate_capture/extraction/reading_order.py:189-204 | Neighbouring lines are adjacent if and only if their gap is within 0.08 or 1.5 of either height. |
| `ReadingShape.NearIs` | src/certificate_capture/extraction/reading_order.py:206-240 | Runs are near if and only if their extents overlap or their left sides are within 0.18. |
| `ReadingShape.GeometryIs` | src/certificate_capture/extraction/reading_order.py:243-267 | A span has a geometry if and only if it extends further than a millionth both ways. |
| `ReadingShape.CornersAreBoxed` | src/certificate_capture/extraction/reading_order.py:243-267 | The box of a span holds its four corners and each side goes through one. |
| `ReadingShape.RelatedNearestFirst` | src/certificate_capture/extraction/reading_order.py:206-240 | Related runs come by how near their left sides are. |
| `MappedText.FromRuns` | src/certificate_capture/extraction/reading_order.py:57-94 | The triple loop computes the specified characters. |
| `MappedText.EveryCharacterIsTraced` | src/certificate_capture/extraction/reading_order.py:57-94 | Every mapped character is exactly a non-blank source character of a span on the path, at its offset. |
| `MappedText.Starts` | src/certificate_capture/extraction/reading_order.py:96-106 | Exactly the positions at which a non-empty text occurs, overlapping ones too, in strictly rising order; none of an empty text. |
| `MappedText.Occurrences` | src/certificate_capture/extraction/reading_order.py:96-106 | The find loop computes the specified positions. |
| `MappedText.CharactersDescend` | src/certificate_capture/extraction/reading_order.py:57-94 | Along a path that goes down the page the line of a character never goes back. |
| `MappedText.SortedSpansAre` | src/certificate_capture/extraction/reading_order.py:128-140 | Source spans are exactly the different spans, one per ID, by rising ID. |
| `TemplateMatch.BodyAnchorOccurrences` | src/certificate_capture/extraction/hbtc_admission_notice.py:520-586 | The nested loops and the dictionary by identity compute the specified occurrences. |
| `TemplateMatch.OccurrenceIs` | src/certificate_capture/extraction/hbtc_admission_notice.py:536-566 | There is an occurrence if and only if the text fits, its context is valid and the box of its spans stands in the band of its rule. |
| `TemplateMatch.OccurrenceIsPlaced` | src/certificate_capture/extraction/hbtc_admission_notice.py:182-200 | Its extent is that of the box, and its keys are the places of its first and its last character, by line, distance along the span, span and offset. |
| `TemplateMatch.FoundAreReal` | src/certificate_capture/extraction/hbtc_admission_notice.py:520-586 | At most sixteen occurrences, in reading order, each really standing on a forward path of the page in the band of its rule, strictly after the heading. |
| `TemplateMatch.FoundMissesNothing` | src/certificate_capture/extraction/hbtc_admission_notice.py:520-586 | Below the two bounds of sixteen no occurrence is missed: one with the same ends is found. |
| `TemplateMatch.FoundExactlyReal` | src/certificate_capture/extraction/hbtc_admission_notice.py:520-586 | Below the bounds, and if no two real occurrences of the rule share both ends, found are exactly the real occurrences after the heading. |
| `TemplateMatch.AnchorLinesFit` | src/certificate_capture/extraction/hbtc_admission_notice.py:182-200 | Every occurrence found names the line it begins on in its first key and ends on no line further up. |
| `TemplateMatch.ExtendStates` | src/certificate_capture/extraction/hbtc_admission_notice.py:606-642 | The loops of one rule compute the specified states. |
| `TemplateMatch.FindBodySignature` | src/certificate_capture/extraction/hbtc_admission_notice.py:589-656 | The search over all rules computes the specified signature. |
| `AnchorSearch.SearchIsSound` | src/certificate_capture/extraction/hbtc_admission_notice.py:589-642 | Every state of the search is a real chain: template order, each strictly after the last, horizontally compatible. |
| `AnchorSearch.CompatibleIs` | src/certificate_capture/extraction/hbtc_admission_notice.py:659-674 | Two anchors are compatible if and only if their horizontal extents meet, or they are an admission and a study no further than 0.18 apart. |
| `AnchorSearch.SignatureIsReal` | src/certificate_capture/extraction/hbtc_admission_notice.py:643-656 | The signature reported is that of a real chain that begins on three lines or is shorter than three. |
| `AnchorSearch.SignatureOrderIs` | src/certificate_capture/extraction/hbtc_admission_notice.py:643-656 | A signature is greater than another for more anchors, or for as many if it has the first in template order that only one of them has. |
| `AnchorSearch.SearchCovers` | src/certificate_capture/extraction/hbtc_admission_notice.py:589-642 | If no occurrence costs another of its rule and line a continuation, every chain none of whose shorter parts could be reported has a state under its key that ends no later. |
| `SearchExactness.FindsEarlyIff` | src/certificate_capture/extraction/hbtc_admission_notice.py:589-656 | On every page made of some of the occurrences the search reports no less than each such chain, if and only if no occurrence that ends no later than another of its rule and line, and so is kept in its place, is incompatible with what the other goes on to. |
| `SearchExactness.SignatureIsGreatest` | src/certificate_capture/extraction/hbtc_admission_notice.py:589-656 | Under that condition, and if no chain of three anchors on three lines is overtaken, that is, kept out by another that cannot go on to the fourth anchor where it can, with no way there by a chain that mixes the two, no eligible chain has a greater signature than the one reported. |
| `SearchExactness.FindsAllIff` | src/certificate_capture/extraction/hbtc_admission_notice.py:589-656 | Both conditions together are exact: where no two occurrences of a rule end alike, the search reports no less than any eligible chain on every page made of some of the occurrences if and only if they hold. |
| `SearchExactness.LossIsMissed` | src/certificate_capture/extraction/hbtc_admission_notice.py:626-642 | Each pair of occurrences that breaks the first condition makes the search miss a chain on the page that has just the two and the continuation. |
| `SearchExactness.OvertakenIsMissed` | src/certificate_capture/extraction/hbtc_admission_notice.py:612-642 | Each overtaken chain is missed on the page that has just the two chains and the fourth anchor. |
| `SearchExactness.ThreeReportedIff` | src/certificate_capture/extraction/hbtc_admission_notice.py:589-656 | Under the first condition alone three or more anchors are reported if and only if some chain of three or more anchors on three or more lines is there. |
| `SearchExactness.ColumnIsMissed` | src/certificate_capture/extraction/hbtc_admission_notice.py:626-674 | Two salutations on one line with the rest of the notice below the right one only, anywhere on the page: a chain of three anchors on three lines is there and the search reports two. |
| `PageMatch.HeadingCandidates` | src/certificate_capture/extraction/hbtc_admission_notice.py:249-295 | The loops over runs and related runs compute the specified headings. |
| `TitlePlaces.HeadingsAre` | src/certificate_capture/extraction/hbtc_admission_notice.py:203-295 | The headings are exactly, one for each text and list of spans, what stands in the title region in a run, or in a run and one related to it below (nested, if either names the institution by itself), read without the punctuation around it; by position. |
| `TitlePlaces.TurnedDownIff` | src/certificate_capture/extraction/hbtc_admission_notice.py:687-700 | A page is NOT_MATCHED if and only if a heading names some other institution and has a span that no heading of the institution itself has. |
| `PageMatch.MatchedMeansRealChain` | src/certificate_capture/extraction/hbtc_admission_notice.py:687-737 | A page is MATCHED only if no other institution is named and a supported heading is followed by a real chain of three or more body anchors, in template order, each strictly after the one before and compatible with it, on three or more lines; the reported IDs are those. |
| `PageMatch.MatchedExactlyOnChains` | src/certificate_capture/extraction/hbtc_admission_notice.py:687-737 | Where no occurrence below a supported heading costs another of its line a continuation, a page is MATCHED if and only if such a heading and such a chain of found occurrences exist. |
| `PageMatch.MatchedIffRealChain` | src/certificate_capture/extraction/hbtc_admission_notice.py:520-737 | The same in terms of the page itself: if moreover neither bound of sixteen is reached and no two real anchors share both ends, a page is MATCHED if and only if a chain of anchors really standing on it below a supported heading suffices. |
| `TwoColumnPage.PageReading` | src/certificate_capture/extraction/reading_order.py:370-423 | The spans of a two-column page of four lines, as OCR would deliver them, have that reading order. |
| `TwoColumnPage.PageRules` | src/certificate_capture/extraction/hbtc_admission_notice.py:520-586 | What is found below its heading is exactly two salutations side by side, a committee and an admission. |
| `TwoColumnPage.PageIsMissed` | src/certificate_capture/extraction/hbtc_admission_notice.py:687-737 | That page shows a sufficient chain below the own heading of the institution and is INSUFFICIENT, so the condition cannot be dropped. |
| `PageMatch.MatchIsValid` | src/certificate_capture/contracts/admission_notice_template.py:97-142 | Every page decision satisfies the constructor policy of the contract. |
| `CapturePages.PagesIgnoreOrder` | src/certificate_capture/extraction/hbtc_admission_notice.py:157-179 | Acceptance and order of the pages do not depend on the order they come in. |
| `CapturePages.AcceptedIff` | src/certificate_capture/extraction/hbtc_admission_notice.py:157-179 | Pages are accepted if and only if there are one to three, any two of one epoch, of different results and frames and without a common span ID, and no page has a span ID twice. |
| `CapturePages.MatchIgnoresPageOrder` | src/certificate_capture/extraction/hbtc_admission_notice.py:768-845 | Neither does the decision. |
| `CapturePages.CaptureMatchedIff` | src/certificate_capture/extraction/hbtc_admission_notice.py:768-845 | A capture is MATCHED if and only if some page is and none is NOT_MATCHED, NOT_MATCHED if and only if some page is; exactly the matched pages are handed on. |
| `CapturePages.CaptureAnchorsAre` | src/certificate_capture/extraction/hbtc_admission_notice.py:801-845 | When matched, a capture reports exactly the anchors found on its matched pages; when insufficient, the anchors of a page than which none is stronger. |
| `CapturePages.StrengthIs` | src/certificate_capture/extraction/hbtc_admission_notice.py:801-845 | An insufficient page is stronger than another for more anchors, or for as many if it has the first in template order that only one of them has. |
| `CapturePages.CaptureMatchIsValid` | src/certificate_capture/contracts/admission_notice_template.py:97-142 | Every capture decision satisfies the constructor policy of the contract. |
| `FieldCandidates.TrimStructuralBounds` | src/certificate_capture/extraction/admission_notice.py:183-198 | The two loops stop at the outermost characters that are not structural. |
| `FieldText.SpanReadsAsSqueezed` | src/certificate_capture/extraction/reading_order.py:108-126 | The value read from a whole span is its text without white space, but with one space where white space stands between Latin letters or digits. |
| `FieldText.CollegeEndIs` | src/certificate_capture/extraction/admission_notice.py:530-544 | A college ends with the first academic unit that ends, not having begun the stretch, before the first mention of a study. |
| `FieldText.OpensSentenceIs` | src/certificate_capture/extraction/admission_notice.py:574-618 | An admission opens its sentence if and only if before it stands only punctuation, or an approval and punctuation. |
| `FieldText.MajorStartIs` | src/certificate_capture/extraction/admission_notice.py:621-630 | A major begins behind the college of the last admission before its study, or with its line if that has none. |
| `FieldText.MajorStartAlone` | src/certificate_capture/extraction/admission_notice.py:621-630 | A major begins with its line if no admission stands before its study. |
| `FieldPlaces.CandidateIs` | src/certificate_capture/extraction/admission_notice.py:322-367 | A stretch makes a candidate if and only if the candidate reads what is left of it without the punctuation at its ends: valid value, the spans of exactly these characters, at most 32, with every score from stretch to anchor sufficient. |
| `FieldPlaces.NamesAre` | src/certificate_capture/extraction/admission_notice.py:425-466 | The name candidates of a page are exactly the readings of all name characters before a salutation, with only punctuation before them and behind it, near enough, on a line of the name region. |
| `FieldPlaces.ProvincesAre` | src/certificate_capture/extraction/admission_notice.py:469-527 | The province candidates are exactly the readings from a mention of the way, with only punctuation before it, to the first committee, which its first approval follows within eight characters of punctuation, on paths from the province region. |
| `FieldPlaces.CollegesAre` | src/certificate_capture/extraction/admission_notice.py:547-618 | The college candidates are exactly the readings from behind an admission that opens its sentence to the end of the first unit: on its line if there is any, and otherwise, if the line ends with it, across the line break. |
| `FieldPlaces.MajorsAre` | src/certificate_capture/extraction/admission_notice.py:633-732 | The major candidates are exactly the readings before a study that ends its line: of what its line has behind the college, if that is valid, and otherwise with a line before that reads as the beginning of a major. |
| `FieldCollectors.MakeCandidate` | src/certificate_capture/extraction/admission_notice.py:322-367 | Trims, validates and sources one candidate as specified. |
| `FieldCollectors.CollectNames` | src/certificate_capture/extraction/admission_notice.py:425-466 | The loops compute the specified name candidates. |
| `FieldCollectors.CollectProvinces` | src/certificate_capture/extraction/admission_notice.py:469-527 | The loops compute the specified province candidates. |
| `FieldCollectors.CollectColleges` | src/certificate_capture/extraction/admission_notice.py:574-618 | The loops compute the specified college candidates, on the line of the anchor or else across the line break. |
| `FieldCollectors.CollectMajors` | src/certificate_capture/extraction/admission_notice.py:633-732 | The loops compute the specified major candidates, on the line of the anchor or else with the line before. |
| `CandidateSources.BoxIsExact` | src/certificate_capture/extraction/reading_order.py:269-288 | For spans that all have an extent the source box is the bounding box of all their corners and is a proper rectangle. |
| `CandidateSources.NamesAreSourced` | src/certificate_capture/extraction/admission_notice.py:425-466 | Every name candidate is sourced: 1 to 32 spans of its own page by rising ID, with their exact bounding box. |
| `CandidateSources.ProvincesAreSourced` | src/certificate_capture/extraction/admission_notice.py:469-527 | Every province candidate is sourced. |
| `CandidateSources.CollegesAreSourced` | src/certificate_capture/extraction/admission_notice.py:547-618 | Every college candidate is sourced. |
| `CandidateSources.MajorsAreSourced` | src/certificate_capture/extraction/admission_notice.py:633-732 | Every major candidate is sourced. |
| `NoticeExtraction.DecidedIff` | src/certificate_capture/extraction/admission_notice.py:370-383 | A page decides a field if and only if it has candidates and all of them are one occurrence. |
| `NoticeExtraction.FieldFoundIff` | src/certificate_capture/extraction/admission_notice.py:760-789 | A field is FOUND if and only if no page is unclear, some page is decided, all decided pages agree on the value and their spans are at most 32; it then has that value and exactly the spans of all of them. |
| `FieldMeaning.NoticeSaysWhatStands` | src/certificate_capture/extraction/admission_notice.py:820-860 | Each field of a notice, by its name, is NOT_FOUND if and only if no matched page offers a reading by the rule of that very field; if FOUND, each page that offers any offers one occurrence and a reading of that value, and the spans named are exactly those of the readings; if only one value is offered, once a page and in at most 32 spans, it is FOUND with that value. |
| `FieldMeaning.ExtractionIs` | src/certificate_capture/extraction/admission_notice.py:820-860 | A capture is refused as input exactly when it is not one to three usable pages, for its template exactly when some page is turned down or none is matched, and gives a notice otherwise. |
| `FieldMeaning.NoticeNamesThePages` | src/certificate_capture/extraction/admission_notice.py:820-860 | A notice names exactly the results and frames of its pages, all of one epoch. |
| `NoticeExtraction.DecideField` | src/certificate_capture/extraction/admission_notice.py:735-746 | The collected candidates give the specified decision. |
| `NoticeExtraction.AggregateFits` | src/certificate_capture/contracts/admission_notice.py:171-201 | Every aggregated field is one its contract accepts: sorted unique span IDs, a rectangle or none, nothing in a field that is not found. |
| `NoticeExtraction.AggregateIsSourced` | src/certificate_capture/extraction/admission_notice.py:760-789 | Every aggregated field names known spans only, and a polygon is exactly the bounding box of its spans, all of one page. |
| `NoticeExtraction.ExtractIgnoresPageOrder` | src/certificate_capture/extraction/admission_notice.py:820-860 | The extraction is the same for every order of the input pages. |
| `NoticeProvenance.IndexSpans` | src/certificate_capture/private_store.py:1490-1497 | The index is built exactly when no span ID occurs twice. |
| `NoticeProvenance.CheckField` | src/certificate_capture/private_store.py:1498-1546 | The check of one field decides exactly whether it is sourced. |
| `NoticeProvenance.ExtractionProvenanceIsValid` | src/certificate_capture/private_store.py:1486-1547 | The check accepts exactly the extractions whose every field is sourced, over pages without a repeated span. |
| `NoticeProvenance.ExtractionsPassTheCheck` | src/certificate_capture/extraction/admission_notice.py:820-860 | Every extraction satisfies its contract and passes the independent check of the store over the same pages. |

## Left out

- EndBindsIffItCan: for claims from FAILED_CLOSED the promise is stated with its exact condition, because it is false without it.
- SignatureIsGreatest: holds under the two conditions that FindsAllIff proves exact over all pages made of some of the occurrences; for one page that breaks them only the search itself says whether its greatest chain is among those missed.
- MatchedExactlyOnChains: needs the first of those conditions below every supported heading; the direction from MATCHED to a chain, MatchedMeansRealChain, needs none.
- MatchedIffRealChain: says nothing about pages on which a bound of sixteen is reached or two real anchors share both ends.
- FoundMissesNothing: promises one occurrence with the same two ends, since the dictionary keeps the last of several paths through the same ends.
- BeginGrantsAreAuthorised: authority is a flag of the event at hand; that it is the authority over the live capture is not part of it.
- AggregateFits: the bounds on a value's characters belong to the field validators and are not part of it.
- Lifecycle as a class: the coordinator is a step system on values, because its coroutines interleave at every await; update in place of its fields and the re-entrancy of its locks are not captured.
- The coordinator's and the store's shutdown beyond the destruction of the capture; after a shutdown starts the lifecycle theorems say nothing.
- The session work controller, security authority, release service and OCR service are environments: a retirement raises the generation by one, a cleanup is complete or not, a callback runs, does not run, or runs and is then reported dead.
- Capability tokens and their bindings are one authorised flag; the operation slot and the temporal binding of the store are part of its environment.
- Canonical JSON, manifests and inference identities are opaque; `find` and `get` wrappers that parse what the modelled reads return are left out.
- The audit trail, personalization launch, capture status view, processor result and timers beyond the expiry step add no state the theorems need.
- Of the JPEG checks only the container walk; header parsing, decoding and the pixel limits are left out.
- A slicer generator abandoned half-way is not modelled; slice sizes are positive, as an endless loop would follow otherwise.
- The sidecar assumes that nobody cancels the inference task itself, as happens only when its event loop shuts down; framing, health and error responses are left out.
- Mapped characters carry no space and line-break flags; the one use in a field value is recomputed from the span's text, the use in a context check is part of the uninterpreted check.
- Ties between headings that begin and end at the same place keep their order of discovery; no result depends on it.
- The extraction's identity, digests and canonical byte bound are left out.
- Floating-point rounding, logging, HTTP routes and the demo are left out.
