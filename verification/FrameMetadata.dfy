/** The coordinator's own account of the accepted frames, committed from inside the store's insertion. */
module FrameMetadata {
  import opened Basics
  import opened EvidenceModel

  const CAPTURE_INACTIVITY_SECONDS: real := 300.0

  datatype UploadResult = UploadResult(
    frameSeq: nat, encodedSize: nat, acceptedFrameCount: nat, remainingFrameSlots: nat, totalAcceptedBytes: nat)

  datatype FrameRecord = FrameRecord(evidence: Frame, acceptedAt: real, result: UploadResult)

  /** `capturing` is false while the capture is only armed. */
  datatype Metadata = Metadata(
    records: map<nat, FrameRecord>,
    digests: set<Digest>,
    acceptedBytes: nat,
    capturing: bool,
    deadline: real,
    revision: nat)

  /** What one accepted frame changes. */
  datatype Acceptance = Acceptance(frameSeq: nat, digest: Digest, now: real, expiresAt: real, result: UploadResult)

  datatype MetadataFault = NoMetadataFault | HookRaises | TimerGone

  function Min(a: real, b: real): real {
    if a <= b then a else b
  }

  function Committed(m: Metadata, a: Acceptance, evidence: Frame): Metadata {
    Metadata(m.records[a.frameSeq := FrameRecord(evidence, a.now, a.result)], m.digests + {a.digest},
             a.result.totalAcceptedBytes, true, Min(a.now + CAPTURE_INACTIVITY_SECONDS, a.expiresAt), m.revision + 1)
  }

  /** The account of a capture that has no frame yet. */
  function Forgotten(m: Metadata): Metadata {
    m.(records := map[], digests := {}, acceptedBytes := 0)
  }

  predicate CommitsMetadata(a: Acceptance, fault: MetadataFault) {
    fault.NoMetadataFault? && a.now < a.expiresAt
  }

  class FrameTable {
    var records: map<nat, FrameRecord>
    var digests: set<Digest>
    var acceptedBytes: nat
    var capturing: bool
    var deadline: real
    var revision: nat

    function View(): Metadata
      reads this
    {
      Metadata(records, digests, acceptedBytes, capturing, deadline, revision)
    }

    constructor ()
      ensures View() == Metadata(map[], {}, 0, false, 0.0, 0)
    {
      records, digests, acceptedBytes, capturing, deadline, revision := map[], {}, 0, false, 0.0, 0;
    }

    /** Forget the frames of a capture that is over or about to begin. */
    method Clear()
      modifies this
      ensures View() == Forgotten(old(View()))
    {
      records, digests, acceptedBytes := map[], {}, 0;
    }

    /** Commit one frame, or put everything back and report failure. */
    method CommitMetadata(a: Acceptance, evidence: Frame, fault: MetadataFault) returns (ok: bool)
      modifies this
      ensures ok == CommitsMetadata(a, fault)
      ensures View() == if ok then Committed(old(View()), a, evidence) else old(View())
    {
      var previousRecords, previousDigests, previousBytes := records, digests, acceptedBytes;
      var previousCapturing, previousDeadline, previousRevision := capturing, deadline, revision;
      ok := false;
      label attempt: {
        if fault.HookRaises? {
          break attempt;
        }
        records := records[a.frameSeq := FrameRecord(evidence, a.now, a.result)];
        digests := digests + {a.digest};
        acceptedBytes := a.result.totalAcceptedBytes;
        capturing := true;
        if fault.TimerGone? {
          break attempt;
        }
        var next := Min(a.now + CAPTURE_INACTIVITY_SECONDS, a.expiresAt);
        if next <= a.now {
          break attempt;
        }
        deadline := next;
        revision := revision + 1;
        return true;
      }
      records, digests, acceptedBytes := previousRecords, previousDigests, previousBytes;
      capturing, deadline, revision := previousCapturing, previousDeadline, previousRevision;
    }
  }
}
