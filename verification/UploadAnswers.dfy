/** What an upload is answered, in every case, in terms of the frames the capture already has and of what goes wrong. */
module UploadAnswers {
  import opened Basics
  import opened PrivateCodec
  import opened EvidenceModel
  import opened EvidenceSafety
  import opened EvidenceTheorems
  import opened EvidenceAnswers
  import opened FrameMetadata
  import opened FrameCommit

  /** The permit holds, and neither the capability nor the wait for frames has run out. */
  predicate Admitted(m: Metadata, u: Upload) {
    u.permitted && u.now < u.expiresAt && u.now < m.deadline
  }

  /** Nothing stands against storing the frame but what may go wrong meanwhile. */
  predicate Storable(s: Store, u: Upload) {
    u.input.digestMatches && LiveFor(s, u.epoch, u.env)
  }

  predicate Unencodable(s: Store, u: Upload) {
    s.partition.Some? && (!Acceptable(FrameJpeg, u.input.payload) || s.partition.value.nonceCounter >= MAX_NONCE_COUNTER)
  }

  /** A frame of a number the capture has: the first answer again, or a conflict; nothing changes. */
  lemma AgainIsAnswered(m: Metadata, s: Store, u: Upload)
    requires u.live.Ran? && Admitted(m, u) && u.input.frameSeq in m.records
    ensures var first := m.records[u.input.frameSeq];
            UploadFrame(m, s, u)
            == (m, s, if u.input.digest == first.evidence.digest then Accepted(first.result) else Rejected(FRAME_SEQUENCE_CONFLICT))
  {
  }

  /** What the store has no room for is turned away by the coordinator's own limits, and reported by which one it is. */
  lemma LimitsAreAnswered(m: Metadata, s: Store, u: Upload)
    requires u.live.Ran? && Admitted(m, u) && u.input.frameSeq !in m.records
    requires StoreInv(s) && s.partition.Some? && Agrees(m, s.partition.value)
    ensures var (reply, p) := (UploadFrame(m, s, u).2, s.partition.value);
            && (reply == Rejected(FRAME_LIMIT_REACHED) <==> |p.evidence| >= 8)
            && (reply == Rejected(CAPTURE_BYTE_LIMIT_REACHED) <==>
                  |p.evidence| < 8 && p.acceptedBytes + |u.input.payload| > 16 * 1024 * 1024)
            && (EarlyReply(m, u).None? <==> FrameFits(p, u.input))
  {
    hide StoreInv, StorePut, Agrees;
    KeysCount(m, s.partition.value);
    TableTotals(m, s.partition.value);
    StoredCount(s);
    NumberIsNew(m, s, u);
    hide HasSeq;
  }

  lemma NumberIsNew(m: Metadata, s: Store, u: Upload)
    requires u.input.frameSeq !in m.records && StoreInv(s) && s.partition.Some? && Agrees(m, s.partition.value)
    ensures !HasSeq(s.partition.value, u.input.frameSeq)
  {
    hide WellFormed, LogFits, HasSeq;
    SeqIndexed(s.partition.value, s.keys.key.value, s.ids, u.input.frameSeq);
  }

  /**
   A new frame within the limits is accepted exactly when its digest is right, the caller is live for the open partition
   and nothing fails on the way; the capture is failed closed exactly when the frame cannot be encoded or the nonces are
   used up, access is refused exactly when the caller is not live, and anything else is a failed upload.
   */
  lemma NewIsAnswered(m: Metadata, s: Store, u: Upload)
    requires u.live.Ran? && Admitted(m, u) && u.input.frameSeq !in m.records
    requires StoreInv(s) && s.partition.Some? && Agrees(m, s.partition.value) && FrameFits(s.partition.value, u.input)
    ensures var reply := UploadFrame(m, s, u).2;
            && (reply.Accepted? <==>
                  Storable(s, u) && !Unencodable(s, u) && u.fault.NoFault? && u.metadataFault.NoMetadataFault?)
            && (reply == Rejected(CAPTURE_FAILED_CLOSED) <==> Storable(s, u) && Unencodable(s, u) && !u.fault.BeforeKeyLookup?)
            && (reply == Rejected(ACCESS_REFUSED) <==>
                  u.input.digestMatches && u.env.slotFree && !LiveFor(s, u.epoch, u.env))
            && (reply.Accepted? || reply == Rejected(CAPTURE_FAILED_CLOSED) || reply == Rejected(ACCESS_REFUSED)
                || reply == Rejected(UPLOAD_FAILED))
  {
    hide StoreInv, Agrees, PutFrame, Acceptable, HasSeq, FrameFits, LiveFor;
    LimitsAreAnswered(m, s, u);
    StoreAnswers(m, s, u);
    hide EarlyReply;
  }

  /** What the store makes of a new frame within the limits. */
  lemma StoreAnswers(m: Metadata, s: Store, u: Upload)
    requires EarlyReply(m, u).None? && StoreInv(s) && s.partition.Some? && FrameFits(s.partition.value, u.input)
    ensures var reply := StorePut(m, s, u).1;
            && (reply.StoredFrame? <==>
                  Storable(s, u) && !Unencodable(s, u) && u.fault.NoFault? && u.metadataFault.NoMetadataFault?)
            && (reply == Refused(INVARIANT_FAILURE) <==> Storable(s, u) && Unencodable(s, u) && !u.fault.BeforeKeyLookup?)
            && (reply == Refused(ACCESS_DENIED) || reply == Refused(CAPTURE_CLOSED) <==>
                  u.input.digestMatches && u.env.slotFree && !LiveFor(s, u.epoch, u.env))
            && reply != Refused(INTEGRITY_FAILURE) && (reply.StoredFrame? || reply.Refused?)
  {
    hide StoreInv, PutFrame, Acceptable, FrameFits, LiveFor, CommitsMetadata;
    FrameAcceptedIff(s, u.epoch, u.env, u.input, u.fault, CommitsMetadata(AcceptanceOf(m, u), u.metadataFault));
    AccessIsRefused(m, s, u);
    CommitsUnlessFault(m, u);
  }

  lemma CommitsUnlessFault(m: Metadata, u: Upload)
    requires EarlyReply(m, u).None?
    ensures CommitsMetadata(AcceptanceOf(m, u), u.metadataFault) <==> u.metadataFault.NoMetadataFault?
  {
  }

  lemma AccessIsRefused(m: Metadata, s: Store, u: Upload)
    requires EarlyReply(m, u).None? && StoreInv(s) && s.partition.Some? && FrameFits(s.partition.value, u.input)
    ensures var reply := StorePut(m, s, u).1;
            && (reply == Refused(ACCESS_DENIED) || reply == Refused(CAPTURE_CLOSED) <==>
                  u.input.digestMatches && u.env.slotFree && !LiveFor(s, u.epoch, u.env))
            && reply != Refused(INTEGRITY_FAILURE) && (reply.StoredFrame? || reply.Refused?)
  {
    hide WellFormed, LogFits, Acceptable, HasSeq, InsertFrame, Consume, Refusal, EarlyReply, AcceptanceOf, CommitsMetadata;
    RefusalIff(s, u.epoch, u.env);
    if LiveFor(s, u.epoch, u.env) { ConsumeFailure(s, FrameJpeg, u.input.payload, u.fault); }
  }

  /** Whoever is not admitted is refused, and nothing changes. */
  lemma StrangersAreRefused(m: Metadata, s: Store, u: Upload)
    requires !Admitted(m, u) || u.live.NotRun?
    ensures UploadFrame(m, s, u) == (m, s, Rejected(ACCESS_REFUSED))
  {
    hide StorePut;
  }
}
