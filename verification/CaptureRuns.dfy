/** Whole runs of captures: opening, uploads, everything else the store is asked for, and destruction, in any order. */
module CaptureRuns {
  import opened Basics
  import opened EvidenceModel
  import opened EvidenceSafety
  import opened EvidenceTheorems
  import opened FrameMetadata
  import opened FrameCommit

  /** What the store is asked for by others than the coordinator. */
  predicate Auxiliary(op: Op) {
    op.OpPutRecord? || op.OpPutOcr? || op.OpPutExtraction? || op.OpGetFrame? || op.OpGetRecord? || op.OpDelete? || op.OpClose?
    || op.OpShutdown?
  }

  type AuxiliaryOp = op: Op | Auxiliary(op) witness OpClose(Epoch(0, 0), false)

  /** `covers` says that the cleanup fence is that of the capture's generation, `current` that no other capture came up. */
  datatype Event =
    | Opens(epoch: Epoch, profile: Digest, env: Env, deadline: real)
    | Uploads(u: Upload)
    | Stores(op: AuxiliaryOp)
    | Ends(epoch: Epoch, fence: nat, covers: bool, current: bool)

  predicate IsClear(s: Store) {
    s.partition.None? && s.keys.epoch.None? && s.keys.key.None?
  }

  /** Create and publish the partition and begin a new account, or roll an unpublished partition back. */
  function Open(m: Metadata, s: Store, epoch: Epoch, profile: Digest, env: Env, deadline: real): (Metadata, Store) {
    var (created, creation) := Do(s, OpCreate(epoch, profile, env));
    if !creation.Opened? then (m, created)
    else
      var (published, committed) := Do(created, OpCommit(epoch, true));
      if committed == Answer(true) then
        (Forgotten(m).(capturing := false, deadline := deadline, revision := m.revision + 1), published)
      else (m, Do(published, OpRollback(epoch, true)).0)
  }

  /** Destroy the capture, unless that is already done, and then forget its frames. */
  function End(m: Metadata, s: Store, epoch: Epoch, fence: nat, covers: bool, current: bool): (Metadata, Store) {
    if !covers then (m, s)
    else
      var (s', reply) := if IsClear(s) then (s, Answer(true)) else Do(s, OpDestroy(epoch, true, fence, covers));
      (if reply == Answer(true) && current then Forgotten(m) else m, s')
  }

  function Act(m: Metadata, s: Store, e: Event): (Metadata, Store) {
    match e
    case Opens(epoch, profile, env, deadline) => Open(m, s, epoch, profile, env, deadline)
    case Uploads(u) => (UploadFrame(m, s, u).0, UploadFrame(m, s, u).1)
    case Stores(op) => (m, Do(s, op).0)
    case Ends(epoch, fence, covers, current) => End(m, s, epoch, fence, covers, current)
  }

  function RunBoth(m: Metadata, s: Store, es: seq<Event>): (Metadata, Store) {
    if es == [] then (m, s)
    else
      var (m', s') := RunBoth(m, s, es[..|es| - 1]);
      Act(m', s', es[|es| - 1])
  }

  // ---------------------------------------------------------------- the accounts agree at all times

  /** While there is a partition, the coordinator's table lists exactly its frames. */
  predicate Accounts(m: Metadata, s: Store) {
    s.partition.Some? ==> Agrees(m, s.partition.value)
  }

  /** The frames of two partitions are the same. */
  predicate SameFrames(p: Partition, p': Partition) {
    p'.frameIdBySeq == p.frameIdBySeq && p'.evidence == p.evidence && p'.acceptedBytes == p.acceptedBytes
  }

  lemma SameFramesAgree(m: Metadata, p: Partition, p': Partition)
    requires Agrees(m, p) && SameFrames(p, p')
    ensures Agrees(m, p')
  {
  }

  /** What others ask the store for leaves the frames alone. */
  lemma AuxiliaryKeepsFrames(s: Store, op: Op)
    requires StoreInv(s) && s.partition.Some? && Auxiliary(op)
    ensures var s' := Do(s, op).0; s'.partition.Some? && SameFrames(s.partition.value, s'.partition.value)
  {
    hide StoreInv, Consume, Refusal, GetFrame, GetRecord, RecordRefusal, OcrReply, ExtractionReply, DeleteReply, OcrWithout, ExtractionsWithout;
  }

  /** Nothing counts where nothing is stored. */
  lemma NoFramesNoBytes(p: Partition, key: Key, ids: Id)
    requires WellFormed(p, key, ids) && p.records == map[]
    ensures p.acceptedBytes == 0
  {
    hide FramesIndexed, FramesStored, RecordsPartitioned, RecordsOpen, OcrIndexed, ExtractionsIndexed, Lists;
  }

  /** A new partition is empty and gets published; one that was there is as it was. */
  lemma CreationShape(s: Store, epoch: Epoch, profile: Digest, env: Env)
    ensures var (created, creation) := Do(s, OpCreate(epoch, profile, env));
            if creation.Opened? && s.partition.None? then
              && created.partition == Some(EmptyPartition(epoch, profile))
              && Do(created, OpCommit(epoch, true)).1 == Answer(true)
            else created == s
  {
  }

  lemma PublicationShape(s: Store, epoch: Epoch)
    requires StoreInv(s)
    ensures var (published, committed) := Do(s, OpCommit(epoch, true));
            if committed == Answer(true) then
              && s.partition.Some? && published.partition == Some(s.partition.value.(committed := true))
              && s.partition.value.records == map[] && s.partition.value.evidence == map[]
              && s.partition.value.frameIdBySeq == map[] && s.partition.value.acceptedBytes == 0
            else published == s
  {
    hide WellFormed, LogFits;
    if s.partition.Some? && s.partition.value.records == map[] {
      NoFramesNoBytes(s.partition.value, s.keys.key.value, s.ids);
    }
  }

  /** A partition is gone after a destruction, or has its frames still. */
  lemma DestructionShape(s: Store, epoch: Epoch)
    ensures var s' := Destroy(s, epoch).0;
            s'.partition.Some? ==> s.partition.Some? && SameFrames(s.partition.value, s'.partition.value)
    ensures Destroy(s, epoch).1 ==> Destroy(s, epoch).0.partition.None?
  {
  }

  lemma DestroyedAccounts(m: Metadata, s: Store, epoch: Epoch)
    requires Accounts(m, s)
    ensures Accounts(m, Destroy(s, epoch).0)
  {
    DestructionShape(s, epoch);
    hide Destroy, Agrees;
    if Destroy(s, epoch).0.partition.Some? {
      SameFramesAgree(m, s.partition.value, Destroy(s, epoch).0.partition.value);
    }
  }

  lemma EmptyAccounts(m: Metadata, p: Partition)
    requires p.frameIdBySeq == map[] && p.acceptedBytes == 0
    ensures Agrees(Forgotten(m), p)
  {
    EmptyAgrees(p.epoch, 0, Forgotten(m));
    SameFramesAgree(Forgotten(m), EmptyPartition(p.epoch, 0).(evidence := p.evidence), p);
  }

  lemma RollbackKeepsAccounts(m: Metadata, s: Store, epoch: Epoch)
    requires StoreInv(s) && Accounts(m, s)
    ensures StoreInv(Do(s, OpRollback(epoch, true)).0) && Accounts(m, Do(s, OpRollback(epoch, true)).0)
  {
    hide StoreInv, Destroy, Agrees, WellFormed, LogFits;
    DoKeeps(s, OpRollback(epoch, true));
    DestroyedAccounts(m, s, epoch);
  }

  lemma OpenKeepsAccounts(m: Metadata, s: Store, epoch: Epoch, profile: Digest, env: Env, deadline: real)
    requires StoreInv(s) && Accounts(m, s)
    ensures var (m', s') := Open(m, s, epoch, profile, env, deadline); StoreInv(s') && Accounts(m', s')
  {
    hide StoreInv, Do, Agrees;
    DoKeeps(s, OpCreate(epoch, profile, env));
    CreationShape(s, epoch, profile, env);
    var created := Do(s, OpCreate(epoch, profile, env)).0;
    DoKeeps(created, OpCommit(epoch, true));
    PublicationShape(created, epoch);
    var (published, committed) := Do(created, OpCommit(epoch, true));
    if committed == Answer(true) {
      EmptyAccounts(m.(capturing := false, deadline := deadline, revision := m.revision + 1), published.partition.value);
    } else {
      RollbackKeepsAccounts(m, published, epoch);
    }
  }

  lemma DestroyCaptureKeepsAccounts(m: Metadata, s: Store, epoch: Epoch, fence: nat, covers: bool)
    requires Accounts(m, s)
    ensures var (s', reply) := DestroyCapture(s, epoch, true, fence, covers);
            Accounts(m, s') && (reply == Answer(true) ==> s'.partition.None?)
  {
    hide Destroy, Agrees;
    DestructionShape(s, epoch);
    DestroyedAccounts(m, s, epoch);
  }

  lemma EndKeepsAccounts(m: Metadata, s: Store, epoch: Epoch, fence: nat, covers: bool, current: bool)
    requires StoreInv(s) && Accounts(m, s)
    ensures var (m', s') := End(m, s, epoch, fence, covers, current); StoreInv(s') && Accounts(m', s')
  {
    hide StoreInv, DestroyCapture, Agrees;
    DestroyCaptureKeeps(s, epoch, true, fence, covers);
    DestroyCaptureKeepsAccounts(m, s, epoch, fence, covers);
  }

  lemma ActKeepsAccounts(m: Metadata, s: Store, e: Event)
    requires StoreInv(s) && Accounts(m, s)
    ensures StoreInv(Act(m, s, e).1) && Accounts(Act(m, s, e).0, Act(m, s, e).1)
  {
    hide StoreInv, UploadFrame, Do, Open, End, Agrees;
    match e
    case Opens(epoch, profile, env, deadline) => OpenKeepsAccounts(m, s, epoch, profile, env, deadline);
    case Uploads(u) =>
      if s.partition.Some? { UploadKeepsAgreement(m, s, u); } else { NothingToCommit(m, s, u); }
    case Stores(op) =>
      DoKeeps(s, op);
      if s.partition.Some? {
        AuxiliaryKeepsFrames(s, op);
        SameFramesAgree(m, s.partition.value, Do(s, op).0.partition.value);
      } else {
        NothingToAsk(s, op);
      }
    case Ends(epoch, fence, covers, current) => EndKeepsAccounts(m, s, epoch, fence, covers, current);
  }

  lemma NothingToCommit(m: Metadata, s: Store, u: Upload)
    requires StoreInv(s) && s.partition.None?
    ensures UploadFrame(m, s, u).0 == m && UploadFrame(m, s, u).1 == s
  {
    hide WellFormed, LogFits;
  }

  lemma NothingToAsk(s: Store, op: Op)
    requires StoreInv(s) && s.partition.None? && Auxiliary(op)
    ensures Do(s, op).0.partition.None?
  {
    hide WellFormed, LogFits;
  }

  /**
   After any run of openings, uploads, auxiliary operations and destructions, at whatever fault points, the table
   lists exactly the frames of the partition, if there is one.
   */
  lemma {:induction false} RunsKeepAccounts(m: Metadata, s: Store, es: seq<Event>)
    requires StoreInv(s) && Accounts(m, s)
    ensures StoreInv(RunBoth(m, s, es).1) && Accounts(RunBoth(m, s, es).0, RunBoth(m, s, es).1)
  {
    hide StoreInv, Accounts, Act;
    if es != [] {
      RunsKeepAccounts(m, s, es[..|es| - 1]);
      ActKeepsAccounts(RunBoth(m, s, es[..|es| - 1]).0, RunBoth(m, s, es[..|es| - 1]).1, es[|es| - 1]);
    }
  }

  /** From the beginning, with a table of any content. */
  lemma AccountsAgree(m: Metadata, es: seq<Event>)
    ensures Accounts(RunBoth(m, INITIAL_STORE, es).0, RunBoth(m, INITIAL_STORE, es).1)
  {
    ReachedInv([]);
    RunsKeepAccounts(m, INITIAL_STORE, es);
  }

  // ---------------------------------------------------------------- the ends of a capture

  /** A table without frames, in everything else as before. */
  predicate OnlyForgets(m: Metadata, m': Metadata) {
    && m'.records == map[] && m'.digests == {} && m'.acceptedBytes == 0
    && m'.capturing == m.capturing && m'.deadline == m.deadline && m'.revision == m.revision
  }

  /**
   An end destroys exactly the capture it names, under a fence that covers it; the table is forgotten if that capture is
   gone and none has come up since, and not touched otherwise.
   */
  lemma EndIs(m: Metadata, s: Store, epoch: Epoch, fence: nat, covers: bool, current: bool)
    requires StoreInv(s)
    ensures var (m', s') := End(m, s, epoch, fence, covers, current);
            && (!covers || (s.partition.Some? && s.partition.value.epoch != epoch) ==> m' == m && s' == s)
            && (covers && s.partition.None? ==> s' == s)
            && (covers && s.partition.Some? && s.partition.value.epoch == epoch ==>
                  IsClear(s') && s'.lastDestroyed >= epoch.captureSeq && s'.lastFence == Some(fence))
            && (covers && (s.partition.Some? ==> s.partition.value.epoch == epoch) ==> if current then OnlyForgets(m, m') else m' == m)
  {
    hide WellFormed, LogFits;
  }

  /** A new capture begins empty, published under its profile, in the table as in the store. */
  lemma OpeningIsFresh(m: Metadata, s: Store, epoch: Epoch, profile: Digest, env: Env, deadline: real)
    requires StoreInv(s) && s.partition.None?
    ensures var (m', s') := Open(m, s, epoch, profile, env, deadline);
            var opens := EnvRefusal(env).None? && env.fenceFits && !s.destroyed && epoch.captureSeq > s.lastDestroyed
                         && epoch.captureSeq > s.keys.lastDestroyed;
            && (!opens ==> m' == m && s' == s)
            && (opens ==>
                  && s'.partition == Some(EmptyPartition(epoch, profile).(committed := true)) && s'.keys.epoch == Some(epoch)
                  && m'.records == map[] && m'.digests == {} && m'.acceptedBytes == 0
                  && !m'.capturing && m'.deadline == deadline)
  {
    hide WellFormed, LogFits;
  }

  // ---------------------------------------------------------------- a repeated upload

  /** Neither opens nor ends a capture. */
  predicate WithinCapture(es: seq<Event>) {
    forall i :: 0 <= i < |es| ==> es[i].Uploads? || es[i].Stores?
  }

  /** A record, once entered, stays as it is. */
  lemma UploadKeepsRecords(m: Metadata, s: Store, u: Upload, q: nat)
    requires q in m.records
    ensures q in UploadFrame(m, s, u).0.records && UploadFrame(m, s, u).0.records[q] == m.records[q]
  {
    hide PutFrame;
  }

  lemma {:induction false} RunKeepsRecords(m: Metadata, s: Store, es: seq<Event>, q: nat)
    requires WithinCapture(es) && q in m.records
    ensures q in RunBoth(m, s, es).0.records && RunBoth(m, s, es).0.records[q] == m.records[q]
  {
    hide UploadFrame, Do;
    if es != [] {
      var init := es[..|es| - 1];
      RunKeepsRecords(m, s, init, q);
      if es[|es| - 1].Uploads? {
        UploadKeepsRecords(RunBoth(m, s, init).0, RunBoth(m, s, init).1, es[|es| - 1].u, q);
      }
    }
  }

  /**
   Uploading an accepted frame again gives the first result and changes nothing, whatever was uploaded or asked of the
   store in between.
   */
  lemma ReuploadAnyTimeLater(m: Metadata, s: Store, u: Upload, es: seq<Event>, again: Upload)
    requires StoreInv(s) && s.partition.Some? && u.live.Ran? && UploadFrame(m, s, u).2.Accepted? && WithinCapture(es)
    requires again.live.Ran? && again.input.frameSeq == u.input.frameSeq && again.input.digest == u.input.digest
    requires var (m1, s1, _) := UploadFrame(m, s, u); var (m2, _) := RunBoth(m1, s1, es);
             again.permitted && again.now < again.expiresAt && again.now < m2.deadline
    ensures var (m1, s1, reply) := UploadFrame(m, s, u); var (m2, s2) := RunBoth(m1, s1, es);
            UploadFrame(m2, s2, again) == (m2, s2, reply)
  {
    hide StoreInv, RunBoth, PutFrame;
    var (m1, s1, reply) := UploadFrame(m, s, u);
    var (m2, s2) := RunBoth(m1, s1, es);
    AcceptedIsRecorded(m, s, u);
    RunKeepsRecords(m1, s1, es, u.input.frameSeq);
    assert EarlyReply(m2, again) == Some(Accepted(reply.result));
    hide EarlyReply;
  }
}
