/** What every event of the sidecar does to the request it concerns, and how every request is answered. */
module SidecarAnswers {
  import opened Basics
  import opened SidecarSlot

  /** A request with that ID has not finished yet. */
  predicate Underway(s: Runtime, id: OperationId) {
    exists k :: 0 <= k < |s.requests| && s.requests[k].operationId == id && !s.requests[k].pc.Finished?
  }

  /** A kernel has the slot or has not given it back yet. */
  predicate SlotTaken(s: Runtime) {
    exists k :: 0 <= k < |s.requests| && Holds(s.requests[k])
  }

  lemma TableIsUnderway(s: Runtime, id: OperationId)
    requires Inv(s)
    ensures id in s.table <==> Underway(s, id)
  {
    hide RequestFits, SlotFits;
    if id in s.table {
      assert s.requests[s.table[id]].operationId == id;
    }
  }

  lemma SlotIsTaken(s: Runtime)
    requires Inv(s)
    ensures s.slots == (if SlotTaken(s) then 0 else 1)
  {
    hide RequestFits, TableFits, Holds;
  }

  /** Only this request changes, and it keeps its ID. */
  predicate OnlyChanges(s: Runtime, s': Runtime, i: nat) {
    && i < |s.requests| == |s'.requests| && s'.requests == s.requests[i := s'.requests[i]]
    && s'.requests[i].operationId == s.requests[i].operationId
  }

  // ---------------------------------------------------------------- arriving

  /** A request is taken in exactly when its identity is the sidecar's and no other of its ID is underway. */
  lemma ArrivalIsAnswered(es: seq<Event>, id: OperationId, identityOk: bool)
    ensures var s := Run(es); var s' := Step(s, Arrive(id, identityOk));
            && |s'.requests| == |s.requests| + 1 && s'.requests[..|s.requests|] == s.requests && s'.slots == s.slots
            && var r := s'.requests[|s.requests|];
               && r.operationId == id && r.kernel.NotStarted? && r.bufferCleared == !identityOk
               && (!identityOk ==> r.pc.Finished? && r.reply.IdentityMismatch?)
               && (identityOk && Underway(s, id) ==> r.pc.Finished? && r.reply.OperationRejected?)
               && (identityOk && !Underway(s, id) ==> r.pc.WaitingForSlot? && r.reply.NoReply? && !r.cancelSet)
  {
    RunKeepsInv(es);
    hide Run, Underway, Inv;
    TableIsUnderway(Run(es), id);
  }

  // ---------------------------------------------------------------- the slot

  /**
   A waiting request that finds the slot free starts its kernel, unless it was cancelled while waiting; if its time is
   over by then, it is answered at once and its kernel runs on. With the slot taken nothing happens.
   */
  lemma SlotIsGiven(es: seq<Event>, i: nat, expired: bool)
    requires i < |Run(es).requests| && Run(es).requests[i].pc.WaitingForSlot?
    ensures var s := Run(es); var s' := Step(s, AcquireSlot(i, expired));
            if SlotTaken(s) then s' == s
            else
              && OnlyChanges(s, s', i)
              && var r := s'.requests[i];
                 if s.requests[i].cancelSet then
                   r.pc.Finished? && r.reply.Cancelled? && r.kernel.NotStarted? && r.bufferCleared && !SlotTaken(s')
                 else
                   && r.kernel.Running? && SlotTaken(s') && !r.bufferCleared
                   && (if expired then r.pc.Detached? && r.reply.OcrFailed? && r.cancelSet
                       else r.pc.Inferring? && r.reply.NoReply? && !r.cancelSet)
  {
    RunKeepsInv(es);
    var s := Run(es);
    var s' := Step(s, AcquireSlot(i, expired));
    AcquireKeeps(s, i, expired);
    SlotIsTaken(s);
    SlotIsTaken(s');
    RequestsFit(s, i);
    hide Run, SlotTaken, Inv;
  }

  lemma RequestsFit(s: Runtime, i: nat)
    requires Inv(s) && i < |s.requests|
    ensures RequestFits(s.requests[i])
  {
  }

  // ---------------------------------------------------------------- ending

  /** A kernel that ended is answered by its waiting caller: an error, a cancellation that came meanwhile, or the result. */
  lemma KernelEndIsAnswered(es: seq<Event>, i: nat)
    requires i < |Run(es).requests| && Run(es).requests[i].pc.Inferring? && Run(es).requests[i].kernel.Exited?
    ensures var s := Run(es); var s' := Step(s, Resume(i));
            && OnlyChanges(s, s', i) && s'.requests[i].pc.Finished? && s'.requests[i].bufferCleared && !SlotTaken(s')
            && s'.requests[i].reply == (if !s.requests[i].kernel.ok then Raised else if s.requests[i].cancelSet then Cancelled else Result)
  {
    RunKeepsInv(es);
    var s := Run(es);
    StepKeeps(s, Resume(i));
    SlotIsTaken(Step(s, Resume(i)));
    SlotIsTaken(s);
    hide Run, Inv;
  }

  /** A detached kernel that ended gives the slot back and leaves the answer as it was given. */
  lemma DetachedEndGivesBack(es: seq<Event>, i: nat)
    requires i < |Run(es).requests| && Run(es).requests[i].pc.Detached? && Run(es).requests[i].kernel.Exited?
    ensures var s := Run(es); var s' := Step(s, DetachedCallback(i));
            && OnlyChanges(s, s', i) && s'.requests[i].pc.Finished? && s'.requests[i].bufferCleared && !SlotTaken(s')
            && s'.requests[i].reply == s.requests[i].reply && !Underway(s', s.requests[i].operationId)
  {
    RunKeepsInv(es);
    var s := Run(es);
    var s' := Step(s, DetachedCallback(i));
    StepKeeps(s, DetachedCallback(i));
    SlotIsTaken(s');
    SlotIsTaken(s);
    TableIsUnderway(s', s.requests[i].operationId);
    TableHasIt(s, i);
    hide Run, Inv, Underway, SlotTaken;
  }

  lemma TableHasIt(s: Runtime, i: nat)
    requires Inv(s) && i < |s.requests| && !s.requests[i].pc.Finished?
    ensures s.requests[i].operationId in s.table && s.table[s.requests[i].operationId] == i
  {
    hide RequestFits, SlotFits;
  }

  /**
   A timeout or a lost caller ends a waiting request; one whose kernel runs is answered and detached, and keeps slot,
   buffer and ID until the kernel ends.
   */
  lemma GivingUp(es: seq<Event>, i: nat, gone: bool)
    requires i < |Run(es).requests|
    ensures var s := Run(es); var s' := Step(s, if gone then CallerGone(i) else TimeOut(i));
            var r, r' := s.requests[i], s'.requests[i];
            && OnlyChanges(s, s', i)
            && (r.pc.WaitingForSlot? ==>
                  && r'.pc.Finished? && r'.reply == (if gone then Raised else OcrFailed) && r'.bufferCleared
                  && r'.kernel.NotStarted? && s'.slots == s.slots && !Underway(s', r.operationId))
            && (r.pc.Inferring? && (r.kernel.Running? || !gone) ==>
                  && r'.pc.Detached? && r'.reply == (if gone then Raised else OcrFailed) && r'.kernel == r.kernel
                  && r'.cancelSet && r'.bufferCleared == r.bufferCleared && s'.slots == s.slots && s'.table == s.table)
            && (r.pc.Inferring? && !r.kernel.Running? && gone ==>
                  r'.pc.Finished? && r'.reply.Raised? && r'.bufferCleared && !SlotTaken(s'))
            && (r.pc.Detached? || r.pc.Finished? ==> s' == s)
  {
    RunKeepsInv(es);
    var s := Run(es);
    var e := if gone then CallerGone(i) else TimeOut(i);
    var s' := Step(s, e);
    StepKeeps(s, e);
    SlotIsTaken(s');
    SlotIsTaken(s);
    TableIsUnderway(s', s.requests[i].operationId);
    if !s.requests[i].pc.Finished? { TableHasIt(s, i); }
    RequestsFit(s, i);
    hide Run, Inv, Underway, SlotTaken;
  }

  /** A cancellation marks exactly the request of that ID that is underway, and nothing else happens. */
  lemma CancellationMarks(es: seq<Event>, id: OperationId)
    ensures var s := Run(es); var s' := Step(s, CancelOperation(id));
            && s'.slots == s.slots && s'.table == s.table && |s'.requests| == |s.requests|
            && forall k :: 0 <= k < |s.requests| ==>
                 s'.requests[k] == if s.requests[k].operationId == id && !s.requests[k].pc.Finished?
                                   then s.requests[k].(cancelSet := true) else s.requests[k]
  {
    RunKeepsInv(es);
    hide Run, RequestFits, SlotFits;
  }

  /** A kernel ends once, and then shows how; every other event of a finished or unknown request does nothing. */
  lemma KernelEndsOnce(es: seq<Event>, i: nat, ok: bool)
    ensures var s := Run(es); var s' := Step(s, KernelExits(i, ok));
            if i < |s.requests| && s.requests[i].kernel.Running? then
              s' == s.(requests := s.requests[i := s.requests[i].(kernel := Exited(ok))])
            else s' == s
  {
  }
}
