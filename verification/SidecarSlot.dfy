/**
 The OCR sidecar's single inference slot. A kernel cannot be interrupted, so a request that times out or is
 cancelled leaves its kernel behind and a callback gives the slot back when the kernel really exits.
 Requests interleave freely at their awaits; `kernelOk` and `expired` are the environment's answers.
 */
module SidecarSlot {
  import opened Basics

  type OperationId = nat

  // ---------------------------------------------------------------- the operation table

  class CancellationEvent {
    var isSet: bool

    constructor ()
      ensures !isSet
    {
      isSet := false;
    }
  }

  class OperationTable {
    var cancellations: map<OperationId, CancellationEvent>

    constructor ()
      ensures cancellations == map[]
    {
      cancellations := map[];
    }

    /** Register an operation under a new event, unless its ID is still registered. */
    method Register(id: OperationId) returns (event: Option<CancellationEvent>)
      modifies this
      ensures event.Some? <==> id !in old(cancellations)
      ensures event.Some? ==> fresh(event.value) && !event.value.isSet
      ensures cancellations == if event.Some? then old(cancellations)[id := event.value] else old(cancellations)
    {
      if id in cancellations {
        return None;
      }
      var cancellation := new CancellationEvent();
      cancellations := cancellations[id := cancellation];
      return Some(cancellation);
    }

    method Cancel(id: OperationId)
      modifies cancellations.Values
      ensures id in cancellations ==> cancellations[id].isSet
      ensures forall e :: e in cancellations.Values && (id !in cancellations || e != cancellations[id]) ==>
                e.isSet == old(e.isSet)
    {
      if id in cancellations {
        assert cancellations[id] in cancellations.Values;
        cancellations[id].isSet := true;
      }
    }

    /** Only the very event that was registered can release its ID. */
    method Release(id: OperationId, event: CancellationEvent)
      modifies this
      ensures cancellations == if id in old(cancellations) && old(cancellations)[id] == event then old(cancellations) - {id}
                               else old(cancellations)
    {
      if id in cancellations && cancellations[id] == event {
        cancellations := cancellations - {id};
      }
    }
  }

  // ---------------------------------------------------------------- the protocol

  /** Where a request is; a detached one has answered its caller while its kernel runs on. */
  datatype Pc = WaitingForSlot | Inferring | Detached | Finished

  datatype Kernel = NotStarted | Running | Exited(ok: bool)

  datatype Reply = NoReply | IdentityMismatch | OperationRejected | Cancelled | OcrFailed | Result | Raised

  /** `acquired` and `released` count this request's operations on the slot. */
  datatype Request = Request(
    operationId: OperationId, pc: Pc, kernel: Kernel, cancelSet: bool, bufferCleared: bool, reply: Reply,
    acquired: nat, released: nat)

  /** `table` sends a registered operation ID to the request whose event it holds; `slots` is the semaphore. */
  datatype Runtime = Runtime(table: map<OperationId, nat>, slots: nat, requests: seq<Request>)

  const IDLE_RUNTIME := Runtime(map[], 1, [])

  datatype Event =
    | Arrive(operationId: OperationId, identityOk: bool)
    | CancelOperation(operationId: OperationId)
    | AcquireSlot(request: nat, expired: bool)
    | TimeOut(request: nat)
    | CallerGone(request: nat)
    | KernelExits(request: nat, ok: bool)
    | Resume(request: nat)
    | DetachedCallback(request: nat)

  function Update(s: Runtime, i: nat, r: Request): Runtime
    requires i < |s.requests|
  {
    s.(requests := s.requests[i := r])
  }

  /** Leave through the final clause: clear the buffer, release the ID, and the slot if it is still held. */
  function Finish(s: Runtime, i: nat, reply: Reply): Runtime
    requires i < |s.requests|
  {
    var r := s.requests[i];
    var holds := r.pc.Inferring? || r.pc.Detached?;
    var table := if r.operationId in s.table && s.table[r.operationId] == i then s.table - {r.operationId} else s.table;
    Update(s, i, r.(pc := Finished, bufferCleared := true, reply := if r.pc.Detached? then r.reply else reply,
                    released := if holds then r.released + 1 else r.released)).(
      table := table, slots := if holds then s.slots + 1 else s.slots)
  }

  /** Answer the caller but leave kernel, ID, buffer and slot to the callback. */
  function Detach(s: Runtime, i: nat, reply: Reply): Runtime
    requires i < |s.requests|
  {
    Update(s, i, s.requests[i].(pc := Detached, cancelSet := true, reply := reply))
  }

  function StepArrive(s: Runtime, id: OperationId, identityOk: bool): Runtime {
    var i := |s.requests|;
    var new_ := Request(id, WaitingForSlot, NotStarted, false, false, NoReply, 0, 0);
    if !identityOk then
      s.(requests := s.requests + [new_.(pc := Finished, bufferCleared := true, reply := IdentityMismatch)])
    else if id in s.table then
      s.(requests := s.requests + [new_.(pc := Finished, reply := OperationRejected)])
    else s.(requests := s.requests + [new_], table := s.table[id := i])
  }

  function StepAcquire(s: Runtime, i: nat, expired: bool): Runtime
    requires i < |s.requests|
  {
    var r := s.requests[i];
    if !r.pc.WaitingForSlot? || s.slots == 0 then s
    else
      var taken := Update(s, i, r.(pc := Inferring, acquired := r.acquired + 1)).(slots := s.slots - 1);
      if r.cancelSet then Finish(taken, i, Cancelled)
      else
        var started := Update(taken, i, taken.requests[i].(kernel := Running));
        if expired then Detach(started, i, OcrFailed) else started
  }

  function Step(s: Runtime, e: Event): Runtime {
    match e
    case Arrive(id, identityOk) => StepArrive(s, id, identityOk)
    case CancelOperation(id) =>
      if id in s.table && s.table[id] < |s.requests| then
        Update(s, s.table[id], s.requests[s.table[id]].(cancelSet := true))
      else s
    case AcquireSlot(i, expired) => if i < |s.requests| then StepAcquire(s, i, expired) else s
    case TimeOut(i) =>
      if i >= |s.requests| then s
      else if s.requests[i].pc.WaitingForSlot? then Finish(Update(s, i, s.requests[i].(cancelSet := true)), i, OcrFailed)
      else if s.requests[i].pc.Inferring? then Detach(s, i, OcrFailed)
      else s
    case CallerGone(i) =>
      if i >= |s.requests| then s
      else if s.requests[i].pc.WaitingForSlot? then Finish(Update(s, i, s.requests[i].(cancelSet := true)), i, Raised)
      else if s.requests[i].pc.Inferring? then
        if s.requests[i].kernel.Running? then Detach(s, i, Raised)
        else Finish(Update(s, i, s.requests[i].(cancelSet := true)), i, Raised)
      else s
    case KernelExits(i, ok) =>
      if i < |s.requests| && s.requests[i].kernel.Running? then Update(s, i, s.requests[i].(kernel := Exited(ok))) else s
    case Resume(i) =>
      if i < |s.requests| && s.requests[i].pc.Inferring? && s.requests[i].kernel.Exited? then
        Finish(s, i, if !s.requests[i].kernel.ok then Raised else if s.requests[i].cancelSet then Cancelled else Result)
      else s
    case DetachedCallback(i) =>
      if i < |s.requests| && s.requests[i].pc.Detached? && s.requests[i].kernel.Exited? then Finish(s, i, NoReply) else s
  }

  function Run(es: seq<Event>): Runtime {
    if es == [] then IDLE_RUNTIME else Step(Run(es[..|es| - 1]), es[|es| - 1])
  }

  // ---------------------------------------------------------------- the invariant

  predicate Holds(r: Request) {
    r.pc.Inferring? || r.pc.Detached?
  }

  predicate RequestFits(r: Request) {
    && (r.kernel.Running? ==> Holds(r))
    && (Holds(r) ==> !r.kernel.NotStarted?)
    && (r.bufferCleared ==> r.pc.Finished?)
    && r.acquired == (if Holds(r) then r.released + 1 else r.released) && r.acquired <= 1
    && (r.pc.WaitingForSlot? ==> r.acquired == 0 && r.kernel.NotStarted?)
    && (r.pc.Detached? ==> r.cancelSet && !r.reply.Result?)
    && (r.reply.Result? ==> r.pc.Finished? && !r.cancelSet && r.kernel == Exited(true))
    && (r.pc.WaitingForSlot? || r.pc.Inferring? ==> r.reply.NoReply?)
  }

  predicate SlotFits(s: Runtime) {
    && s.slots <= 1
    && (forall i, j :: 0 <= i < |s.requests| && 0 <= j < |s.requests| && Holds(s.requests[i]) && Holds(s.requests[j]) ==> i == j)
    && (s.slots == 1 ==> forall i :: 0 <= i < |s.requests| ==> !Holds(s.requests[i]))
    && (s.slots == 0 ==> exists i :: 0 <= i < |s.requests| && Holds(s.requests[i]))
  }

  /** The registered IDs are exactly those of the requests that are not finished. */
  predicate TableFits(s: Runtime) {
    && (forall id :: id in s.table ==>
          s.table[id] < |s.requests| && s.requests[s.table[id]].operationId == id && !s.requests[s.table[id]].pc.Finished?)
    && (forall i :: 0 <= i < |s.requests| && !s.requests[i].pc.Finished? ==>
          s.requests[i].operationId in s.table && s.table[s.requests[i].operationId] == i)
  }

  predicate Inv(s: Runtime) {
    (forall i :: 0 <= i < |s.requests| ==> RequestFits(s.requests[i])) && SlotFits(s) && TableFits(s)
  }

  /** A request moved without touching slot or table. */
  lemma UpdateKeeps(s: Runtime, i: nat, r: Request)
    requires Inv(s) && i < |s.requests| && RequestFits(r)
    requires r.operationId == s.requests[i].operationId && Holds(r) == Holds(s.requests[i])
    requires r.pc.Finished? == s.requests[i].pc.Finished?
    ensures Inv(Update(s, i, r))
  {
    hide RequestFits, Holds, SlotFits, TableFits;
    UpdateKeepsSlot(s, i, r);
    UpdateKeepsTable(s, i, r);
  }

  lemma UpdateKeepsSlot(s: Runtime, i: nat, r: Request)
    requires SlotFits(s) && i < |s.requests| && Holds(r) == Holds(s.requests[i])
    ensures SlotFits(Update(s, i, r))
  {
    hide Holds;
    if s.slots == 0 {
      var k :| 0 <= k < |s.requests| && Holds(s.requests[k]);
      assert Holds(Update(s, i, r).requests[k]);
    }
  }

  lemma UpdateKeepsTable(s: Runtime, i: nat, r: Request)
    requires TableFits(s) && i < |s.requests| && r.operationId == s.requests[i].operationId
    requires r.pc.Finished? == s.requests[i].pc.Finished?
    ensures TableFits(Update(s, i, r))
  {
  }

  lemma FinishKeeps(s: Runtime, i: nat, reply: Reply)
    requires Inv(s) && i < |s.requests| && !s.requests[i].pc.Finished?
    requires s.requests[i].kernel.Running? ==> false
    requires reply.Result? && !s.requests[i].pc.Detached? ==> !s.requests[i].cancelSet && s.requests[i].kernel == Exited(true)
    ensures Inv(Finish(s, i, reply))
  {
    var s' := Finish(s, i, reply);
    assert RequestFits(s.requests[i]) && RequestFits(s'.requests[i]);
    if s'.slots == 0 {
      var k :| 0 <= k < |s.requests| && Holds(s.requests[k]);
      assert Holds(s'.requests[k]);
    }
  }

  function Started(s: Runtime, i: nat): Runtime
    requires i < |s.requests| && s.slots > 0
  {
    var r := s.requests[i];
    Update(s, i, r.(pc := Inferring, acquired := r.acquired + 1, kernel := Running)).(slots := s.slots - 1)
  }

  /** The kernel runs in the slot just taken. */
  lemma StartedKeeps(s: Runtime, i: nat)
    requires Inv(s) && i < |s.requests| && s.requests[i].pc.WaitingForSlot? && s.slots > 0
    ensures Inv(Started(s, i)) && RequestFits(Started(s, i).requests[i]) && Holds(Started(s, i).requests[i])
  {
    assert RequestFits(s.requests[i]);
    assert Holds(Started(s, i).requests[i]) && RequestFits(Started(s, i).requests[i]);
  }

  lemma AcquireKeeps(s: Runtime, i: nat, expired: bool)
    requires Inv(s) && i < |s.requests|
    ensures Inv(StepAcquire(s, i, expired))
  {
    var r := s.requests[i];
    if r.pc.WaitingForSlot? && s.slots > 0 {
      if r.cancelSet {
        AcquireThenFinish(s, i);
      } else {
        StartedKeeps(s, i);
        var started := Started(s, i);
        var taken := Update(s, i, r.(pc := Inferring, acquired := r.acquired + 1)).(slots := s.slots - 1);
        assert Update(taken, i, taken.requests[i].(kernel := Running)) == started;
        hide Inv;
        if expired {
          UpdateKeeps(started, i, started.requests[i].(pc := Detached, cancelSet := true, reply := OcrFailed));
        }
      }
    }
  }

  /** Taking the slot and giving it straight back before any kernel starts. */
  lemma AcquireThenFinish(s: Runtime, i: nat)
    requires Inv(s) && i < |s.requests| && s.requests[i].pc.WaitingForSlot? && s.slots > 0
    ensures var r := s.requests[i];
            Inv(Finish(Update(s, i, r.(pc := Inferring, acquired := r.acquired + 1)).(slots := s.slots - 1), i, Cancelled))
  {
    assert RequestFits(s.requests[i]);
    FinishKeeps(s, i, Cancelled);
    var r := s.requests[i];
    var s' := Finish(Update(s, i, r.(pc := Inferring, acquired := r.acquired + 1)).(slots := s.slots - 1), i, Cancelled);
    var f := Finish(s, i, Cancelled);
    assert s'.requests == f.requests[i := s'.requests[i]];
    UpdateKeeps(f, i, s'.requests[i]);
  }

  lemma AppendKeepsSlot(s: Runtime, r: Request)
    requires SlotFits(s) && !Holds(r)
    ensures SlotFits(s.(requests := s.requests + [r]))
  {
    var s' := s.(requests := s.requests + [r]);
    if s.slots == 0 {
      var k :| 0 <= k < |s.requests| && Holds(s.requests[k]);
      assert Holds(s'.requests[k]);
    }
  }

  lemma ArriveKeepsTable(s: Runtime, id: OperationId, identityOk: bool)
    requires TableFits(s)
    ensures TableFits(StepArrive(s, id, identityOk))
  {
  }

  lemma ArriveAppends(s: Runtime, id: OperationId, identityOk: bool)
    ensures var s' := StepArrive(s, id, identityOk);
            && s'.requests == s.requests + [s'.requests[|s.requests|]] && s'.slots == s.slots
            && (SlotFits(s.(requests := s'.requests)) ==> SlotFits(s'))
  {
    hide Holds;
  }

  lemma ArriveKeeps(s: Runtime, id: OperationId, identityOk: bool)
    requires Inv(s)
    ensures Inv(StepArrive(s, id, identityOk))
  {
    hide SlotFits, TableFits;
    ArriveKeepsTable(s, id, identityOk);
    var r := StepArrive(s, id, identityOk).requests[|s.requests|];
    assert RequestFits(r) && !Holds(r);
    AppendKeepsSlot(s, r);
    ArriveAppends(s, id, identityOk);
    hide StepArrive, RequestFits, Holds;
  }

  lemma StepKeeps(s: Runtime, e: Event)
    requires Inv(s)
    ensures Inv(Step(s, e))
  {
    hide SlotFits;
    match e
    case Arrive(id, identityOk) => ArriveKeeps(s, id, identityOk);
    case CancelOperation(id) =>
      if id in s.table {
        UpdateKeeps(s, s.table[id], s.requests[s.table[id]].(cancelSet := true));
      }
    case AcquireSlot(i, expired) => if i < |s.requests| { AcquireKeeps(s, i, expired); }
    case TimeOut(i) =>
      if i < |s.requests| {
        MovesKeep(s, i, OcrFailed);
      }
    case CallerGone(i) =>
      if i < |s.requests| {
        MovesKeep(s, i, Raised);
      }
    case KernelExits(i, ok) =>
      if i < |s.requests| && s.requests[i].kernel.Running? {
        UpdateKeeps(s, i, s.requests[i].(kernel := Exited(ok)));
      }
    case Resume(i) =>
      if i < |s.requests| && s.requests[i].pc.Inferring? && s.requests[i].kernel.Exited? {
        FinishKeeps(s, i, if !s.requests[i].kernel.ok then Raised else if s.requests[i].cancelSet then Cancelled else Result);
      }
    case DetachedCallback(i) =>
      if i < |s.requests| && s.requests[i].pc.Detached? && s.requests[i].kernel.Exited? {
        FinishKeeps(s, i, NoReply);
      }
  }

  /** The two ways a request ends early: finished at once, or detached from its kernel. */
  lemma MovesKeep(s: Runtime, i: nat, reply: Reply)
    requires Inv(s) && i < |s.requests| && !reply.Result? && !reply.NoReply?
    ensures var cancelled := Update(s, i, s.requests[i].(cancelSet := true));
            && (!s.requests[i].pc.Finished? && !s.requests[i].kernel.Running? ==> Inv(Finish(cancelled, i, reply)))
            && (s.requests[i].pc.Inferring? ==> Inv(Detach(s, i, reply)))
            && (s.requests[i].pc.WaitingForSlot? ==> !s.requests[i].kernel.Running?)
  {
    var r := s.requests[i];
    assert RequestFits(r);
    if !r.pc.Finished? {
      UpdateKeeps(s, i, r.(cancelSet := true));
      if !r.kernel.Running? {
        FinishKeeps(Update(s, i, r.(cancelSet := true)), i, reply);
      }
      if r.pc.Inferring? {
        UpdateKeeps(s, i, r.(pc := Detached, cancelSet := true, reply := reply));
      }
    }
  }

  lemma {:induction false} RunKeepsInv(es: seq<Event>)
    ensures Inv(Run(es))
  {
    if es != [] {
      RunKeepsInv(es[..|es| - 1]);
      StepKeeps(Run(es[..|es| - 1]), es[|es| - 1]);
    }
  }

  // ---------------------------------------------------------------- the promises

  /** At most one kernel runs, and the slot is taken while it does. */
  lemma AtMostOneInference(es: seq<Event>, i: nat, j: nat)
    requires var rs := Run(es).requests; i < |rs| && j < |rs| && rs[i].kernel.Running? && rs[j].kernel.Running?
    ensures i == j && Run(es).slots == 0
  {
    RunKeepsInv(es);
    assert RequestFits(Run(es).requests[i]) && RequestFits(Run(es).requests[j]);
  }

  /** Each request takes the slot at most once and has given it back exactly as often once it is finished. */
  lemma SlotReleasedOncePerAcquire(es: seq<Event>, i: nat)
    requires i < |Run(es).requests|
    ensures var r := Run(es).requests[i];
            r.acquired <= 1 && r.released == if r.pc.Inferring? || r.pc.Detached? then 0 else r.acquired
  {
    RunKeepsInv(es);
    assert RequestFits(Run(es).requests[i]);
  }

  /** While a kernel runs its operation ID is registered to it, its buffer is intact, and the ID cannot be reused. */
  lemma RegisteredUntilKernelExits(es: seq<Event>, i: nat)
    requires i < |Run(es).requests| && Run(es).requests[i].kernel.Running?
    ensures var (s, r) := (Run(es), Run(es).requests[i]);
            && r.operationId in s.table && s.table[r.operationId] == i && !r.bufferCleared
            && Step(s, Arrive(r.operationId, true)).table == s.table
            && Step(s, Arrive(r.operationId, true)).requests[|s.requests|].reply == OperationRejected
  {
    RunKeepsInv(es);
    assert RequestFits(Run(es).requests[i]);
  }

  /** When every request is finished the slot is free and no ID is left registered. */
  lemma NothingLeaks(es: seq<Event>)
    requires forall i :: 0 <= i < |Run(es).requests| ==> Run(es).requests[i].pc.Finished?
    ensures Run(es).slots == 1 && Run(es).table == map[]
  {
    RunKeepsInv(es);
  }

  /** A result is delivered only by a kernel that succeeded and only if no cancellation came first. */
  lemma ResultsAreUncancelled(es: seq<Event>, i: nat)
    requires i < |Run(es).requests| && Run(es).requests[i].reply == Result
    ensures !Run(es).requests[i].cancelSet && Run(es).requests[i].kernel == Exited(true)
  {
    RunKeepsInv(es);
    assert RequestFits(Run(es).requests[i]);
  }
}
