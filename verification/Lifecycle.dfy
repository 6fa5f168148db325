/**
 The capture lifecycle as a step system. BEGIN and END are coroutines with a program counter; each
 step is one stretch of a coroutine without an await, and steps of any coroutines interleave freely.
 What the session work controller, the evidence store and the callbacks answer is a choice carried by
 the event, so a statement about all runs covers every answer.
 */
module Lifecycle {
  import opened Basics
  import opened Isolation

  datatype CaptureState =
    | Idle | Entering | Quiescing | Armed | Capturing | BuildingAssertions | Ready | Ending | FailedClosed

  predicate IsLive(c: CaptureState) {
    (c.Armed? || c.Capturing? || c.BuildingAssertions? || c.Ready?)
  }

  /** A published epoch together with the generation its BEGIN claimed from. */
  datatype Publication = Publication(epoch: Epoch, origin: nat)

  datatype Kind = Begin | End

  /**
   Where a transition coroutine is suspended. From BeforeRetirement to Verified it holds the
   operation lock; Exited coroutines have returned or raised.
   */
  datatype Pc = Claimed | BeforeRetirement | Retiring | Retired | Quiesced | Cleaning | Verified | Exited

  predicate InLock(pc: Pc) {
    (pc.BeforeRetirement? || pc.Retiring? || pc.Retired? || pc.Quiesced? || pc.Cleaning? || pc.Verified?)
  }

  predicate HasRetired(pc: Pc) {
    (pc.Retired? || pc.Quiesced? || pc.Cleaning? || pc.Verified?)
  }

  /**
   A transition record. `candidates` are the generations an END accepts when it binds,
   `fence` is the generation its own retirement retired. `claimedFrom` and `canBind` record the state
   at the claim and whether those candidates covered every generation it could meet at its bind.
   */
  datatype Transition = Transition(
    kind: Kind,
    captureSeq: nat,
    claimedFrom: CaptureState,
    canBind: bool,
    candidates: seq<nat>,
    origin: Option<nat>,
    target: Option<nat>,
    fence: Option<nat>,
    drained: bool,
    pc: Pc)

  datatype Holder = Free | ByTransition(id: nat) | BySeal

  /** What a capture leaves behind in the coordinator and in the evidence store. */
  datatype Evidence = Evidence(
    capability: bool,
    permits: nat,
    frameRecords: nat,
    profile: bool,
    workers: bool,
    cleanupToken: bool,
    partition: bool)

  const NO_EVIDENCE := Evidence(false, 0, 0, false, false, false, false)

  datatype State = State(
    state: CaptureState,
    active: Option<nat>,
    epoch: Option<Epoch>,
    captureSeq: nat,
    generation: nat,
    retiring: bool,
    gate: Gate,
    quiescenceComplete: bool,
    fatal: bool,
    lock: Holder,
    transitions: seq<Transition>,
    evidence: Evidence,
    published: seq<Publication>)

  function InitialState(generation: nat): State {
    State(Idle, None, None, 0, generation, false, INITIAL_GATE, false, false, Free, [], NO_EVIDENCE, [])
  }

  // ---------------------------------------------------------------- environment answers

  /** The session authority runs a callback, refuses to, or runs it and then reports the session dead. */
  datatype SessionLive = Ran | NotRun | RanThenReportedDead

  /** How the pieces of a fail-closed erasure go. */
  datatype Erasure = Erasure(admissionCloses: bool, retires: bool, destroys: bool, acknowledges: bool)

  datatype RetireOutcome = RetireSucceeds | RetireFails | RetiresThenFails

  /** What happens between reopening the gate and publishing IDLE. */
  datatype ResumeOutcome = Resumes | ClosesAgain | RaisesWhileOpen

  datatype ActivationOutcome = Activates | FailsBeforePartition | RollsBack(erased: bool) | FailsAfterCommit

  datatype SealOutcome = NeedsRecapture | BuildStarts | BuildUnfenced

  datatype Event =
    | BeginCall(live: SessionLive, preconditions: bool, controllerUsable: bool, er: Erasure)
    | EndCall(live: SessionLive, epochArg: Option<Epoch>, seqArg: Option<nat>, releaseBinds: bool, admissionCloses: bool, er: Erasure)
    | Acquire(id: nat, registers: bool, er: Erasure)
    | StartRetirement(id: nat, er: Erasure)
    | Retire(id: nat, outcome: RetireOutcome, er: Erasure)
    | PublishQuiescing(id: nat, er: Erasure)
    | Drain(id: nat, drains: bool, destroys: bool, acknowledges: bool, er: Erasure)
    | CleanupDone(id: nat, complete: bool, er: Erasure)
    | PublishArmed(id: nat, live: SessionLive, admitted: bool, er: Erasure)
    | PublishResumed(id: nat, live: SessionLive, admitted: bool, resume: ResumeOutcome, er: Erasure)
    | Cancel(id: nat, er: Erasure)
    | RuntimeFailure(er: Erasure)
    | Activate(activation: ActivationOutcome, er: Erasure)
    | AdmitUpload
    | ReleasePermit
    | CommitFrame(commits: bool)
    | SealCall(seal: SealOutcome, er: Erasure)
    | SealReturns(processorStarted: bool, er: Erasure)
    | ProcessorFinishes

  // ---------------------------------------------------------------- shared stretches

  /** A waiting coroutine either stays as it was claimed or leaves that point for good. */
  predicate Waits(t: Transition, t': Transition) {
    t'.kind == t.kind && (t'.pc == Claimed ==> t' == t)
  }

  /** Coroutine `id` moved: no other transition changed, and none became active. */
  predicate Moved(s: State, s': State, id: nat) {
    && id < |s.transitions| && |s'.transitions| == |s.transitions|
    && s'.transitions == s.transitions[id := s'.transitions[id]]
    && Waits(s.transitions[id], s'.transitions[id])
    && s'.generation >= s.generation
    && (s'.active == s.active || s'.active == None)
  }

  function SetTransition(s: State, id: nat, t: Transition): State
    requires id < |s.transitions|
  {
    s.(transitions := s.transitions[id := t])
  }

  /** Leave the coroutine: the operation lock is released if this coroutine holds it. */
  function Leave(s: State, id: nat): (s': State)
    requires id < |s.transitions|
    ensures Moved(s, s', id) && s'.transitions[id].pc == Exited
  {
    var t := s.transitions[id];
    SetTransition(s, id, t.(pc := Exited)).(
      lock := if s.lock == ByTransition(id) then Free else s.lock,
      retiring := if t.pc == Retiring then false else s.retiring)
  }

  /** Nothing of the evidence is new. */
  predicate Shrinks(e: Evidence, e': Evidence) {
    && e'.permits <= e.permits && e'.frameRecords <= e.frameRecords && (e'.capability ==> e.capability)
    && (e'.profile ==> e.profile) && (e'.workers ==> e.workers) && (e'.cleanupToken ==> e.cleanupToken)
    && (e'.partition ==> e.partition)
  }

  function ClearMetadata(e: Evidence): Evidence {
    e.(frameRecords := 0, profile := false)
  }

  /** Close store admission and detach the capture's workers before any destruction. */
  function PrepareEnd(e: Evidence, hasEpoch: bool, admissionCloses: bool): (r: (Evidence, bool))
    ensures Shrinks(e, r.0)
  {
    var e' := e.(capability := false, permits := 0);
    if hasEpoch && !admissionCloses then (e', false) else (e'.(workers := false), true)
  }

  /** Key-first erasure under the fence of one retired generation. */
  function DestroyUnderFence(e: Evidence, epoch: Option<Epoch>, fence: nat, destroys: bool, acknowledges: bool)
    : (r: (Evidence, bool))
    ensures Shrinks(e, r.0) && (e.partition && !r.0.partition ==> destroys && epoch.Some? && fence == epoch.value.generation)
  {
    if epoch.None? then (e, !e.cleanupToken && !e.partition)
    else if fence != epoch.value.generation then (e, false)
    else if e.partition && !destroys then (e, false)
    else
      var e' := ClearMetadata(e.(partition := false));
      if e'.cleanupToken && !acknowledges then (e', false) else (e'.(cleanupToken := false), true)
  }

  /** A partition is lost only when its destruction goes through under the fence of its own generation. */
  predicate LostUnderFence(s: State, s': State, fence: Option<nat>, destroys: bool) {
    s.evidence.partition && !s'.evidence.partition ==>
      && destroys && s.epoch.Some?
      && (if fence.Some? then fence.value == s.epoch.value.generation
          else s.generation == s.epoch.value.generation && s'.generation == s.generation + 1)
  }

  function FenceOf(s: State, id: Option<nat>): Option<nat> {
    if id.Some? && id.value < |s.transitions| then s.transitions[id.value].fence else None
  }

  /** After a failure: retire the failed generation if no fence exists yet, then erase under the fence. */
  function EraseFailed(s: State, fence: Option<nat>, er: Erasure): (s': State)
    ensures s' == s.(generation := s'.generation, evidence := s'.evidence) && s'.generation >= s.generation
    ensures Shrinks(s.evidence, s'.evidence) && LostUnderFence(s, s', fence, er.destroys)
    ensures s.retiring ==> s'.generation == s.generation
  {
    if s.epoch.None? then s
    else if !s.evidence.cleanupToken && !s.evidence.partition then
      s.(evidence := ClearMetadata(s.evidence))
    else if fence.Some? then
      s.(evidence := DestroyUnderFence(s.evidence, s.epoch, fence.value, er.destroys, er.acknowledges).0)
    else if s.retiring || !er.retires then s
    else
      s.(generation := s.generation + 1,
         evidence := DestroyUnderFence(s.evidence, s.epoch, s.generation, er.destroys, er.acknowledges).0)
  }

  /** Shut for good: marked fatal, no keepalive, no authority over the capture left. */
  predicate IsShut(s: State) {
    && s.state == FailedClosed && s.active.None? && s.fatal && !s.quiescenceComplete
    && !s.evidence.capability && s.evidence.permits == 0 && (s.gate.destroyed || (!s.gate.open && !s.gate.keepalive))
  }

  /** Fail closed on behalf of transition `id`, or unconditionally when there is none. */
  function EnterFailedClosed(s: State, id: Option<nat>, er: Erasure): (s': State)
    ensures s'.transitions == s.transitions && s'.epoch == s.epoch && s'.generation >= s.generation
    ensures Shrinks(s.evidence, s'.evidence) && LostUnderFence(s, s', FenceOf(s, id), er.destroys)
    ensures s'.retiring == s.retiring && (s.retiring ==> s'.generation == s.generation)
    ensures s' == s || (s'.state == FailedClosed && s'.active == None)
    ensures s' == s || IsShut(s')
    ensures id.Some? && s.active != id ==> s' == s
    ensures (id.Some? ==> s.active == id && id.value < |s.transitions|) ==> s'.state == FailedClosed && s'.active == None
  {
    if id.Some? && (s.active != id || id.value >= |s.transitions|) then s
    else
      var (evidence, prepared) := PrepareEnd(s.evidence, s.epoch.Some?, er.admissionCloses);
      var s' := s.(
        evidence := evidence,
        gate := Apply(Apply(s.gate, Close), DisableKeepalive),
        fatal := true,
        state := FailedClosed,
        active := None,
        quiescenceComplete := false);
      if prepared then EraseFailed(s', FenceOf(s, id), er) else s'
  }

  /** A coroutine that raises: fail closed if it is still the active one, then leave. */
  function FailTransition(s: State, id: nat, er: Erasure): (s': State)
    requires id < |s.transitions|
    ensures Moved(s, s', id) && Shrinks(s.evidence, s'.evidence) && (s'.state == s.state || s'.state == FailedClosed)
    ensures LostUnderFence(s, s', s.transitions[id].fence, er.destroys) && (s.active != Some(id) ==> s'.evidence == s.evidence)
    ensures s.retiring && s.transitions[id].pc != Retiring ==> s'.retiring && s'.generation == s.generation
    ensures IsShut(s') || s' == s.(transitions := s'.transitions, lock := s'.lock, retiring := s'.retiring)
  {
    Leave(EnterFailedClosed(s, Some(id), er), id)
  }

  // ---------------------------------------------------------------- steps

  function BeginClaim(s: State, live: SessionLive, preconditions: bool, controllerUsable: bool, er: Erasure): State {
    if !preconditions then EnterFailedClosed(s, None, er)
    else if s.state != Idle || s.active.Some? || s.epoch.Some? then s
    else if s.captureSeq >= UINT64_MAX || !controllerUsable then EnterFailedClosed(s, None, er)
    else if !Accepts(s.gate, Close) then s.(state := FailedClosed, fatal := true)
    else
      var t := Transition(Begin, s.captureSeq + 1, s.state, true, [s.generation], Some(s.generation),
                          Some(s.generation + 1), None, false,
                          if live == RanThenReportedDead then Exited else Claimed);
      s.(gate := Apply(s.gate, Close),
         captureSeq := s.captureSeq + 1,
         fatal := false,
         quiescenceComplete := false,
         active := Some(|s.transitions|),
         state := Entering,
         transitions := s.transitions + [t])
  }

  function StepBegin(s: State, live: SessionLive, preconditions: bool, controllerUsable: bool, er: Erasure): (s': State)
    ensures Advances(s, s')
  {
    if live == NotRun then EnterFailedClosed(s, None, er)
    else
      var s' := BeginClaim(s, live, preconditions, controllerUsable, er);
      if live == RanThenReportedDead then EnterFailedClosed(s', None, er) else s'
  }

  predicate EndRejected(s: State, epochArg: Option<Epoch>, seqArg: Option<nat>) {
    || s.state == Idle
    || s.state == Ending
    || (if s.epoch.Some? then
          epochArg != s.epoch || (seqArg.Some? && seqArg.value != s.epoch.value.captureSeq)
        else
          epochArg.Some? || seqArg != Some(s.captureSeq))
  }

  /** The generations an END accepts later: both sides of a BEGIN it overtakes. */
  function EndCandidates(s: State): seq<nat> {
    if s.active.Some? && s.active.value < |s.transitions|
       && s.transitions[s.active.value].kind == Begin
       && s.transitions[s.active.value].origin.Some? && s.transitions[s.active.value].target.Some? then
      var b := s.transitions[s.active.value];
      [b.origin.value, b.target.value]
    else if s.epoch.Some? then [s.epoch.value.generation]
    else [s.generation]
  }

  /** The candidates cover the generation now and, if a retirement is in flight, the one it will publish. */
  predicate CanBind(s: State) {
    && s.generation in EndCandidates(s)
    && (s.retiring ==> s.generation + 1 in EndCandidates(s))
  }

  /** What an END enters and closes when it is let through, and whether its preparation succeeded. */
  function ClaimEnd(s: State, releaseBinds: bool, admissionCloses: bool): (r: (State, bool))
    ensures Advances(s, r.0) && Shrinks(s.evidence, r.0.evidence)
  {
    var id := |s.transitions|;
    var t := Transition(End, s.captureSeq, s.state, CanBind(s), EndCandidates(s), None, None, None, false, Claimed);
    var s1 := s.(transitions := s.transitions + [t], active := Some(id), state := Ending, quiescenceComplete := false);
    var (evidence, prepared) := PrepareEnd(s1.evidence, s1.epoch.Some?, admissionCloses);
    (if releaseBinds then s1.(evidence := evidence) else s1, releaseBinds && prepared)
  }

  function StepEnd(s: State, live: SessionLive, epochArg: Option<Epoch>, seqArg: Option<nat>,
                   releaseBinds: bool, admissionCloses: bool, er: Erasure): (s': State)
    ensures Advances(s, s')
  {
    if EndRejected(s, epochArg, seqArg) then s
    else if live == NotRun then EnterFailedClosed(s, None, er)
    else
      var id, (claimed, prepared) := |s.transitions|, ClaimEnd(s, releaseBinds, admissionCloses);
      if live == RanThenReportedDead then Leave(EnterFailedClosed(claimed, None, er), id)
      else if prepared then claimed
      else FailTransition(claimed, id, er)
  }

  predicate IsActiveIn(s: State, id: nat, c: CaptureState) {
    s.active == Some(id) && s.state == c
  }

  function StepAcquire(s: State, id: nat, registers: bool, er: Erasure): (s': State)
    requires id < |s.transitions|
    ensures Moved(s, s', id)
  {
    var t := s.transitions[id];
    if t.pc != Claimed || s.lock != Free then s
    else if !IsActiveIn(s, id, if t.kind == Begin then Entering else Ending) then Leave(s, id)
    else if t.kind == End && s.generation !in t.candidates then FailTransition(s, id, er)
    else
      var bound := if t.kind == Begin then t
                   else t.(origin := Some(s.generation), target := Some(s.generation + 1));
      var s' := SetTransition(s, id, bound.(pc := BeforeRetirement)).(lock := ByTransition(id));
      if registers then s' else FailTransition(s', id, er)
  }

  function StepStartRetirement(s: State, id: nat, er: Erasure): (s': State)
    requires id < |s.transitions|
    ensures Moved(s, s', id)
  {
    var t := s.transitions[id];
    if t.pc != BeforeRetirement then s
    else if s.active != Some(id) then Leave(s, id)
    else if s.retiring || (t.kind == End && t.origin != Some(s.generation)) then FailTransition(s, id, er)
    else SetTransition(s, id, t.(pc := Retiring)).(retiring := true)
  }

  function StepRetire(s: State, id: nat, outcome: RetireOutcome, er: Erasure): (s': State)
    requires id < |s.transitions|
    ensures Moved(s, s', id)
  {
    var t := s.transitions[id];
    if t.pc != Retiring then s
    else
      var fence := if outcome == RetireSucceeds then Some(s.generation) else None;
      var s' := SetTransition(s, id, t.(pc := Retired, fence := fence)).(
        retiring := false,
        generation := if outcome == RetireFails then s.generation else s.generation + 1);
      if outcome == RetireSucceeds then s' else FailTransition(s', id, er)
  }

  /** The generation a transition's own retirement published. */
  function NewGeneration(t: Transition): nat {
    if t.fence.Some? then t.fence.value + 1 else 0
  }

  function StepPublishQuiescing(s: State, id: nat, er: Erasure): (s': State)
    requires id < |s.transitions|
    ensures Moved(s, s', id)
  {
    var t := s.transitions[id];
    if t.kind != Begin || t.pc != Retired then s
    else if !IsActiveIn(s, id, Entering) then SetTransition(s, id, t.(pc := Quiesced))
    else if t.target != Some(NewGeneration(t)) then FailTransition(s, id, er)
    else SetTransition(s, id, t.(pc := Quiesced)).(state := Quiescing)
  }

  function StepDrain(s: State, id: nat, drains: bool, destroys: bool, acknowledges: bool, er: Erasure): (s': State)
    requires id < |s.transitions|
    ensures Moved(s, s', id)
  {
    var t := s.transitions[id];
    if t.kind == Begin then
      if t.pc != Quiesced then s
      else SetTransition(s, id, t.(pc := Cleaning, drained := drains && acknowledges))
    else if t.pc != Retired then s
    else if s.active != Some(id) then Leave(s, id)
    else if s.state != Ending || t.fence.None? then FailTransition(s, id, er)
    else
      var (evidence, destroyed) :=
        DestroyUnderFence(s.evidence, s.epoch, t.fence.value, destroys, acknowledges);
      var s' := s.(evidence := evidence);
      if !destroyed then FailTransition(s', id, er)
      else SetTransition(s', id, t.(pc := Cleaning, drained := drains && acknowledges))
  }

  function StepCleanupDone(s: State, id: nat, complete: bool, er: Erasure): (s': State)
    requires id < |s.transitions|
    ensures Moved(s, s', id)
  {
    var t := s.transitions[id];
    if t.pc != Cleaning then s
    else if !complete || !t.drained then FailTransition(s, id, er)
    else if t.kind == Begin then
      if !IsActiveIn(s, id, Quiescing) then Leave(s, id)
      else SetTransition(s, id, t.(pc := Verified)).(quiescenceComplete := true)
    else if !IsActiveIn(s, id, Ending) then Leave(s, id)
    else if t.target != Some(NewGeneration(t)) then FailTransition(s, id, er)
    else SetTransition(s, id, t.(pc := Verified)).(epoch := None)
  }

  function StepPublishArmed(s: State, id: nat, live: SessionLive, admitted: bool, er: Erasure): (s': State)
    requires id < |s.transitions|
    ensures Moved(s, s', id)
  {
    var t := s.transitions[id];
    if t.kind != Begin || t.pc != Verified then s
    else if live == NotRun || !admitted || !IsActiveIn(s, id, Quiescing) || s.fatal || !s.quiescenceComplete
            || s.gate.open || s.retiring || s.generation != NewGeneration(t) || t.origin.None? then
      FailTransition(s, id, er)
    else
      var epoch := Epoch(t.captureSeq, NewGeneration(t));
      Leave(s.(epoch := Some(epoch), state := Armed, active := None,
               published := s.published + [Publication(epoch, t.origin.value)]), id)
  }

  predicate EvidenceClear(e: Evidence) {
    e == NO_EVIDENCE
  }

  function StepPublishResumed(s: State, id: nat, live: SessionLive, admitted: bool, resume: ResumeOutcome, er: Erasure)
    : (s': State)
    requires id < |s.transitions|
    ensures Moved(s, s', id)
  {
    var t := s.transitions[id];
    if t.kind != End || t.pc != Verified then s
    else if live == NotRun || !admitted || !IsActiveIn(s, id, Ending) || s.epoch.Some? || s.gate.open
            || !EvidenceClear(s.evidence) || s.retiring || s.generation != NewGeneration(t)
            || !Accepts(s.gate, Reopen) then
      FailTransition(s, id, er)
    else
      var reopened := Apply(s.gate, Reopen);
      match resume
      case ClosesAgain => FailTransition(s.(gate := Apply(reopened, Close)), id, er)
      case RaisesWhileOpen => FailTransition(s.(gate := reopened), id, er)
      case Resumes =>
        Leave(s.(gate := reopened, state := Idle, active := None, fatal := false, quiescenceComplete := false), id)
  }

  function StepActivate(s: State, activation: ActivationOutcome, er: Erasure): (s': State)
    ensures Advances(s, s')
  {
    if s.state != Armed || s.epoch.None? then s
    else if s.evidence.capability || s.evidence.cleanupToken || s.evidence.partition then
      EnterFailedClosed(s, s.active, er)
    else
      var activated := s.evidence.(capability := true, permits := 0, frameRecords := 0, profile := true,
                                   workers := true, cleanupToken := true, partition := true);
      match activation
      case Activates => s.(evidence := activated)
      case FailsBeforePartition => EnterFailedClosed(s, s.active, er)
      case RollsBack(erased) =>
        EnterFailedClosed(s.(evidence := s.evidence.(partition := !erased)), s.active, er)
      case FailsAfterCommit => EnterFailedClosed(s.(evidence := activated), s.active, er)
  }

  /** Frame mutation is possible: open state, live capability, and still the capture's own generation. */
  predicate MayMutateFrames(s: State) {
    && (s.state.Armed? || s.state.Capturing?)
    && s.epoch.Some? && s.epoch.value.generation == s.generation
    && s.evidence.capability && !s.fatal
  }

  function StepCommitFrame(s: State, commits: bool): (s': State)
    ensures Advances(s, s')
  {
    if s.lock != Free || !MayMutateFrames(s) || s.evidence.permits == 0 || !commits then s
    else s.(state := Capturing, evidence := s.evidence.(frameRecords := s.evidence.frameRecords + 1))
  }

  function StepSealCall(s: State, seal: SealOutcome, er: Erasure): (s': State)
    ensures Advances(s, s')
  {
    if s.lock != Free || !MayMutateFrames(s) || s.state != Capturing then s
    else
      match seal
      case NeedsRecapture => s
      case BuildUnfenced => EnterFailedClosed(s.(state := BuildingAssertions), s.active, er)
      case BuildStarts =>
        s.(state := BuildingAssertions, lock := BySeal, evidence := s.evidence.(workers := true))
  }

  function StepSealReturns(s: State, processorStarted: bool, er: Erasure): (s': State)
    ensures Advances(s, s')
  {
    if s.lock != BySeal then s
    else
      var s' := s.(lock := Free);
      if processorStarted || s'.epoch.None? then s' else EnterFailedClosed(s', s'.active, er)
  }

  /** A step activates only a new transition, and whatever waits stays as it was claimed. */
  predicate Advances(s: State, s': State) {
    && |s'.transitions| >= |s.transitions|
    && s'.generation >= s.generation
    && (s'.active == s.active || s'.active == None || s'.active == Some(|s.transitions|))
    && (forall i :: 0 <= i < |s.transitions| ==> Waits(s.transitions[i], s'.transitions[i]))
  }

  /** One step; an event that is not enabled changes nothing. */
  function Step(s: State, e: Event): State {
    match e
    case BeginCall(live, preconditions, controllerUsable, er) => StepBegin(s, live, preconditions, controllerUsable, er)
    case EndCall(live, epochArg, seqArg, releaseBinds, closes, er) =>
      StepEnd(s, live, epochArg, seqArg, releaseBinds, closes, er)
    case Acquire(id, registers, er) => if id < |s.transitions| then StepAcquire(s, id, registers, er) else s
    case StartRetirement(id, er) => if id < |s.transitions| then StepStartRetirement(s, id, er) else s
    case Retire(id, outcome, er) => if id < |s.transitions| then StepRetire(s, id, outcome, er) else s
    case PublishQuiescing(id, er) => if id < |s.transitions| then StepPublishQuiescing(s, id, er) else s
    case Drain(id, drains, destroys, acknowledges, er) =>
      if id < |s.transitions| then StepDrain(s, id, drains, destroys, acknowledges, er) else s
    case CleanupDone(id, complete, er) => if id < |s.transitions| then StepCleanupDone(s, id, complete, er) else s
    case PublishArmed(id, live, admitted, er) =>
      if id < |s.transitions| then StepPublishArmed(s, id, live, admitted, er) else s
    case PublishResumed(id, live, admitted, resume, er) =>
      if id < |s.transitions| then StepPublishResumed(s, id, live, admitted, resume, er) else s
    case Cancel(id, er) =>
      if id < |s.transitions| && (!s.transitions[id].pc.Exited? && !s.transitions[id].pc.Retiring?) then FailTransition(s, id, er) else s
    case RuntimeFailure(er) => if s.epoch.Some? then EnterFailedClosed(s, s.active, er) else s
    case Activate(activation, er) => StepActivate(s, activation, er)
    case AdmitUpload =>
      if MayMutateFrames(s) then s.(evidence := s.evidence.(permits := s.evidence.permits + 1)) else s
    case ReleasePermit =>
      if s.evidence.permits > 0 then s.(evidence := s.evidence.(permits := s.evidence.permits - 1)) else s
    case CommitFrame(commits) => StepCommitFrame(s, commits)
    case SealCall(seal, er) => StepSealCall(s, seal, er)
    case SealReturns(processorStarted, er) => StepSealReturns(s, processorStarted, er)
    case ProcessorFinishes =>
      if s.state == BuildingAssertions && s.epoch.Some? && s.epoch.value.generation == s.generation then
        s.(state := Ready, evidence := s.evidence.(workers := true))
      else s
  }

  lemma StepAdvances(s: State, e: Event)
    ensures Advances(s, Step(s, e))
  {
    hide StepBegin, StepEnd, StepAcquire, StepStartRetirement, StepRetire, StepPublishQuiescing, StepDrain, StepCleanupDone;
    hide StepPublishArmed, StepPublishResumed, FailTransition, EnterFailedClosed, StepActivate, StepCommitFrame, StepSealCall;
    hide StepSealReturns, MayMutateFrames;
  }
}
