/** What each request to the lifecycle needs, and what it gets when it has it. */
module LifecycleAnswers {
  import opened Basics
  import Isolation
  import opened Lifecycle
  import opened LifecycleSafety
  import opened LifecycleTheorems

  // ---------------------------------------------------------------- END

  /** The request names exactly the capture there is: its epoch, or before one is published its sequence number. */
  predicate NamesCapture(s: State, epochArg: Option<Epoch>, seqArg: Option<nat>) {
    match s.epoch
    case Some(epoch) => epochArg == Some(epoch) && (seqArg == None || seqArg == Some(epoch.captureSeq))
    case None => epochArg == None && seqArg == Some(s.captureSeq)
  }

  /** There is a capture, entering, live or failed, that no END has claimed yet. */
  predicate HasCapture(s: State) {
    s.state.Entering? || s.state.Quiescing? || IsLive(s.state) || s.state.FailedClosed?
  }

  /** An END of any other capture, or of none, changes nothing whatever else it carries. */
  lemma OnlyRightEndsMatter(generation: nat, es: seq<Event>, e: Event)
    requires e.EndCall?
    requires var s := Run(generation, es); !NamesCapture(s, e.epochArg, e.seqArg) || !HasCapture(s)
    ensures Step(Run(generation, es), e) == Run(generation, es)
  {
    hide ClaimEnd, EnterFailedClosed, FailTransition, Leave;
  }

  /** In particular an END that comes too late, for a capture published before the present one. */
  lemma LateEndIsIgnored(generation: nat, es: seq<Event>, k: nat, e: Event)
    requires var s := Run(generation, es);
             k < |s.published| && s.epoch != Some(s.published[k].epoch) && e.EndCall? && e.epochArg == Some(s.published[k].epoch)
    ensures Step(Run(generation, es), e) == Run(generation, es)
  {
    OnlyRightEndsMatter(generation, es, e);
  }

  predicate ClaimedFrom(t: Transition, s: State) {
    t.kind == End && t.pc == Claimed && t.captureSeq == s.captureSeq && t.claimedFrom == s.state && t.fence.None? && !t.drained
  }

  /** The claim of an END: the capture is shut for everybody else, and nothing of it is destroyed yet. */
  predicate IsClaimed(s: State, s': State) {
    && s'.state == Ending && s'.active == Some(|s.transitions|) && |s'.transitions| == |s.transitions| + 1
    && s'.transitions[..|s.transitions|] == s.transitions
    && ClaimedFrom(s'.transitions[|s.transitions|], s)
    && s'.evidence == s.evidence.(capability := false, permits := 0, workers := false)
    && s' == s.(state := s'.state, active := s'.active, transitions := s'.transitions, evidence := s'.evidence, quiescenceComplete := false)
  }

  /**
   An END that names the capture is let through from every state that has one: the session being live and its work
   detached it is claimed, and otherwise the coordinator fails closed.
   */
  lemma RightEndIsLetThrough(generation: nat, es: seq<Event>, e: Event)
    requires e.EndCall?
    requires var s := Run(generation, es); NamesCapture(s, e.epochArg, e.seqArg) && HasCapture(s)
    ensures var s := Run(generation, es); var s' := Step(s, e);
            && (e.live.Ran? && e.releaseBinds && (s.epoch.None? || e.admissionCloses) ==> IsClaimed(s, s'))
            && (!(e.live.Ran? && e.releaseBinds && (s.epoch.None? || e.admissionCloses)) ==>
                  s'.state == FailedClosed && s'.active.None?)
            && |s'.transitions| == |s.transitions| + (if e.live.NotRun? then 0 else 1)
  {
    RunKeepsInv(generation, es);
    hide Run, Inv, EnterFailedClosed, EndCandidates, CanBind;
    var s := Run(generation, es);
    ClaimIs(s, e);
    hide ClaimEnd;
  }

  lemma ClaimIs(s: State, e: Event)
    requires e.EndCall?
    ensures var (s', prepared) := ClaimEnd(s, e.releaseBinds, e.admissionCloses);
            && prepared == (e.releaseBinds && (s.epoch.None? || e.admissionCloses)) && (prepared ==> IsClaimed(s, s'))
            && s'.active == Some(|s.transitions|) && |s'.transitions| == |s.transitions| + 1
  {
    hide CanBind, EndCandidates;
  }

  // ---------------------------------------------------------------- BEGIN

  predicate EnteredFrom(t: Transition, s: State) {
    && t.kind == Begin && t.pc == Claimed && t.captureSeq == s.captureSeq + 1 && t.fence.None? && !t.drained
    && t.origin == Some(s.generation) && t.target == Some(s.generation + 1)
  }

  predicate IsEntered(s: State, s': State) {
    && s'.state == Entering && s'.captureSeq == s.captureSeq + 1 && s'.active == Some(|s.transitions|) && !s'.gate.open
    && |s'.transitions| == |s.transitions| + 1 && s'.transitions[..|s.transitions|] == s.transitions
    && EnteredFrom(s'.transitions[|s.transitions|], s)
    && s' == s.(state := Entering, captureSeq := s'.captureSeq, active := s'.active, gate := s'.gate,
                transitions := s'.transitions, fatal := false, quiescenceComplete := false)
  }

  /**
   A BEGIN enters a new capture exactly from IDLE, with its preconditions met, the session live, the controller usable
   and a sequence number left; from any other state it changes nothing, and where something fails it fails closed.
   */
  lemma BeginEntersOnlyFromIdle(generation: nat, es: seq<Event>, e: Event)
    requires e.BeginCall?
    ensures var s := Run(generation, es); var s' := Step(s, e);
            var usable := e.controllerUsable && s.captureSeq < UINT64_MAX;
            && (e.live.Ran? && e.preconditions && s.state.Idle? && usable ==> IsEntered(s, s'))
            && (e.live.Ran? && e.preconditions && !s.state.Idle? ==> s' == s)
            && (e.live.NotRun? || !e.preconditions || (s.state.Idle? && !usable) || e.live.RanThenReportedDead? ==>
                  s'.state == FailedClosed && s'.active.None?)
  {
    RunKeepsInv(generation, es);
    hide LockHeldByOne, PublicationsFit, ActiveEndFits, ActiveBeginFits, EraseFailed;
  }

  // ---------------------------------------------------------------- seal

  /**
   A seal of an open capture that has frames starts the build, with its workers and under the lock, or asks for another
   frame; it leaves any other state alone.
   */
  lemma SealIsAnswered(generation: nat, es: seq<Event>, e: Event)
    requires e.SealCall?
    ensures var s := Run(generation, es); var s' := Step(s, e);
            if !TakesFrames(s) || !s.state.Capturing? || !s.lock.Free? || e.seal.NeedsRecapture? then s' == s
            else if e.seal.BuildStarts? then
              s' == s.(state := BuildingAssertions, lock := BySeal, evidence := s.evidence.(workers := true))
            else s'.state == FailedClosed && s'.active.None?
  {
    RunKeepsInv(generation, es);
    hide Run, LockHeldByOne, PublicationsFit, ActiveEndFits, ActiveBeginFits, GateFollowsState, StepBegin, StepEnd;
  }

  /** The build returns the lock, and a capture whose processor did not start fails closed. */
  lemma BuildReturns(generation: nat, es: seq<Event>, e: Event)
    requires e.SealReturns?
    ensures var s := Run(generation, es); var s' := Step(s, e);
            if !s.lock.BySeal? then s' == s
            else if e.processorStarted || s.epoch.None? then s' == s.(lock := Free)
            else s'.state == FailedClosed && s'.active.None? && s'.lock.Free?
  {
    RunKeepsInv(generation, es);
    hide Run, LockHeldByOne, PublicationsFit, ActiveEndFits, ActiveBeginFits, GateFollowsState, StepBegin, StepEnd;
  }

  /** A processor that finishes makes the capture ready, with its workers, if it is still being built. */
  lemma ProcessorMakesReady(generation: nat, es: seq<Event>)
    ensures var s := Run(generation, es);
            Step(s, ProcessorFinishes)
            == if s.state.BuildingAssertions? then s.(state := Ready, evidence := s.evidence.(workers := true)) else s
  {
    RunKeepsInv(generation, es);
    hide Run, Inv, StepBegin, StepEnd;
    var s := Run(generation, es);
    if s.state.BuildingAssertions? { LiveIsCurrent(s); }
  }

  // ---------------------------------------------------------------- the state moves along its edges only

  /** Frames can come in: the capture is open, its own generation is the current one, and nobody holds the lock. */
  predicate TakesFrames(s: State) {
    && (s.state.Armed? || s.state.Capturing?) && !s.fatal && s.evidence.capability
    && s.epoch.Some? && s.epoch.value.generation == s.generation
  }

  /** What takes the coordinator into a new state. */
  predicate Edge(s: State, e: Event, next: CaptureState) {
    match next
    case Entering => e.BeginCall? && s.state.Idle? && e.preconditions && e.controllerUsable && e.live.Ran?
    case Quiescing => e.PublishQuiescing? && s.state.Entering? && s.active == Some(e.id)
    case Armed =>
      && e.PublishArmed? && s.state.Quiescing? && s.active == Some(e.id)
      && e.admitted && !e.live.NotRun? && s.quiescenceComplete && !s.fatal && !s.retiring
    case Capturing => e.CommitFrame? && e.commits && s.state.Armed? && TakesFrames(s) && s.lock.Free? && s.evidence.permits > 0
    case BuildingAssertions => e.SealCall? && e.seal.BuildStarts? && s.state.Capturing? && TakesFrames(s) && s.lock.Free?
    case Ready =>
      e.ProcessorFinishes? && s.state.BuildingAssertions? && s.epoch.Some? && s.epoch.value.generation == s.generation
    case Ending => e.EndCall? && HasCapture(s) && NamesCapture(s, e.epochArg, e.seqArg) && e.live.Ran? && e.releaseBinds
    case Idle =>
      && e.PublishResumed? && s.state.Ending? && s.active == Some(e.id)
      && e.admitted && !e.live.NotRun? && e.resume.Resumes? && s.epoch.None? && EvidenceClear(s.evidence)
    case FailedClosed => true
  }

  /** A coroutine on its way moves neither state nor evidence but by failing. */
  lemma WayEdges(s: State, e: Event)
    requires e.Acquire? || e.StartRetirement? || e.Retire? || e.Cancel?
    ensures Shrinks(s.evidence, Step(s, e).evidence)
    ensures Step(s, e).state != s.state ==> Edge(s, e, Step(s, e).state)
  {
    hide EnterFailedClosed, FailTransition, Edge, Shrinks;
    ShrinksOn(s.evidence, s.evidence, s.evidence);
    assert Edge(s, e, FailedClosed) by { AnyFails(s, e); }
  }

  lemma AnyFails(s: State, e: Event)
    ensures Edge(s, e, FailedClosed)
  {
  }

  lemma QuiescingEdge(s: State, e: Event)
    requires e.PublishQuiescing?
    ensures Shrinks(s.evidence, Step(s, e).evidence)
    ensures Step(s, e).state != s.state ==> Edge(s, e, Step(s, e).state)
  {
    hide EnterFailedClosed, FailTransition;
  }

  lemma ShrinksOn(a: Evidence, b: Evidence, c: Evidence)
    ensures Shrinks(a, a) && (Shrinks(a, b) && Shrinks(b, c) ==> Shrinks(a, c))
  {
  }

  /** A drain and a call do just that. */
  lemma DrainIs(s: State, e: Event)
    requires e.Drain?
    ensures Step(s, e) == if e.id < |s.transitions| then StepDrain(s, e.id, e.drains, e.destroys, e.acknowledges, e.er) else s
  {
    hide StepDrain;
  }

  lemma CallIs(s: State, e: Event)
    ensures e.BeginCall? ==> Step(s, e) == StepBegin(s, e.live, e.preconditions, e.controllerUsable, e.er)
    ensures e.EndCall? ==> Step(s, e) == StepEnd(s, e.live, e.epochArg, e.seqArg, e.releaseBinds, e.admissionCloses, e.er)
  {
    hide StepBegin, StepEnd;
  }

  lemma DrainEdge(s: State, e: Event)
    requires e.Drain?
    ensures Shrinks(s.evidence, Step(s, e).evidence)
    ensures Step(s, e).state != s.state ==> Step(s, e).state == FailedClosed
  {
    hide Step, EnterFailedClosed, FailTransition, DestroyUnderFence, Shrinks;
    DrainIs(s, e);
    ShrinksOn(s.evidence, s.evidence, s.evidence);
    if e.id < |s.transitions| && s.transitions[e.id].fence.Some? {
      var evidence := DestroyUnderFence(s.evidence, s.epoch, s.transitions[e.id].fence.value, e.destroys, e.acknowledges).0;
      ShrinksOn(s.evidence, evidence, FailTransition(s.(evidence := evidence), e.id, e.er).evidence);
    }
  }

  lemma CleanupEdge(s: State, e: Event)
    requires e.CleanupDone?
    ensures Shrinks(s.evidence, Step(s, e).evidence)
    ensures Step(s, e).state != s.state ==> Step(s, e).state == FailedClosed
  {
    hide EnterFailedClosed, FailTransition, Shrinks;
    ShrinksOn(s.evidence, s.evidence, s.evidence);
  }

  lemma PublishEdges(s: State, e: Event)
    requires e.PublishArmed? || e.PublishResumed?
    ensures Shrinks(s.evidence, Step(s, e).evidence)
    ensures Step(s, e).state != s.state ==> Edge(s, e, Step(s, e).state)
  {
    hide EnterFailedClosed, FailTransition, StepDrain, StepCleanupDone, Isolation.Apply, Isolation.Accepts;
  }

  lemma CoroutineEdges(s: State, e: Event)
    requires LifecycleTheorems.Owner(e).Some?
    ensures Shrinks(s.evidence, Step(s, e).evidence)
    ensures Step(s, e).state != s.state ==> Edge(s, e, Step(s, e).state)
  {
    hide Step, Edge, Shrinks;
    if e.Acquire? || e.StartRetirement? || e.Retire? || e.Cancel? { WayEdges(s, e); }
    else if e.PublishQuiescing? { QuiescingEdge(s, e); }
    else if e.Drain? { DrainEdge(s, e); AnyFails(s, e); }
    else if e.CleanupDone? { CleanupEdge(s, e); AnyFails(s, e); }
    else { PublishEdges(s, e); }
  }

  lemma EndEdges(s: State, e: Event)
    requires Inv(s) && e.EndCall?
    ensures Step(s, e).state != s.state ==> Edge(s, e, Step(s, e).state)
  {
    hide Step, LockHeldByOne, PublicationsFit, ActiveEndFits, ActiveBeginFits, EnterFailedClosed, PrepareEnd, EndCandidates, StepBegin;
    CallIs(s, e);
  }

  lemma BeginEdges(s: State, e: Event)
    requires Inv(s) && e.BeginCall?
    ensures Step(s, e).state != s.state ==> Edge(s, e, Step(s, e).state)
  {
    hide Step, LockHeldByOne, PublicationsFit, ActiveEndFits, ActiveBeginFits, EnterFailedClosed, FailTransition, StepEnd;
    CallIs(s, e);
  }

  lemma RequestEdges(s: State, e: Event)
    requires Inv(s) && Owner(e).None? && !e.BeginCall? && !e.EndCall?
    ensures Step(s, e).state != s.state ==> Edge(s, e, Step(s, e).state)
  {
    hide LockHeldByOne, PublicationsFit, ActiveEndFits, ActiveBeginFits, EnterFailedClosed, FailTransition, StepBegin, StepEnd;
  }

  /** The state of the coordinator changes along these edges only. */
  lemma OnlyTheseEdges(generation: nat, es: seq<Event>, e: Event)
    ensures var s := Run(generation, es); Step(s, e).state != s.state ==> Edge(s, e, Step(s, e).state)
  {
    RunKeepsInv(generation, es);
    hide Run, Inv, Step, Edge;
    if Owner(e).Some? { CoroutineEdges(Run(generation, es), e); }
    else if e.BeginCall? { BeginEdges(Run(generation, es), e); }
    else if e.EndCall? { EndEdges(Run(generation, es), e); }
    else { RequestEdges(Run(generation, es), e); }
  }

  // ---------------------------------------------------------------- what is kept of a capture

  /** Who may bring evidence in: an activation of an empty armed capture, an upload, a frame, a build. */
  predicate Grows(s: State, e: Event, s': State) {
    var x, x' := s.evidence, s'.evidence;
    && (x'.permits > x.permits ==> e.AdmitUpload? && TakesFrames(s) && x' == x.(permits := x.permits + 1))
    && (x'.frameRecords > x.frameRecords ==>
          && e.CommitFrame? && e.commits && TakesFrames(s) && s.lock.Free? && x.permits > 0
          && x' == x.(frameRecords := x.frameRecords + 1) && s'.state == Capturing)
    && ((x'.partition && !x.partition) || (x'.cleanupToken && !x.cleanupToken) || (x'.capability && !x.capability)
        || (x'.profile && !x.profile) ==>
          e.Activate? && s.state.Armed? && s.epoch.Some? && !x.partition && !x.cleanupToken && !x.capability)
    && (x'.workers && !x.workers ==>
          e.Activate? || (e.SealCall? && TakesFrames(s)) || (e.ProcessorFinishes? && s.state.BuildingAssertions?))
  }

  /** Only those bring evidence in, one piece at a time. */
  lemma OnlyTheseGrow(generation: nat, es: seq<Event>, e: Event)
    ensures var s := Run(generation, es); Grows(s, e, Step(s, e))
  {
    RunKeepsInv(generation, es);
    hide Run;
    var s := Run(generation, es);
    if e.Activate? {
      ActivationGrows(s, e);
    } else {
      RestGrows(s, e);
    }
  }

  lemma ActivationGrows(s: State, e: Event)
    requires e.Activate?
    ensures Grows(s, e, Step(s, e))
  {
    hide EnterFailedClosed;
  }

  lemma ShrinkingGrowsNothing(s: State, e: Event, s': State)
    requires Shrinks(s.evidence, s'.evidence)
    ensures Grows(s, e, s')
  {
  }

  lemma RequestsGrowNothing(s: State, e: Event)
    requires e.BeginCall? || e.EndCall? || e.RuntimeFailure? || e.SealReturns?
    ensures Shrinks(s.evidence, Step(s, e).evidence)
  {
    hide EnterFailedClosed, FailTransition, Isolation.Apply, Isolation.Accepts, EndCandidates, ClaimEnd, EndRejected;
  }

  lemma RestGrows(s: State, e: Event)
    requires !e.Activate?
    ensures Grows(s, e, Step(s, e))
  {
    hide EnterFailedClosed, FailTransition;
    if LifecycleTheorems.Owner(e).Some? || e.BeginCall? || e.EndCall? || e.RuntimeFailure? || e.SealReturns? {
      hide Step, Shrinks, Grows;
      if LifecycleTheorems.Owner(e).Some? { CoroutineEdges(s, e); } else { RequestsGrowNothing(s, e); }
      ShrinkingGrowsNothing(s, e, Step(s, e));
    } else {
      hide Step, Grows;
      if e.SealCall? || e.ProcessorFinishes? { BuildsGrow(s, e); } else { UploadsGrow(s, e); }
    }
  }

  lemma UploadsGrow(s: State, e: Event)
    requires e.AdmitUpload? || e.ReleasePermit? || e.CommitFrame?
    ensures Grows(s, e, Step(s, e))
  {
    hide EnterFailedClosed, FailTransition, StepBegin, StepEnd;
  }

  lemma BuildsGrow(s: State, e: Event)
    requires e.SealCall? || e.ProcessorFinishes?
    ensures Grows(s, e, Step(s, e))
  {
    hide EnterFailedClosed, FailTransition, StepBegin, StepEnd;
  }

  // ---------------------------------------------------------------- what destroys it

  /** Some destruction of this step goes through. */
  predicate MayDestroy(e: Event) {
    match e
    case BeginCall(_, _, _, er) => er.destroys
    case EndCall(_, _, _, _, _, er) => er.destroys
    case Acquire(_, _, er) => er.destroys
    case StartRetirement(_, er) => er.destroys
    case Retire(_, _, er) => er.destroys
    case PublishQuiescing(_, er) => er.destroys
    case Drain(_, _, destroys, _, er) => destroys || er.destroys
    case CleanupDone(_, _, er) => er.destroys
    case PublishArmed(_, _, _, er) => er.destroys
    case PublishResumed(_, _, _, _, er) => er.destroys
    case Cancel(_, er) => er.destroys
    case RuntimeFailure(er) => er.destroys
    case Activate(_, er) => er.destroys
    case SealCall(_, er) => er.destroys
    case SealReturns(_, er) => er.destroys
    case _ => false
  }

  /** A partition is lost only when its destruction goes through, and then its own generation has been retired. */
  predicate LostOnlyRetired(s: State, e: Event, s': State) {
    s.evidence.partition && !s'.evidence.partition ==>
      MayDestroy(e) && s.epoch.Some? && s'.generation > s.epoch.value.generation
  }

  lemma BeginLoses(s: State, e: Event)
    requires Inv(s) && e.BeginCall?
    ensures LostOnlyRetired(s, e, Step(s, e))
  {
    hide Step, LockHeldByOne, PublicationsFit, ActiveBeginFits, GateFollowsState, EnterFailedClosed, FailTransition, StepEnd;
    hide Isolation.Apply, Isolation.Accepts;
    CallIs(s, e);
  }

  lemma EndLoses(s: State, e: Event)
    requires Inv(s) && e.EndCall?
    ensures LostOnlyRetired(s, e, Step(s, e))
  {
    hide Step, LockHeldByOne, PublicationsFit, ActiveBeginFits, GateFollowsState, EndRejected, EndCandidates, EnterFailedClosed;
    hide FailTransition, StepBegin;
    CallIs(s, e);
  }

  lemma RequestLoses(s: State, e: Event)
    requires Inv(s) && LifecycleTheorems.Owner(e).None? && !e.BeginCall? && !e.EndCall?
    ensures LostOnlyRetired(s, e, Step(s, e))
  {
    hide LockHeldByOne, PublicationsFit, ActiveBeginFits, GateFollowsState, EnterFailedClosed, FailTransition;
  }

  lemma RetirementLoses(s: State, e: Event)
    requires Inv(s) && (e.Acquire? || e.StartRetirement? || e.Retire?)
    ensures LostOnlyRetired(s, e, Step(s, e))
  {
    hide PublicationsFit, GateFollowsState, EnterFailedClosed, FailTransition;
  }

  lemma CancelLoses(s: State, e: Event)
    requires Inv(s) && e.Cancel?
    ensures LostOnlyRetired(s, e, Step(s, e))
  {
    hide LockHeldByOne, PublicationsFit, GateFollowsState, EnterFailedClosed, FailTransition;
  }

  lemma DrainLoses(s: State, e: Event)
    requires Inv(s) && e.Drain?
    ensures LostOnlyRetired(s, e, Step(s, e))
  {
    DrainIs(s, e);
    hide Step, LockHeldByOne, PublicationsFit, GateFollowsState, EnterFailedClosed, FailTransition, DestroyUnderFence;
  }

  lemma PublishLoses(s: State, e: Event)
    requires Inv(s) && (e.PublishQuiescing? || e.CleanupDone? || e.PublishArmed? || e.PublishResumed?)
    ensures LostOnlyRetired(s, e, Step(s, e))
  {
    hide LockHeldByOne, PublicationsFit, GateFollowsState, EnterFailedClosed, FailTransition, Isolation.Apply, Isolation.Accepts;
  }

  /** Over any run: what was captured is destroyed only once its own generation has been retired. */
  lemma DestroyedOnlyRetired(generation: nat, es: seq<Event>, e: Event)
    ensures var s := Run(generation, es); LostOnlyRetired(s, e, Step(s, e))
  {
    RunKeepsInv(generation, es);
    hide Run, Inv, LostOnlyRetired, Step;
    var s := Run(generation, es);
    if e.Acquire? || e.StartRetirement? || e.Retire? { RetirementLoses(s, e); }
    else if e.Drain? { DrainLoses(s, e); }
    else if e.Cancel? { CancelLoses(s, e); }
    else if LifecycleTheorems.Owner(e).Some? { PublishLoses(s, e); }
    else if e.BeginCall? { BeginLoses(s, e); }
    else if e.EndCall? { EndLoses(s, e); }
    else { RequestLoses(s, e); }
  }

  /** A retirement in flight is alone: until it returns, nothing else moves the generation. */
  lemma RetirementIsAlone(generation: nat, es: seq<Event>, e: Event)
    requires Run(generation, es).retiring && !e.Retire?
    ensures var s' := Step(Run(generation, es), e); s'.retiring && s'.generation == Run(generation, es).generation
  {
    RunKeepsInv(generation, es);
    hide Run, PublicationsFit, GateFollowsState, EpochFitsState, ActiveEndFits, ActiveBeginFits, DestroyUnderFence, PrepareEnd;
    hide EnterFailedClosed, FailTransition, EndRejected, EndCandidates, Isolation.Apply, Isolation.Accepts;
  }

  // ---------------------------------------------------------------- how a transition advances

  /** What takes a coroutine to its next suspension. */
  predicate Advance(s: State, e: Event, i: nat, t': Transition)
    requires i < |s.transitions|
  {
    var t := s.transitions[i];
    match t'.pc
    case BeforeRetirement =>
      && e.Acquire? && e.id == i && e.registers && t.pc.Claimed? && s.lock.Free? && s.active == Some(i)
      && (t.kind == End ==> s.generation in t.candidates && t'.origin == Some(s.generation))
    case Retiring => e.StartRetirement? && e.id == i && t.pc.BeforeRetirement? && s.active == Some(i)
    case Retired => e.Retire? && e.id == i && t.pc.Retiring? && e.outcome.RetireSucceeds? && t'.fence == Some(s.generation)
    case Quiesced => e.PublishQuiescing? && e.id == i && t.pc.Retired? && t.kind == Begin
    case Cleaning =>
      && e.Drain? && e.id == i && t.pc == (if t.kind == Begin then Quiesced else Retired)
      && t'.drained == (e.drains && e.acknowledges)
    case Verified => e.CleanupDone? && e.id == i && t.pc.Cleaning? && e.complete && t.drained && s.active == Some(i)
    case Exited => true
    case Claimed => false
  }

  /** A coroutine advances by its own resumption only, one suspension at a time, and only on good answers. */
  lemma OnlyGoodAnswersAdvance(generation: nat, es: seq<Event>, e: Event, i: nat)
    requires i < |Run(generation, es).transitions|
    ensures var s := Run(generation, es); var s' := Step(s, e);
            i < |s'.transitions| && (s'.transitions[i].pc != s.transitions[i].pc ==> Advance(s, e, i, s'.transitions[i]))
  {
    hide Run, EnterFailedClosed, DestroyUnderFence, Isolation.Apply, Isolation.Accepts, ClaimEnd;
    var s := Run(generation, es);
    StepAdvances(s, e);
    if LifecycleTheorems.Owner(e).Some? {
      CoroutineAdvances(s, e, i);
    } else {
      hide Advance, LifecycleTheorems.Owner;
      OthersKeepCoroutines(s, e, i);
    }
  }

  lemma OthersKeepCoroutines(s: State, e: Event, i: nat)
    requires i < |s.transitions| && LifecycleTheorems.Owner(e).None?
    ensures i < |Step(s, e).transitions| && Step(s, e).transitions[i] == s.transitions[i]
  {
    hide EnterFailedClosed, EndCandidates, PrepareEnd, EndRejected, Isolation.Apply, Isolation.Accepts;
    if e.BeginCall? || e.EndCall? {
      CallIs(s, e);
      hide Step;
      assert Step(s, e).transitions[i] == s.transitions[i];
    } else {
      hide StepBegin, StepEnd;
      assert Step(s, e).transitions[i] == s.transitions[i];
    }
  }

  lemma FirstAdvances(s: State, e: Event, i: nat)
    requires i < |s.transitions| && (e.Acquire? || e.StartRetirement? || e.Cancel?)
    ensures i < |Step(s, e).transitions|
    ensures Step(s, e).transitions[i].pc != s.transitions[i].pc ==> Advance(s, e, i, Step(s, e).transitions[i])
  {
    hide EnterFailedClosed;
  }

  lemma NextAdvances(s: State, e: Event, i: nat)
    requires i < |s.transitions| && (e.Retire? || e.PublishQuiescing?)
    ensures i < |Step(s, e).transitions|
    ensures Step(s, e).transitions[i].pc != s.transitions[i].pc ==> Advance(s, e, i, Step(s, e).transitions[i])
  {
    hide EnterFailedClosed;
  }

  lemma DrainAdvances(s: State, e: Event, i: nat)
    requires i < |s.transitions| && e.Drain?
    ensures i < |Step(s, e).transitions|
    ensures Step(s, e).transitions[i].pc != s.transitions[i].pc ==> Advance(s, e, i, Step(s, e).transitions[i])
  {
    hide Step, EnterFailedClosed, DestroyUnderFence;
    DrainIs(s, e);
  }

  lemma LastAdvances(s: State, e: Event, i: nat)
    requires i < |s.transitions| && (e.CleanupDone? || e.PublishArmed? || e.PublishResumed?)
    ensures i < |Step(s, e).transitions|
    ensures Step(s, e).transitions[i].pc != s.transitions[i].pc ==> Advance(s, e, i, Step(s, e).transitions[i])
  {
    hide EnterFailedClosed, Isolation.Apply, Isolation.Accepts;
  }

  lemma CoroutineAdvances(s: State, e: Event, i: nat)
    requires i < |s.transitions| && LifecycleTheorems.Owner(e).Some?
    ensures i < |Step(s, e).transitions|
    ensures Step(s, e).transitions[i].pc != s.transitions[i].pc ==> Advance(s, e, i, Step(s, e).transitions[i])
  {
    hide Step, Advance;
    if e.Acquire? || e.StartRetirement? || e.Cancel? { FirstAdvances(s, e, i); }
    else if e.Retire? || e.PublishQuiescing? { NextAdvances(s, e, i); }
    else if e.Drain? { DrainAdvances(s, e, i); }
    else { LastAdvances(s, e, i); }
  }

  /** An END that has retired its generation goes on exactly when what there is of the capture is destroyed and acknowledged. */
  lemma DrainGoesOnIff(generation: nat, es: seq<Event>, e: Event)
    requires e.Drain?
    requires var s := Run(generation, es);
             e.id < |s.transitions| && s.active == Some(e.id) && s.transitions[e.id].kind == End && s.transitions[e.id].pc == Retired
    ensures var s := Run(generation, es); var s' := Step(s, e);
            if (s.evidence.partition ==> e.destroys) && (s.evidence.cleanupToken ==> e.acknowledges) then
              s'.state == Ending && s'.transitions[e.id].pc == Cleaning && Erased(s'.evidence)
            else s'.state == FailedClosed && s'.transitions[e.id].pc == Exited
  {
    RunKeepsInv(generation, es);
    hide Run, Inv, FailTransition, Step;
    var s := Run(generation, es);
    RetiredIsFenced(s, e.id);
    DrainIs(s, e);
    var evidence := DestroyUnderFence(s.evidence, s.epoch, s.transitions[e.id].fence.value, e.destroys, e.acknowledges).0;
    FailureExits(s.(evidence := evidence), e.id, e.er);
  }

  lemma FailureExits(s: State, id: nat, er: Erasure)
    requires s.active == Some(id) && id < |s.transitions|
    ensures var s' := FailTransition(s, id, er); s'.state == FailedClosed && s'.transitions[id].pc == Exited
  {
    hide EnterFailedClosed;
  }

  lemma RetiredIsFenced(s: State, id: nat)
    requires Inv(s) && id < |s.transitions| && s.active == Some(id) && s.transitions[id].kind == End && s.transitions[id].pc == Retired
    ensures s.state == Ending && s.transitions[id].fence.Some?
    ensures if s.epoch.Some? then s.transitions[id].fence.value == s.epoch.value.generation else Erased(s.evidence)
  {
    hide PublicationsFit, ActiveBeginFits, LockHeldByOne, GateFollowsState;
  }

  // ---------------------------------------------------------------- failing closed

  predicate FailedShut(s: State) {
    s.state == FailedClosed ==> IsShut(s)
  }

  /** Over any run, FAILED_CLOSED is shut for good. */
  lemma {:induction false} FailedIsShut(generation: nat, es: seq<Event>)
    ensures FailedShut(Run(generation, es))
  {
    if es != [] {
      var init := es[..|es| - 1];
      FailedIsShut(generation, init);
      RunKeepsInv(generation, init);
      hide FailedShut, Run;
      assert Run(generation, es) == Step(Run(generation, init), es[|es| - 1]) by { RunNext(generation, es); }
      StepKeepsShut(Run(generation, init), es[|es| - 1]);
    }
  }

  lemma RunNext(generation: nat, es: seq<Event>)
    requires es != []
    ensures Run(generation, es) == Step(Run(generation, es[..|es| - 1]), es[|es| - 1])
  {
  }

  lemma StepKeepsShut(s: State, e: Event)
    requires Inv(s) && FailedShut(s)
    ensures FailedShut(Step(s, e))
  {
    hide LockHeldByOne, PublicationsFit, ActiveBeginFits, ActiveEndFits, EpochFitsState, EnterFailedClosed, FailTransition;
    hide ClaimEnd, EndRejected, Isolation.Apply, Isolation.Accepts;
    if LifecycleTheorems.Owner(e).Some? {
      hide Step;
      CoroutineKeepsShut(s, e);
    } else if e.BeginCall? || e.EndCall? {
      CallKeepsShut(s, e);
    } else {
      RequestKeepsShut(s, e);
    }
  }

  lemma CallKeepsShut(s: State, e: Event)
    requires Inv(s) && FailedShut(s) && (e.BeginCall? || e.EndCall?)
    ensures FailedShut(Step(s, e))
  {
    hide LockHeldByOne, PublicationsFit, ActiveBeginFits, ActiveEndFits, EpochFitsState, EnterFailedClosed, FailTransition;
    hide EndRejected, EndCandidates, Step;
    CallIs(s, e);
    if e.EndCall? {
      hide StepBegin;
      assert FailedShut(Step(s, e));
    } else {
      hide StepEnd;
      assert FailedShut(Step(s, e));
    }
  }

  lemma RequestKeepsShut(s: State, e: Event)
    requires Inv(s) && FailedShut(s) && LifecycleTheorems.Owner(e).None? && !e.BeginCall? && !e.EndCall?
    ensures FailedShut(Step(s, e))
  {
    hide LockHeldByOne, PublicationsFit, ActiveBeginFits, ActiveEndFits, EpochFitsState, EnterFailedClosed, FailTransition;
    hide EndRejected, EndCandidates, Isolation.Apply, Isolation.Accepts;
  }

  lemma FirstKeepsShut(s: State, e: Event)
    requires FailedShut(s) && (e.Acquire? || e.StartRetirement? || e.Retire? || e.Cancel?)
    ensures FailedShut(Step(s, e))
  {
    hide EnterFailedClosed, FailTransition;
  }

  lemma DrainKeepsShut(s: State, e: Event)
    requires Inv(s) && FailedShut(s) && e.Drain?
    ensures FailedShut(Step(s, e))
  {
    hide Step, Inv, EnterFailedClosed, FailTransition, DestroyUnderFence;
    DrainIs(s, e);
  }

  lemma MiddleKeepsShut(s: State, e: Event)
    requires Inv(s) && FailedShut(s) && (e.PublishQuiescing? || e.CleanupDone?)
    ensures FailedShut(Step(s, e))
  {
    hide LockHeldByOne, PublicationsFit, ActiveBeginFits, ActiveEndFits, EpochFitsState, GateFollowsState, EnterFailedClosed, FailTransition;
    hide DestroyUnderFence;
  }

  lemma LastKeepsShut(s: State, e: Event)
    requires Inv(s) && FailedShut(s) && (e.PublishArmed? || e.PublishResumed?)
    ensures FailedShut(Step(s, e))
  {
    hide LockHeldByOne, PublicationsFit, ActiveBeginFits, ActiveEndFits, EpochFitsState, EnterFailedClosed, FailTransition;
    hide Isolation.Apply, Isolation.Accepts;
  }

  lemma CoroutineKeepsShut(s: State, e: Event)
    requires Inv(s) && FailedShut(s) && LifecycleTheorems.Owner(e).Some?
    ensures FailedShut(Step(s, e))
  {
    hide Inv, Step, FailedShut;
    if e.Acquire? || e.StartRetirement? || e.Retire? || e.Cancel? { FirstKeepsShut(s, e); }
    else if e.Drain? { DrainKeepsShut(s, e); }
    else if e.PublishQuiescing? || e.CleanupDone? { MiddleKeepsShut(s, e); }
    else { LastKeepsShut(s, e); }
  }

  /** The generation of the capture is or has been retired by this very failure. */
  predicate RetiresOwn(s: State, er: Erasure) {
    var fence := FenceOf(s, s.active);
    s.epoch.Some? && if fence.Some? then fence.value == s.epoch.value.generation
                     else !s.retiring && er.retires && s.generation == s.epoch.value.generation
  }

  /**
   A failure of a capture erases what it can: its workers once admission is closed, its partition once that and its
   retirement go through and the destruction does, and its token once the destruction is acknowledged too.
   */
  lemma FailureErasesWhatItCan(generation: nat, es: seq<Event>, er: Erasure)
    requires Run(generation, es).epoch.Some?
    ensures var s := Run(generation, es); var s' := Step(s, RuntimeFailure(er));
            var x, x' := s.evidence, s'.evidence;
            && s'.state == FailedClosed
            && x'.workers == (x.workers && !er.admissionCloses)
            && (!er.admissionCloses ==>
                  x'.partition == x.partition && x'.cleanupToken == x.cleanupToken && x'.frameRecords == x.frameRecords)
            && (er.admissionCloses && (x.partition || x.cleanupToken) ==>
                  && x'.partition == (x.partition && !(RetiresOwn(s, er) && er.destroys))
                  && x'.cleanupToken ==
                       (x.cleanupToken && !(RetiresOwn(s, er) && (x.partition ==> er.destroys) && er.acknowledges))
                  && x'.frameRecords == (if RetiresOwn(s, er) && (x.partition ==> er.destroys) then 0 else x.frameRecords))
            && (er.admissionCloses && !x.partition && !x.cleanupToken ==> x'.frameRecords == 0 && !x'.profile)
  {
    RunKeepsInv(generation, es);
    hide Run, PublicationsFit, LockHeldByOne, ActiveBeginFits, ActiveEndFits, GateFollowsState, Isolation.Apply;
  }

  // ---------------------------------------------------------------- a capture from beginning to end

  /** An open capture with so many frames and nobody at the lock. */
  predicate Holds(s: State, n: nat) {
    && Inv(s) && s.state == (if n == 0 then Armed else Capturing) && s.lock.Free? && !s.fatal
    && s.evidence.capability && s.evidence.permits == 0 && s.evidence.frameRecords == n
  }

  lemma ActivationOpens(s: State)
    requires Inv(s) && s.state == Armed && s.lock.Free? && !s.fatal && s.evidence == NO_EVIDENCE
    ensures Holds(Step(s, Activate(Activates, NOTHING_FAILS)), 0)
  {
    StepKeeps(s, Activate(Activates, NOTHING_FAILS));
    hide EnterFailedClosed, PublicationsFit, LockHeldByOne, ActiveBeginFits, ActiveEndFits;
  }

  lemma AdmissionIs(s: State, n: nat)
    requires Holds(s, n)
    ensures Step(s, AdmitUpload) == s.(evidence := s.evidence.(permits := 1)) && TakesFrames(s)
  {
    hide Inv;
    LiveIsCurrent(s);
  }

  lemma CommitIs(s: State, n: nat)
    requires TakesFrames(s) && s.lock.Free? && s.evidence.permits == 1 && s.evidence.frameRecords == n
    ensures Step(s, CommitFrame(true)) == s.(state := Capturing, evidence := s.evidence.(frameRecords := n + 1))
  {
  }

  lemma ReleaseIs(s: State)
    requires s.evidence.permits == 1
    ensures Step(s, ReleasePermit) == s.(evidence := s.evidence.(permits := 0))
  {
  }

  lemma FrameComesIn(s: State, n: nat)
    requires Holds(s, n)
    ensures Holds(Step(Step(Step(s, AdmitUpload), CommitFrame(true)), ReleasePermit), n + 1)
  {
    hide Inv, Step;
    AdmissionIs(s, n);
    var s1 := Step(s, AdmitUpload);
    CommitIs(s1, n);
    var s2 := Step(s1, CommitFrame(true));
    ReleaseIs(s2);
    StepKeeps(s, AdmitUpload);
    StepKeeps(s1, CommitFrame(true));
    StepKeeps(s2, ReleasePermit);
  }

  lemma LiveIsCurrent(s: State)
    requires Inv(s) && IsLive(s.state)
    ensures s.epoch.Some? && s.epoch.value.generation == s.generation
  {
    hide PublicationsFit, LockHeldByOne, ActiveBeginFits, ActiveEndFits, GateFollowsState;
  }

  lemma SealedIsReady(s: State, n: nat)
    requires Holds(s, n) && n > 0
    ensures var s1 := Step(s, SealCall(BuildStarts, NOTHING_FAILS));
            var s' := Step(Step(s1, SealReturns(true, NOTHING_FAILS)), ProcessorFinishes);
            Inv(s') && s'.state == Ready && s'.evidence.frameRecords == n && s'.lock.Free?
  {
    hide Inv, EnterFailedClosed;
    var s1 := Step(s, SealCall(BuildStarts, NOTHING_FAILS));
    var s2 := Step(s1, SealReturns(true, NOTHING_FAILS));
    LiveIsCurrent(s);
    assert s1.state == BuildingAssertions && s1.lock.BySeal? && s2 == s1.(lock := Free);
    StepKeeps(s, SealCall(BuildStarts, NOTHING_FAILS));
    StepKeeps(s1, SealReturns(true, NOTHING_FAILS));
    StepKeeps(s2, ProcessorFinishes);
  }

  lemma {:induction false} FramesComeIn(s: State, n: nat, more: nat) returns (es: seq<Event>)
    requires Holds(s, n)
    ensures Holds(RunFrom(s, es), n + more)
    decreases more
  {
    hide Holds, Step;
    es := [];
    if more > 0 {
      FrameComesIn(s, n);
      var s1 := Step(s, AdmitUpload);
      var s2 := Step(s1, CommitFrame(true));
      var rest := FramesComeIn(Step(s2, ReleasePermit), n + 1, more - 1);
      RunFromStep(s2, ReleasePermit, rest);
      RunFromStep(s1, CommitFrame(true), [ReleasePermit] + rest);
      RunFromStep(s, AdmitUpload, [CommitFrame(true)] + ([ReleasePermit] + rest));
      es := [AdmitUpload] + ([CommitFrame(true)] + ([ReleasePermit] + rest));
    }
  }

  /** From a ready capture an undisturbed END leads back to normal work. */
  lemma ReadyEnds(s: State) returns (es: seq<Event>)
    requires Inv(s) && s.state == Ready && s.lock.Free?
    ensures RunFrom(s, es).state == Idle
  {
    hide Inv;
    assert s.epoch.Some? && s.generation in EndCandidates(s) by { LiveCanEnd(s); }
    ClaimShape(s);
    EndKeeps(s, Ran, s.epoch, None, true, true, NOTHING_FAILS);
    hide StepEnd;
    var rest := TrackReachesIdle(Claim(s), |s.transitions|, Claimed);
    var e := EndCall(Ran, s.epoch, None, true, true, NOTHING_FAILS);
    RunFromStep(s, e, rest);
    es := [e] + rest;
  }

  lemma LiveCanEnd(s: State)
    requires Inv(s) && s.state == Ready
    ensures s.epoch.Some? && s.generation in EndCandidates(s)
  {
    hide PublicationsFit, LockHeldByOne, ActiveBeginFits, ActiveEndFits, GateFollowsState;
  }

  lemma {:induction false} RunsConcat(s: State, a: seq<Event>, b: seq<Event>)
    ensures RunFrom(s, a + b) == RunFrom(RunFrom(s, a), b)
  {
    hide Step;
    if b == [] {
      assert a + b == a;
    } else {
      RunsConcat(s, a, b[..|b| - 1]);
      assert (a + b)[..|a + b| - 1] == a + b[..|b| - 1];
    }
  }

  /** A capture of any number of frames can become ready, and from there normal work is resumed. */
  lemma FullCircle(n: nat) returns (before: seq<Event>, after: seq<Event>)
    requires n > 0
    ensures Run(0, before).state == Ready && Run(0, before).evidence.frameRecords == n
    ensures RunFrom(Run(0, before), after).state == Idle
  {
    hide Step, Inv, Holds, RunFrom;
    var armed := BeginArms();
    RunKeepsInv(0, armed);
    var s0, activate := Run(0, armed), Activate(Activates, NOTHING_FAILS);
    ActivationOpens(s0);
    var frames := FramesComeIn(Step(s0, activate), 0, n);
    RunFromStep(s0, activate, frames);
    var opened_ := [activate] + frames;
    RunsConcat(InitialState(0), armed, opened_);
    var s1 := Run(0, armed + opened_);
    SealedIsReady(s1, n);
    var seal := SealCall(BuildStarts, NOTHING_FAILS);
    var s2 := Step(s1, seal);
    var s3 := Step(s2, SealReturns(true, NOTHING_FAILS));
    before := armed + opened_ + [seal] + [SealReturns(true, NOTHING_FAILS)] + [ProcessorFinishes];
    RunThen(0, armed + opened_, seal);
    RunThen(0, armed + opened_ + [seal], SealReturns(true, NOTHING_FAILS));
    RunThen(0, armed + opened_ + [seal] + [SealReturns(true, NOTHING_FAILS)], ProcessorFinishes);
    after := ReadyEnds(Run(0, before));
  }
}
