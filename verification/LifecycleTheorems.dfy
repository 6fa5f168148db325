/** The lifecycle's promises, for every interleaving and every answer of the environment. */
module LifecycleTheorems {
  import opened Basics
  import opened Isolation
  import opened Lifecycle
  import opened LifecycleSafety

  /** Normal application work is admitted exactly in Idle, and nothing of a capture exists there. */
  lemma GateOpenExactlyWhenIdle(generation: nat, es: seq<Event>)
    ensures var s := Run(generation, es);
            && (s.gate.open <==> s.state == Idle)
            && (s.state == Idle ==> s.epoch.None? && s.active.None? && s.lock == Free && s.evidence == NO_EVIDENCE)
            && s.gate.closeCount == s.gate.reopenCount + (if s.gate.open then 0 else 1)
  {
    RunKeepsInv(generation, es);
  }

  /** Published epochs rise strictly in sequence and generation, each one generation above its origin. */
  lemma PublicationsIncrease(generation: nat, es: seq<Event>)
    ensures var ps := Run(generation, es).published;
            && (forall i, j :: 0 <= i < j < |ps| ==>
                  && ps[i].epoch.captureSeq < ps[j].epoch.captureSeq
                  && ps[i].epoch.generation < ps[j].epoch.generation)
            && (forall i :: 0 <= i < |ps| ==> ps[i].epoch.generation == ps[i].origin + 1)
  {
    RunKeepsInv(generation, es);
  }

  // ---------------------------------------------------------------- superseded coroutines

  /** The coroutine a step belongs to, if it is a coroutine's own resumption. */
  function Owner(e: Event): Option<nat> {
    match e
    case Acquire(i, _, _) => Some(i)
    case StartRetirement(i, _) => Some(i)
    case Retire(i, _, _) => Some(i)
    case PublishQuiescing(i, _) => Some(i)
    case Drain(i, _, _, _, _) => Some(i)
    case CleanupDone(i, _, _) => Some(i)
    case PublishArmed(i, _, _, _) => Some(i)
    case PublishResumed(i, _, _, _, _) => Some(i)
    case Cancel(i, _) => Some(i)
    case _ => None
  }

  /** However a coroutine that is no longer active resumes, it moves nothing but its own retirement. */
  lemma SupersededIsInert(s: State, e: Event, id: nat)
    requires Inv(s) && Owner(e) == Some(id) && s.active != Some(id)
    ensures var s' := Step(s, e);
            && s'.state == s.state && s'.epoch == s.epoch && s'.gate == s.gate && s'.active == s.active
            && s'.evidence == s.evidence && s'.published == s.published && s'.captureSeq == s.captureSeq
            && s'.fatal == s.fatal && s'.quiescenceComplete == s.quiescenceComplete
            && (s'.generation != s.generation ==> e.Retire? && s.lock == ByTransition(id))
  {
    hide Inv;
    InvGivesCore(s);
    if id < |s.transitions| {
      if e.Retire? { SupersededRetire(s, id, e.outcome, e.er); } else { SupersededOther(s, e, id); }
    }
    hide Step;
  }

  predicate Inert(s: State, s': State) {
    s' == s.(transitions := s'.transitions, lock := s'.lock, retiring := s'.retiring)
  }

  lemma SupersededOther(s: State, e: Event, id: nat)
    requires Owner(e) == Some(id) && !e.Retire? && id < |s.transitions| && s.active != Some(id)
    ensures Inert(s, Step(s, e))
  {
    assert Inert(s, Leave(s, id));
    hide EnterFailedClosed, DestroyUnderFence, Apply, Accepts;
  }

  lemma SupersededRetire(s: State, id: nat, outcome: RetireOutcome, er: Erasure)
    requires id < |s.transitions| && s.active != Some(id)
    ensures var s' := StepRetire(s, id, outcome, er);
            s' == s.(transitions := s'.transitions, lock := s'.lock, retiring := s'.retiring, generation := s'.generation)
            && (s'.generation != s.generation ==> s.transitions[id].pc == Retiring)
  {
    hide EraseFailed, PrepareEnd;
  }

  /** Once superseded, always superseded: no later step makes the transition active again. */
  lemma {:induction false} SupersededForever(s: State, es: seq<Event>, id: nat)
    requires id < |s.transitions| && s.active != Some(id)
    ensures var s' := RunFrom(s, es);
            s'.active != Some(id) && id < |s'.transitions|
  {
    if es != [] {
      SupersededForever(s, es[..|es| - 1], id);
      StepAdvances(RunFrom(s, es[..|es| - 1]), es[|es| - 1]);
      hide Step;
    }
  }

  // ---------------------------------------------------------------- binding an END

  /**
   An END claimed from anywhere but FailedClosed, in particular one that overtook a running BEGIN,
   finds the current generation among its candidates when it binds: it never fails there.
   */
  lemma EndAlwaysBinds(generation: nat, es: seq<Event>, id: nat, er: Erasure)
    requires var s := Run(generation, es);
             && id < |s.transitions| && s.active == Some(id) && s.lock == Free
             && s.transitions[id].kind == End && s.transitions[id].pc == Claimed
             && s.transitions[id].claimedFrom != FailedClosed
    ensures var s := Run(generation, es);
            var s' := Step(s, Acquire(id, true, er));
            && s.generation in s.transitions[id].candidates
            && s'.state == Ending && s'.active == Some(id) && s'.lock == ByTransition(id)
            && s'.transitions[id].pc == BeforeRetirement && s'.transitions[id].origin == Some(s.generation)
            && s'.generation == s.generation
  {
    RunKeepsInv(generation, es);
  }

  /** A bound END that is still active starts its retirement at the generation it bound. */
  lemma BoundEndKeepsGeneration(generation: nat, es: seq<Event>, id: nat, er: Erasure)
    requires var s := Run(generation, es);
             && id < |s.transitions| && s.active == Some(id)
             && s.transitions[id].kind == End && s.transitions[id].pc == BeforeRetirement
    ensures var s := Run(generation, es);
            var s' := Step(s, StartRetirement(id, er));
            s'.transitions[id].pc == Retiring && s'.state == Ending && s'.active == Some(id)
  {
    RunKeepsInv(generation, es);
  }

  const NOTHING_FAILS := Erasure(true, true, true, true)

  /** An END claim that goes through: live session, release bound, store admission closed. */
  function Claim(s: State): State {
    StepEnd(s, Ran, s.epoch, if s.epoch.Some? then None else Some(s.captureSeq), true, true, NOTHING_FAILS)
  }

  /** The claimed END meets a candidate generation whenever it gets to bind. */
  ghost predicate BindsHoweverItRuns(s: State) {
    var id := |s.transitions|;
    forall es :: var s' := RunFrom(Claim(s), es);
      s'.active == Some(id) && id < |s'.transitions| && s'.transitions[id].pc == Claimed ==>
        s'.generation in s'.transitions[id].candidates
  }

  lemma ClaimShape(s: State)
    requires s.state != Idle && s.state != Ending
    ensures var (s', id) := (Claim(s), |s.transitions|);
            && s'.active == Some(id) && s'.state == Ending && s'.generation == s.generation && s'.lock == s.lock
            && !s'.evidence.workers
            && s'.transitions == s.transitions + [s'.transitions[id]]
            && s'.transitions[id].pc == Claimed && s'.transitions[id].kind == End
            && s'.transitions[id].candidates == EndCandidates(s) && s'.transitions[id].canBind == CanBind(s)
  {
    hide FailTransition, EnterFailedClosed, EndCandidates, CanBind;
  }

  lemma BindsIfItCan(s: State, es: seq<Event>)
    requires Inv(s) && s.state != Idle && s.state != Ending && CanBind(s)
    ensures var (s', id) := (RunFrom(Claim(s), es), |s.transitions|);
            s'.active == Some(id) && id < |s'.transitions| && s'.transitions[id].pc == Claimed ==>
              s'.generation in s'.transitions[id].candidates
  {
    var s1 := Claim(s);
    ClaimShape(s);
    EndKeeps(s, Ran, s.epoch, if s.epoch.Some? then None else Some(s.captureSeq), true, true, NOTHING_FAILS);
    hide Claim, CanBind, EndCandidates;
    RunFromKeepsInv(s1, es);
    ClaimIsRemembered(s1, es, |s.transitions|);
  }

  lemma RetireRaises(s: State, id: nat)
    requires id < |s.transitions| && s.transitions[id].pc == Retiring && s.retiring
    ensures var s' := StepRetire(s, id, RetireSucceeds, NOTHING_FAILS);
            s'.generation == s.generation + 1 && s'.active == s.active && |s'.transitions| == |s.transitions|
            && forall i :: 0 <= i < |s.transitions| && i != id ==> s'.transitions[i] == s.transitions[i]
  {
    hide FailTransition, EnterFailedClosed;
  }

  lemma FailsIfItCannot(s: State)
    requires Inv(s) && s.state != Idle && s.state != Ending && !CanBind(s)
    ensures !BindsHoweverItRuns(s)
  {
    var s1 := Claim(s);
    ClaimShape(s);
    hide Claim, EnterFailedClosed, Leave;
    assert RunFrom(s1, []) == s1;
    if s.generation in EndCandidates(s) {
      var retire := Retire(s.lock.id, RetireSucceeds, NOTHING_FAILS);
      assert s1.lock == s.lock;
      assert [retire][..0] == [];
      assert RunFrom(s1, [retire]) == Step(s1, retire);
      RetireRaises(s1, s.lock.id);
    }
  }

  /**
   From FailedClosed the promise can fail, since a BEGIN suspended inside its retirement may still
   raise the generation the END read. It holds exactly when the guard holds at the claim.
   */
  lemma EndBindsIffItCan(s: State)
    requires Inv(s) && s.state != Idle && s.state != Ending
    ensures BindsHoweverItRuns(s) <==> CanBind(s)
  {
    if CanBind(s) {
      forall es | true
        ensures var (s', id) := (RunFrom(Claim(s), es), |s.transitions|);
                s'.active == Some(id) && id < |s'.transitions| && s'.transitions[id].pc == Claimed ==>
                  s'.generation in s'.transitions[id].candidates
      {
        BindsIfItCan(s, es);
      }
    } else {
      FailsIfItCannot(s);
    }
    hide CanBind, Inv, Claim;
  }

  /** What an END recorded at its claim stays as it was while it waits for the lock. */
  lemma {:induction false} ClaimIsRemembered(s: State, es: seq<Event>, id: nat)
    requires Inv(s) && id < |s.transitions| && s.transitions[id].pc == Claimed
    ensures var s' := RunFrom(s, es);
            && id < |s'.transitions|
            && (s'.transitions[id].pc == Claimed ==> s'.transitions[id] == s.transitions[id])
            && (s.transitions[id].kind == End ==> s'.transitions[id].kind == End)
  {
    if es != [] {
      ClaimIsRemembered(s, es[..|es| - 1], id);
      StepAdvances(RunFrom(s, es[..|es| - 1]), es[|es| - 1]);
      assert Waits(RunFrom(s, es[..|es| - 1]).transitions[id], RunFrom(s, es).transitions[id]);
    }
  }

  lemma RunThen(generation: nat, es: seq<Event>, e: Event)
    ensures Run(generation, es + [e]) == Step(Run(generation, es), e)
  {
    assert (es + [e])[..|es|] == es;
  }

  /** The guard does fail in a reachable state: a BEGIN in its retirement was failed closed over. */
  lemma GuardCanFail()
    ensures exists es :: var s := Run(0, es); s.state == FailedClosed && !CanBind(s)
  {
    hide *;
    var es := FirstRetires();
    var e := BeginCall(NotRun, true, true, NOTHING_FAILS);
    RunThen(0, es, e);
    FailedOverRetirement();
    assert !CanBind(Run(0, es + [e]));
  }

  /** The first BEGIN, suspended in its retirement. */
  lemma FirstRetires() returns (es: seq<Event>)
    ensures Run(0, es) == BeginAt(Retiring)
  {
    hide *;
    FirstBegin();
    BeginNextIs();
    BeginProceeds(Claimed);
    BeginProceeds(BeforeRetirement);
    NothingRun();
    es := [];
    RunThen(0, es, BeginCall(Ran, true, true, NOTHING_FAILS));
    es := es + [BeginCall(Ran, true, true, NOTHING_FAILS)];
    RunThen(0, es, BeginNext(Claimed).0);
    es := es + [BeginNext(Claimed).0];
    RunThen(0, es, BeginNext(BeforeRetirement).0);
    es := es + [BeginNext(BeforeRetirement).0];
  }

  lemma BeginNextIs()
    ensures BeginNext(Claimed).1 == BeforeRetirement && BeginNext(BeforeRetirement).1 == Retiring
  {
  }

  lemma NothingRun()
    ensures Run(0, []) == InitialState(0)
  {
  }

  lemma FirstBegin()
    ensures Step(InitialState(0), BeginCall(Ran, true, true, NOTHING_FAILS)) == BeginAt(Claimed)
  {
    hide EnterFailedClosed;
  }

  /** A second BEGIN, for a dead session, fails closed over a BEGIN that is suspended in its retirement. */
  lemma FailedOverRetirement()
    ensures var s := Step(BeginAt(Retiring), BeginCall(NotRun, true, true, NOTHING_FAILS));
            s.state == FailedClosed && !CanBind(s)
  {
  }

  // ---------------------------------------------------------------- leaving FailedClosed

  /**
   A failure that already retired the capture's generation: the epoch every END must name lies below
   the current generation, so no END can bind.
   */
  predicate Stranded(s: State) {
    && s.epoch.Some? && s.generation > s.epoch.value.generation
    && (s.state == FailedClosed || (s.state == Ending && s.active.Some? && s.active.value < |s.transitions|
                                    && s.transitions[s.active.value].pc == Claimed))
  }

  /** The first BEGIN of a fresh coordinator, undisturbed, suspended at `pc`. */
  function BeginAt(pc: Pc): State {
    var retired := HasRetired(pc);
    State(if pc.Claimed? || pc.BeforeRetirement? || pc.Retiring? || pc.Retired? then Entering else Quiescing,
          Some(0), None, 1, if retired then 1 else 0, pc.Retiring?, Apply(INITIAL_GATE, Close), pc.Verified?, false,
          if pc.Claimed? then Free else ByTransition(0),
          [Transition(Begin, 1, Idle, true, [0], Some(0), Some(1), if retired then Some(0) else None,
                      pc.Cleaning? || pc.Verified?, pc)],
          NO_EVIDENCE, [])
  }

  function BeginNext(pc: Pc): (Event, Pc) {
    match pc
    case Claimed => (Acquire(0, true, NOTHING_FAILS), BeforeRetirement)
    case BeforeRetirement => (StartRetirement(0, NOTHING_FAILS), Retiring)
    case Retiring => (Retire(0, RetireSucceeds, NOTHING_FAILS), Retired)
    case Retired => (PublishQuiescing(0, NOTHING_FAILS), Quiesced)
    case Quiesced => (Drain(0, true, true, true, NOTHING_FAILS), Cleaning)
    case Cleaning => (CleanupDone(0, true, NOTHING_FAILS), Verified)
    case _ => (PublishArmed(0, Ran, true, NOTHING_FAILS), Exited)
  }

  lemma BeginProceeds(pc: Pc)
    requires !pc.Exited? && !pc.Verified?
    ensures Step(BeginAt(pc), BeginNext(pc).0) == BeginAt(BeginNext(pc).1)
  {
    hide EnterFailedClosed, FailTransition;
  }

  predicate ArmedOnce(s: State) {
    && s.state == Armed && s.epoch == Some(Epoch(1, 1)) && s.generation == 1 && !s.retiring && s.active == None
    && s.evidence == NO_EVIDENCE && s.published == [Publication(Epoch(1, 1), 0)] && s.lock == Free && !s.fatal
  }

  lemma {:induction false} BeginReaches(pc: Pc) returns (es: seq<Event>)
    requires !pc.Exited?
    ensures ArmedOnce(RunFrom(BeginAt(pc), es))
    decreases match pc case Claimed => 6 case BeforeRetirement => 5 case Retiring => 4 case Retired => 3
                       case Quiesced => 2 case Cleaning => 1 case _ => 0
  {
    hide EnterFailedClosed, FailTransition;
    var (e, next) := BeginNext(pc);
    if pc == Verified {
      es := [e];
      assert RunFrom(BeginAt(pc), []) == BeginAt(pc);
      assert ArmedOnce(Step(BeginAt(pc), e));
    } else {
      BeginProceeds(pc);
      var rest := BeginReaches(next);
      RunFromStep(BeginAt(pc), e, rest);
      es := [e] + rest;
    }
  }

  /** An undisturbed BEGIN of a fresh coordinator publishes ARMED with capture sequence 1, one generation up. */
  lemma BeginArms() returns (es: seq<Event>)
    ensures ArmedOnce(Run(0, es))
  {
    hide EnterFailedClosed;
    var e := BeginCall(Ran, true, true, NOTHING_FAILS);
    assert Step(InitialState(0), e) == BeginAt(Claimed);
    var rest := BeginReaches(Claimed);
    RunFromStep(InitialState(0), e, rest);
    es := [e] + rest;
  }

  lemma ArmedMayStrand(s: State)
    requires ArmedOnce(s)
    ensures Stranded(Step(Step(s, Activate(Activates, NOTHING_FAILS)), RuntimeFailure(NOTHING_FAILS)))
  {
    assert DestroyUnderFence(PrepareEnd(Step(s, Activate(Activates, NOTHING_FAILS)).evidence, true, true).0, s.epoch, 1, true, true).1;
  }

  /** The stranding is real: one activated capture whose failure retires its generation. */
  lemma StrandingIsReachable() returns (es: seq<Event>)
    ensures Stranded(Run(0, es))
  {
    var armed := BeginArms();
    var activate, fail := Activate(Activates, NOTHING_FAILS), RuntimeFailure(NOTHING_FAILS);
    ArmedMayStrand(Run(0, armed));
    hide Step, Stranded;
    RunThen(0, armed, activate);
    RunThen(0, armed + [activate], fail);
    es := armed + [activate] + [fail];
  }

  lemma StrandedStep(s: State, e: Event)
    requires Inv(s) && Stranded(s)
    ensures Stranded(Step(s, e))
  {
    hide *;
    if Owner(e).None? {
      StrandedBeside(s, e);
    } else if s.active == Owner(e) {
      StrandedEnd(s, e, Owner(e).value);
    } else {
      StrandedOther(s, e, Owner(e).value);
    }
  }

  lemma StrandedBeside(s: State, e: Event)
    requires Inv(s) && Stranded(s) && Owner(e).None?
    ensures Stranded(Step(s, e))
  {
    hide EnterFailedClosed, PublicationsFit, LockHeldByOne, ActiveBeginFits;
  }

  lemma StrandedOther(s: State, e: Event, id: nat)
    requires Inv(s) && Stranded(s) && Owner(e) == Some(id) && s.active != Some(id)
    ensures Stranded(Step(s, e))
  {
    SupersededIsInert(s, e, id);
    StepAdvances(s, e);
    hide EnterFailedClosed, Inv;
  }

  lemma StrandedEnd(s: State, e: Event, id: nat)
    requires Inv(s) && Stranded(s) && Owner(e) == Some(id) && s.active == Some(id)
    ensures Stranded(Step(s, e))
  {
    hide EnterFailedClosed;
    assert s.transitions[id].kind == End && s.transitions[id].candidates == [s.epoch.value.generation];
    hide Inv;
  }

  lemma {:induction false} StrandedForever(s: State, es: seq<Event>)
    requires Inv(s) && Stranded(s)
    ensures Stranded(RunFrom(s, es))
  {
    if es != [] {
      StrandedForever(s, es[..|es| - 1]);
      RunFromKeepsInv(s, es[..|es| - 1]);
      StrandedStep(RunFrom(s, es[..|es| - 1]), es[|es| - 1]);
    }
  }

  /** The active END is at `pc` with the capture's workers detached. */
  predicate OnTrack(s: State, id: nat, pc: Pc) {
    && Inv(s) && s.active == Some(id) && id < |s.transitions|
    && s.transitions[id].kind == End && s.transitions[id].pc == pc
    && !s.evidence.workers && (pc == Cleaning ==> s.transitions[id].drained)
  }

  function NextEvent(id: nat, pc: Pc): Event {
    match pc
    case Claimed => Acquire(id, true, NOTHING_FAILS)
    case BeforeRetirement => StartRetirement(id, NOTHING_FAILS)
    case Retiring => Retire(id, RetireSucceeds, NOTHING_FAILS)
    case Retired => Drain(id, true, true, true, NOTHING_FAILS)
    case Cleaning => CleanupDone(id, true, NOTHING_FAILS)
    case _ => PublishResumed(id, Ran, true, Resumes, NOTHING_FAILS)
  }

  function NextPc(pc: Pc): Pc {
    match pc
    case Claimed => BeforeRetirement
    case BeforeRetirement => Retiring
    case Retiring => Retired
    case Retired => Cleaning
    case _ => Verified
  }

  lemma TrackMoves(s: State, id: nat, pc: Pc)
    requires OnTrack(s, id, pc) && !pc.Verified?
    requires pc == Claimed ==> s.lock == Free && s.generation in s.transitions[id].candidates
    ensures var s' := Step(s, NextEvent(id, pc));
            && s'.active == Some(id) && id < |s'.transitions|
            && s'.transitions[id].kind == End && s'.transitions[id].pc == NextPc(pc)
            && !s'.evidence.workers && (NextPc(pc) == Cleaning ==> s'.transitions[id].drained)
  {
    hide FailTransition, EnterFailedClosed, Leave, PublicationsFit, ActiveBeginFits;
    assert s.state == Ending && (pc != Claimed ==> s.lock == ByTransition(id));
    hide LockHeldByOne;
  }

  lemma StaysOnTrack(s: State, id: nat, pc: Pc)
    requires OnTrack(s, id, pc) && !pc.Verified?
    requires pc == Claimed ==> s.lock == Free && s.generation in s.transitions[id].candidates
    ensures OnTrack(Step(s, NextEvent(id, pc)), id, NextPc(pc))
  {
    hide Step, Inv;
    StepKeeps(s, NextEvent(id, pc));
    TrackMoves(s, id, pc);
  }

  lemma TrackEndsIdle(s: State, id: nat)
    requires OnTrack(s, id, Verified)
    ensures Step(s, NextEvent(id, Verified)).state == Idle
  {
    assert s.state == Ending && Erased(s.evidence) && EvidenceClear(s.evidence);
    hide FailTransition, EnterFailedClosed;
  }

  /** From the point `pc` an undisturbed END reaches IDLE. */
  lemma {:induction false} TrackReachesIdle(s: State, id: nat, pc: Pc) returns (es: seq<Event>)
    requires OnTrack(s, id, pc)
    requires pc == Claimed ==> s.lock == Free && s.generation in s.transitions[id].candidates
    ensures RunFrom(s, es).state == Idle
    decreases match pc case Claimed => 5 case BeforeRetirement => 4 case Retiring => 3 case Retired => 2
                       case Cleaning => 1 case _ => 0
  {
    var e := NextEvent(id, pc);
    if pc == Verified {
      TrackEndsIdle(s, id);
      es := [e];
    } else {
      StaysOnTrack(s, id, pc);
      var rest := TrackReachesIdle(Step(s, e), id, NextPc(pc));
      RunFromStep(s, e, rest);
      es := [e] + rest;
    }
  }

  lemma {:induction false} RunFromStep(s: State, e: Event, es: seq<Event>)
    ensures RunFrom(s, [e] + es) == RunFrom(Step(s, e), es)
  {
    hide Step;
    if es != [] {
      RunFromStep(s, e, es[..|es| - 1]);
      assert ([e] + es)[..|es|] == [e] + es[..|es| - 1];
    } else {
      assert ([e] + es)[..0] == [];
    }
  }

  predicate FreedBy(s: State, e: Event) {
    var s' := Step(s, e);
    s'.state == FailedClosed && !Stranded(s') && s'.lock == Free
  }

  lemma SealFrees(s: State)
    requires Inv(s) && s.state == FailedClosed && !Stranded(s) && s.lock == BySeal
    ensures FreedBy(s, SealReturns(true, NOTHING_FAILS))
  {
    hide EnterFailedClosed, Inv;
  }

  lemma TransitionFrees(s: State)
    requires Inv(s) && s.state == FailedClosed && !Stranded(s) && s.lock.ByTransition?
    ensures FreedBy(s, if s.retiring then Retire(s.lock.id, RetireFails, NOTHING_FAILS) else Cancel(s.lock.id, NOTHING_FAILS))
  {
    var id := s.lock.id;
    InvGivesCore(s);
    assert id < |s.transitions| && InLock(s.transitions[id].pc) && s.active == None;
    assert s.retiring <==> s.transitions[id].pc == Retiring;
    hide EnterFailedClosed, Inv, Core;
  }

  /** What holds the operation lock after a failure can always be made to let go of it. */
  lemma LockCanBeFreed(s: State) returns (e: Event)
    requires Inv(s) && s.state == FailedClosed && !Stranded(s) && s.lock != Free
    ensures Inv(Step(s, e)) && FreedBy(s, e)
  {
    if s.lock.BySeal? {
      e := SealReturns(true, NOTHING_FAILS);
      SealFrees(s);
    } else {
      e := if s.retiring then Retire(s.lock.id, RetireFails, NOTHING_FAILS) else Cancel(s.lock.id, NOTHING_FAILS);
      TransitionFrees(s);
    }
    hide Step, FreedBy;
    StepKeeps(s, e);
  }

  /**
   FAILED_CLOSED is not terminal: IDLE can be reached from it again exactly when the failure did not
   retire the capture's own generation.
   */
  lemma RecoversIffNotStranded(s: State)
    requires Inv(s) && s.state == FailedClosed
    ensures (exists es :: RunFrom(s, es).state == Idle) <==> !Stranded(s)
  {
    if Stranded(s) {
      forall es | true ensures RunFrom(s, es).state != Idle {
        StrandedForever(s, es);
      }
    } else if s.lock == Free {
      var es := RecoveryRun(s);
    } else {
      var e := LockCanBeFreed(s);
      var es := RecoveryRun(Step(s, e));
      RunFromStep(s, e, es);
    }
    hide Inv;
  }

  lemma RecoveryRun(s: State) returns (es: seq<Event>)
    requires Inv(s) && s.state == FailedClosed && !Stranded(s) && s.lock == Free
    ensures RunFrom(s, es).state == Idle
  {
    var seqArg := if s.epoch.Some? then None else Some(s.captureSeq);
    var e := EndCall(Ran, s.epoch, seqArg, true, true, NOTHING_FAILS);
    assert s.generation in EndCandidates(s);
    ClaimShape(s);
    EndKeeps(s, Ran, s.epoch, seqArg, true, true, NOTHING_FAILS);
    hide StepEnd, Inv;
    var rest := TrackReachesIdle(Claim(s), |s.transitions|, Claimed);
    RunFromStep(s, e, rest);
    es := [e] + rest;
  }
}
