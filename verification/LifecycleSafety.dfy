/** What every interleaving of the lifecycle's steps keeps. */
module LifecycleSafety {
  import opened Basics
  import opened Isolation
  import opened Lifecycle

  // ---------------------------------------------------------------- the invariant, clause by clause

  predicate GateFollowsState(s: State) {
    && Balanced(s.gate)
    && (s.gate.open <==> s.state == Idle)
    && (s.state == Idle ==> s.active.None? && s.epoch.None? && EvidenceClear(s.evidence) && s.lock == Free)
  }

  predicate ActiveInBounds(s: State) {
    s.active.Some? ==> s.active.value < |s.transitions|
  }

  /** Nothing of a capture is left in the store or in the coordinator's metadata. */
  predicate Erased(e: Evidence) {
    !e.partition && !e.cleanupToken && e.frameRecords == 0 && !e.profile
  }

  /** Two evidence states an END or a failure without an epoch cannot tell apart. */
  predicate SameErasure(e: Evidence, e': Evidence) {
    && e'.partition == e.partition && e'.cleanupToken == e.cleanupToken
    && e'.frameRecords == e.frameRecords && e'.profile == e.profile
  }

  /** The state names the kind of the active transition. */
  predicate ActiveFitsState(s: State) {
    && ActiveInBounds(s)
    && (s.active.Some? <==> (s.state.Entering? || s.state.Quiescing? || s.state.Ending?))
    && (s.active.Some? ==>
          var t := s.transitions[s.active.value];
          && t.pc != Exited
          && (t.kind == End <==> s.state == Ending))
  }

  /** Exactly one coroutine is past the operation lock, and it is the lock's holder. */
  predicate LockHeldByOne(s: State) {
    && (forall i :: 0 <= i < |s.transitions| ==>
          (InLock(s.transitions[i].pc) <==> s.lock == ByTransition(i)))
    && (s.lock.ByTransition? ==> s.lock.id < |s.transitions|)
    && (s.retiring <==> s.lock.ByTransition? && s.transitions[s.lock.id].pc == Retiring)
    && (IsLive(s.state) ==> !s.lock.ByTransition?)
  }

  /** A live state belongs to a published epoch of the current generation. */
  predicate EpochFitsState(s: State) {
    && (IsLive(s.state) ==> s.epoch.Some? && s.epoch.value.generation == s.generation)
    && (s.epoch.Some? ==> s.published != [] && s.epoch.value == s.published[|s.published| - 1].epoch)
    && ((s.state.Idle? || s.state.Entering? || s.state.Quiescing?) ==> s.epoch.None?)
    && (s.epoch.None? ==> Erased(s.evidence))
    && (s.evidence.capability || s.evidence.permits > 0 ==> IsLive(s.state))
  }

  /** An active BEGIN sits exactly one retirement below the generation it will publish. */
  predicate ActiveBeginFits(s: State)
    requires ActiveFitsState(s)
  {
    s.active.Some? && s.transitions[s.active.value].kind == Begin ==>
      var t := s.transitions[s.active.value];
      && (s.lock == Free || s.lock == ByTransition(s.active.value))
      && t.captureSeq == s.captureSeq
      && t.origin.Some? && t.target == Some(t.origin.value + 1)
      && (s.state == Quiescing <==> (t.pc.Quiesced? || t.pc.Cleaning? || t.pc.Verified?))
      && ((t.pc.Claimed? || t.pc.BeforeRetirement? || t.pc.Retiring?) ==> s.generation == t.origin.value && t.fence.None?)
      && (HasRetired(t.pc) ==> s.generation == t.origin.value + 1 && t.fence == t.origin)
  }

  /** An active END either can still bind the current generation or has bound it. */
  predicate ActiveEndFits(s: State)
    requires ActiveFitsState(s)
  {
    s.active.Some? && s.transitions[s.active.value].kind == End ==>
      var t := s.transitions[s.active.value];
      && (t.pc == Claimed ==>
            && t.fence.None?
            && (s.epoch.Some? ==> t.candidates == [s.epoch.value.generation])
            && (t.claimedFrom != FailedClosed ==> t.canBind)
            && (t.canBind ==> s.generation in t.candidates)
            && (t.canBind && s.retiring ==> s.generation + 1 in t.candidates))
      && ((t.pc.BeforeRetirement? || t.pc.Retiring?) ==>
            && t.fence.None? && t.origin == Some(s.generation) && t.target == Some(s.generation + 1)
            && (s.epoch.Some? ==> s.epoch.value.generation == s.generation))
      && (HasRetired(t.pc) ==>
            && t.origin.Some? && t.fence == t.origin && t.target == Some(s.generation)
            && s.generation == t.origin.value + 1
            && (s.epoch.Some? ==> s.epoch.value.generation == t.origin.value))
      && t.pc != Quiesced
      && (t.pc.Cleaning? || t.pc.Verified? ==> Erased(s.evidence))
      && (t.pc == Verified ==> s.epoch.None?)
  }

  predicate Increasing(ps: seq<Publication>) {
    && (forall i, j :: 0 <= i < j < |ps| ==>
          && ps[i].epoch.captureSeq < ps[j].epoch.captureSeq
          && ps[i].epoch.generation < ps[j].epoch.generation)
    && (forall i :: 0 <= i < |ps| ==> ps[i].epoch.generation == ps[i].origin + 1)
  }

  /** Publications increase strictly and stay below what an active BEGIN would publish. */
  predicate PublicationsFit(s: State)
    requires ActiveFitsState(s)
  {
    && Increasing(s.published)
    && (forall i :: 0 <= i < |s.published| ==>
          && s.published[i].epoch.captureSeq <= s.captureSeq
          && s.published[i].epoch.generation <= s.generation)
    && (s.active.Some? && s.transitions[s.active.value].kind == Begin ==>
          forall i :: 0 <= i < |s.published| ==>
            && s.published[i].epoch.captureSeq < s.captureSeq
            && (s.transitions[s.active.value].origin.Some? ==>
                  s.published[i].epoch.generation <= s.transitions[s.active.value].origin.value))
  }

  predicate Inv(s: State) {
    && GateFollowsState(s)
    && ActiveFitsState(s)
    && LockHeldByOne(s)
    && EpochFitsState(s)
    && ActiveBeginFits(s)
    && ActiveEndFits(s)
    && PublicationsFit(s)
  }

  lemma InitialInv(generation: nat)
    ensures Inv(InitialState(generation))
  {
  }

  // ---------------------------------------------------------------- failing closed and leaving

  /** All that failing closed relies on; it holds in the middle of every stretch. */
  predicate Core(s: State) {
    && Balanced(s.gate)
    && (forall i :: 0 <= i < |s.transitions| ==>
          (InLock(s.transitions[i].pc) <==> s.lock == ByTransition(i)))
    && (s.lock.ByTransition? ==> s.lock.id < |s.transitions|)
    && (s.retiring <==> s.lock.ByTransition? && s.transitions[s.lock.id].pc == Retiring)
    && (s.epoch.Some? ==> s.published != [] && s.epoch.value == s.published[|s.published| - 1].epoch)
    && (s.epoch.None? ==> Erased(s.evidence))
    && Increasing(s.published)
    && (forall i :: 0 <= i < |s.published| ==>
          && s.published[i].epoch.captureSeq <= s.captureSeq
          && s.published[i].epoch.generation <= s.generation)
  }

  lemma InvGivesCore(s: State)
    requires Inv(s)
    ensures Core(s) && ActiveInBounds(s)
  {
  }

  /** What failing closed does to the state, whatever the erasure achieves. */
  predicate FailedFrom(s: State, s': State) {
    && s'.state == FailedClosed && s'.active == None
    && s'.transitions == s.transitions && s'.lock == s.lock && s'.retiring == s.retiring
    && s'.published == s.published && s'.epoch == s.epoch && s'.captureSeq == s.captureSeq
    && s.generation <= s'.generation <= s.generation + 1
    && (s.epoch.None? ==> s'.generation == s.generation)
    && (Balanced(s.gate) ==> Balanced(s'.gate) && !s'.gate.open)
    && !s'.evidence.capability && s'.evidence.permits == 0
    && (s.epoch.None? ==> SameErasure(s.evidence, s'.evidence))
  }

  lemma EraseShape(s: State, fence: Option<nat>, er: Erasure)
    ensures var s' := EraseFailed(s, fence, er);
            && s' == s.(generation := s'.generation, evidence := s'.evidence)
            && s.generation <= s'.generation <= s.generation + 1
            && (s.epoch.None? ==> s' == s)
            && s'.evidence.capability == s.evidence.capability && s'.evidence.permits == s.evidence.permits
  {
  }

  lemma FailClosedShape(s: State, id: Option<nat>, er: Erasure)
    requires id.Some? ==> id.value < |s.transitions| && s.active == id
    ensures FailedFrom(s, EnterFailedClosed(s, id, er))
  {
    var (evidence, prepared) := PrepareEnd(s.evidence, s.epoch.Some?, er.admissionCloses);
    var s' := s.(
      evidence := evidence,
      gate := Apply(Apply(s.gate, Close), DisableKeepalive),
      fatal := true,
      state := FailedClosed,
      active := None,
      quiescenceComplete := false);
    EraseShape(s', if id.Some? then s.transitions[id.value].fence else None, er);
    hide EraseFailed;
  }

  lemma FailClosedKeeps(s: State, id: Option<nat>, er: Erasure)
    requires Core(s)
    requires id.Some? ==> id.value < |s.transitions| && s.active == id
    ensures Inv(EnterFailedClosed(s, id, er)) && FailedFrom(s, EnterFailedClosed(s, id, er))
  {
    FailClosedShape(s, id, er);
    hide EnterFailedClosed;
  }

  lemma LeaveKeepsLock(s: State, id: nat)
    requires LockHeldByOne(s) && id < |s.transitions|
    ensures LockHeldByOne(Leave(s, id))
  {
  }

  lemma LeaveKeeps(s: State, id: nat)
    requires Inv(s) && id < |s.transitions| && s.active != Some(id)
    ensures Inv(Leave(s, id))
  {
    LeaveKeepsLock(s, id);
    hide LockHeldByOne;
  }

  lemma FailTransitionKeeps(s: State, id: nat, er: Erasure)
    requires id < |s.transitions|
    requires if s.active == Some(id) then Core(s) else Inv(s)
    ensures Inv(FailTransition(s, id, er))
  {
    if s.active == Some(id) {
      FailClosedKeeps(s, Some(id), er);
    }
    LeaveKeeps(EnterFailedClosed(s, Some(id), er), id);
  }

  /** How one coroutine may move: its pc, the operation lock and the retirement flag move together. */
  predicate Moves(s: State, s': State, id: nat) {
    && id < |s.transitions| && |s'.transitions| == |s.transitions|
    && s'.transitions == s.transitions[id := s'.transitions[id]]
    && s'.transitions[id].kind == s.transitions[id].kind
    && (InLock(s'.transitions[id].pc) <==> s'.lock == ByTransition(id))
    && (s'.lock == s.lock || (s.lock == Free && s'.lock == ByTransition(id)))
    && (InLock(s.transitions[id].pc) || s.lock == Free)
    && (s'.retiring <==> s'.transitions[id].pc == Retiring)
    && (s.transitions[id].kind == Begin ==> s'.transitions[id].origin == s.transitions[id].origin)
    && s'.published == s.published && s'.captureSeq == s.captureSeq && s'.generation >= s.generation
  }

  lemma MoveKeeps(s: State, s': State, id: nat)
    requires Inv(s) && Moves(s, s', id)
    requires IsLive(s'.state) ==> IsLive(s.state) && s'.lock == s.lock
    requires s'.active == s.active
    requires ActiveFitsState(s')
    ensures LockHeldByOne(s') && PublicationsFit(s')
  {
  }

  lemma MoveGivesCore(s: State, s': State, id: nat)
    requires Inv(s) && Moves(s, s', id)
    requires s'.gate == s.gate && s'.epoch == s.epoch
    requires s.epoch.None? ==> SameErasure(s.evidence, s'.evidence)
    ensures Core(s')
  {
  }

  // ---------------------------------------------------------------- one lemma per stretch

  lemma BeginKeeps(s: State, live: SessionLive, preconditions: bool, controllerUsable: bool, er: Erasure)
    requires Inv(s)
    ensures Inv(StepBegin(s, live, preconditions, controllerUsable, er))
  {
    hide EnterFailedClosed, FailTransition;
    if live == NotRun {
      FailClosedKeeps(s, None, er);
    } else {
      var s' := BeginClaim(s, live, preconditions, controllerUsable, er);
      assert Core(s') by {
        if !preconditions || (s.state == Idle && (s.captureSeq >= UINT64_MAX || !controllerUsable)) {
          FailClosedKeeps(s, None, er);
        }
      }
      if live == RanThenReportedDead {
        FailClosedKeeps(s', None, er);
      } else if !preconditions || (s.state == Idle && (s.captureSeq >= UINT64_MAX || !controllerUsable)) {
        FailClosedKeeps(s, None, er);
      }
    }
  }

  /** A claimed END takes over from whatever was active and may still bind. */
  lemma EndClaimKeeps(s: State, id: nat, t: Transition, evidence: Evidence)
    requires Inv(s) && id == |s.transitions| && (!s.state.Idle? && !s.state.Ending?)
    requires t == Transition(End, s.captureSeq, s.state, CanBind(s), EndCandidates(s), None, None, None, false, Claimed)
    requires SameErasure(s.evidence, evidence)
    ensures var s' := s.(transitions := s.transitions + [t], active := Some(id), state := Ending,
                         quiescenceComplete := false, evidence := evidence);
            Core(s') && (!evidence.capability && evidence.permits == 0 ==> Inv(s'))
  {
    var s' := s.(transitions := s.transitions + [t], active := Some(id), state := Ending,
                 quiescenceComplete := false, evidence := evidence);
    assert LockHeldByOne(s') && PublicationsFit(s') && Core(s');
    hide LockHeldByOne, PublicationsFit, Core;
  }

  lemma EndKeeps(s: State, live: SessionLive, epochArg: Option<Epoch>, seqArg: Option<nat>,
                 releaseBinds: bool, admissionCloses: bool, er: Erasure)
    requires Inv(s)
    ensures Inv(StepEnd(s, live, epochArg, seqArg, releaseBinds, admissionCloses, er))
  {
    hide EnterFailedClosed, FailTransition, Leave, Inv, Core, CanBind, EndCandidates;
    InvGivesCore(s);
    if !EndRejected(s, epochArg, seqArg) {
      if live == NotRun {
        FailClosedKeeps(s, None, er);
      } else {
        var id := |s.transitions|;
        var t := Transition(End, s.captureSeq, s.state, CanBind(s), EndCandidates(s), None, None, None, false, Claimed);
        var s1 := s.(transitions := s.transitions + [t], active := Some(id), state := Ending, quiescenceComplete := false);
        var (evidence, prepared) := PrepareEnd(s1.evidence, s1.epoch.Some?, admissionCloses);
        var s2 := if releaseBinds then s1.(evidence := evidence) else s1;
        EndClaimKeeps(s, id, t, s2.evidence);
        if live == RanThenReportedDead {
          FailClosedKeeps(s2, None, er);
          LeaveKeeps(EnterFailedClosed(s2, None, er), id);
        } else if !(releaseBinds && prepared) {
          FailTransitionKeeps(s2, id, er);
        }
      }
    }
  }

  lemma BindKeeps(s: State, id: nat, t': Transition)
    requires Inv(s) && id < |s.transitions| && s.active == Some(id) && s.lock == Free
    requires s.transitions[id].pc == Claimed
    requires s.transitions[id].kind == Begin ==> t' == s.transitions[id].(pc := BeforeRetirement)
    requires s.transitions[id].kind == End ==>
               && s.generation in s.transitions[id].candidates
               && t' == s.transitions[id].(origin := Some(s.generation), target := Some(s.generation + 1),
                                           pc := BeforeRetirement)
    ensures Inv(SetTransition(s, id, t').(lock := ByTransition(id)))
  {
    hide PublicationsFit, EndCandidates;
    var s' := SetTransition(s, id, t').(lock := ByTransition(id));
    MoveKeeps(s, s', id);
    hide LockHeldByOne, Moves;
  }

  lemma BoundKeeps(s: State, id: nat, t': Transition, er: Erasure)
    requires Inv(s) && id < |s.transitions| && s.active == Some(id) && s.lock == Free
    requires s.transitions[id].pc == Claimed
    requires s.transitions[id].kind == Begin ==> t' == s.transitions[id].(pc := BeforeRetirement)
    requires s.transitions[id].kind == End ==>
               && s.generation in s.transitions[id].candidates
               && t' == s.transitions[id].(origin := Some(s.generation), target := Some(s.generation + 1),
                                           pc := BeforeRetirement)
    ensures var s' := SetTransition(s, id, t').(lock := ByTransition(id));
            Inv(s') && Inv(FailTransition(s', id, er))
  {
    var s' := SetTransition(s, id, t').(lock := ByTransition(id));
    BindKeeps(s, id, t');
    InvGivesCore(s');
    hide Inv, Core, FailTransition;
    FailTransitionKeeps(s', id, er);
  }

  lemma ClaimedActiveFits(s: State, id: nat)
    requires Inv(s) && id < |s.transitions| && s.active == Some(id) && s.transitions[id].pc == Claimed
    ensures IsActiveIn(s, id, if s.transitions[id].kind == Begin then Entering else Ending)
  {
  }

  /** The transition takes the lock and is bound. */
  lemma AcquireBinds(s: State, id: nat, registers: bool, er: Erasure)
    requires Inv(s) && id < |s.transitions| && s.transitions[id].pc == Claimed && s.lock == Free
    requires IsActiveIn(s, id, if s.transitions[id].kind == Begin then Entering else Ending)
    requires s.transitions[id].kind == End ==> s.generation in s.transitions[id].candidates
    ensures Inv(StepAcquire(s, id, registers, er))
  {
    hide FailTransition, Inv;
    var t := s.transitions[id];
    var bound := if t.kind == Begin then t else t.(origin := Some(s.generation), target := Some(s.generation + 1));
    BoundKeeps(s, id, bound.(pc := BeforeRetirement), er);
  }

  lemma AcquireKeeps(s: State, id: nat, registers: bool, er: Erasure)
    requires Inv(s) && id < |s.transitions|
    ensures Inv(StepAcquire(s, id, registers, er))
  {
    InvGivesCore(s);
    hide FailTransition, Leave, Inv, Core;
    var t := s.transitions[id];
    if t.pc == Claimed && s.lock == Free {
      if !IsActiveIn(s, id, if t.kind == Begin then Entering else Ending) {
        if s.active == Some(id) { ClaimedActiveFits(s, id); }
        LeaveKeeps(s, id);
      } else if t.kind == End && s.generation !in t.candidates {
        FailTransitionKeeps(s, id, er);
      } else {
        AcquireBinds(s, id, registers, er);
      }
    }
  }

  lemma RetiringKeeps(s: State, id: nat)
    requires Inv(s) && id < |s.transitions| && s.active == Some(id) && !s.retiring
    requires s.transitions[id].pc == BeforeRetirement
    requires s.transitions[id].kind == End ==> s.transitions[id].origin == Some(s.generation)
    ensures Inv(SetTransition(s, id, s.transitions[id].(pc := Retiring)).(retiring := true))
  {
    MoveKeeps(s, SetTransition(s, id, s.transitions[id].(pc := Retiring)).(retiring := true), id);
    hide LockHeldByOne, PublicationsFit, Moves;
  }

  lemma StartRetirementKeeps(s: State, id: nat, er: Erasure)
    requires Inv(s) && id < |s.transitions|
    ensures Inv(StepStartRetirement(s, id, er))
  {
    hide EnterFailedClosed, FailTransition, Leave;
    InvGivesCore(s);
    var t := s.transitions[id];
    if t.pc == BeforeRetirement {
      if s.active != Some(id) { LeaveKeeps(s, id); }
      else if s.retiring || (t.kind == End && t.origin != Some(s.generation)) { FailTransitionKeeps(s, id, er); }
      else { RetiringKeeps(s, id); }
    }
  }

  lemma RetiredKeeps(s: State, id: nat, fence: Option<nat>, generation: nat)
    requires Inv(s) && id < |s.transitions| && s.transitions[id].pc == Retiring
    requires s.generation <= generation <= s.generation + 1
    requires s.active == Some(id) ==> fence == Some(s.generation) && generation == s.generation + 1
    ensures Inv(SetTransition(s, id, s.transitions[id].(pc := Retired, fence := fence)).(
                  retiring := false, generation := generation))
  {
    var s' := SetTransition(s, id, s.transitions[id].(pc := Retired, fence := fence)).(
      retiring := false, generation := generation);
    MoveKeeps(s, s', id);
    hide LockHeldByOne, PublicationsFit, Moves;
  }

  lemma RetiredGivesCore(s: State, id: nat, fence: Option<nat>, generation: nat)
    requires Inv(s) && id < |s.transitions| && s.transitions[id].pc == Retiring && generation >= s.generation
    ensures Core(SetTransition(s, id, s.transitions[id].(pc := Retired, fence := fence)).(
                   retiring := false, generation := generation))
  {
    MoveGivesCore(s, SetTransition(s, id, s.transitions[id].(pc := Retired, fence := fence)).(
                       retiring := false, generation := generation), id);
    hide Core;
  }

  lemma RetireKeeps(s: State, id: nat, outcome: RetireOutcome, er: Erasure)
    requires Inv(s) && id < |s.transitions|
    ensures Inv(StepRetire(s, id, outcome, er))
  {
    hide EnterFailedClosed, FailTransition, Leave, Inv, Core, Moves;
    var t := s.transitions[id];
    if t.pc == Retiring {
      var fence := if outcome == RetireSucceeds then Some(s.generation) else None;
      var generation := if outcome == RetireFails then s.generation else s.generation + 1;
      var s' := SetTransition(s, id, t.(pc := Retired, fence := fence)).(retiring := false, generation := generation);
      RetiredGivesCore(s, id, fence, generation);
      if outcome == RetireSucceeds || s.active != Some(id) { RetiredKeeps(s, id, fence, generation); }
      if outcome != RetireSucceeds { FailTransitionKeeps(s', id, er); }
    }
  }

  lemma QuiescedKeeps(s: State, id: nat)
    requires Inv(s) && id < |s.transitions|
    requires s.transitions[id].kind == Begin && s.transitions[id].pc == Retired
    ensures Inv(SetTransition(s, id, s.transitions[id].(pc := Quiesced)).(
                  state := if IsActiveIn(s, id, Entering) then Quiescing else s.state))
  {
    MoveKeeps(s, SetTransition(s, id, s.transitions[id].(pc := Quiesced)).(
                   state := if IsActiveIn(s, id, Entering) then Quiescing else s.state), id);
    hide LockHeldByOne, PublicationsFit, Moves;
  }

  lemma PublishQuiescingKeeps(s: State, id: nat, er: Erasure)
    requires Inv(s) && id < |s.transitions|
    ensures Inv(StepPublishQuiescing(s, id, er))
  {
    hide EnterFailedClosed, FailTransition, Leave;
    InvGivesCore(s);
    FailTransitionKeeps(s, id, er);
    var t := s.transitions[id];
    if t.kind == Begin && t.pc == Retired {
      QuiescedKeeps(s, id);
      hide Inv, Core;
    }
  }

  lemma DestroyShape(e: Evidence, epoch: Option<Epoch>, fence: nat, destroys: bool, acknowledges: bool)
    ensures var (e', destroyed) := DestroyUnderFence(e, epoch, fence, destroys, acknowledges);
            && (destroyed && epoch.Some? ==> Erased(e'))
            && (epoch.None? ==> e' == e)
            && e'.capability == e.capability && e'.permits == e.permits
  {
  }

  lemma DrainEndKeeps(s: State, id: nat, evidence: Evidence, drained: bool)
    requires Inv(s) && id < |s.transitions|
    requires s.transitions[id].kind == End && s.transitions[id].pc == Retired && s.active == Some(id)
    requires Erased(evidence)
    requires evidence.capability == s.evidence.capability && evidence.permits == s.evidence.permits
    ensures Inv(SetTransition(s.(evidence := evidence), id, s.transitions[id].(pc := Cleaning, drained := drained)))
  {
    var s' := SetTransition(s.(evidence := evidence), id, s.transitions[id].(pc := Cleaning, drained := drained));
    MoveKeeps(s, s', id);
    hide LockHeldByOne, PublicationsFit, Moves;
  }

  lemma DrainBeginKeeps(s: State, id: nat, drained: bool)
    requires Inv(s) && id < |s.transitions|
    requires s.transitions[id].kind == Begin && s.transitions[id].pc == Quiesced
    ensures Inv(SetTransition(s, id, s.transitions[id].(pc := Cleaning, drained := drained)))
  {
    MoveKeeps(s, SetTransition(s, id, s.transitions[id].(pc := Cleaning, drained := drained)), id);
    hide LockHeldByOne, PublicationsFit, Moves;
  }

  lemma DrainKeeps(s: State, id: nat, drains: bool, destroys: bool, acknowledges: bool, er: Erasure)
    requires Inv(s) && id < |s.transitions|
    ensures Inv(StepDrain(s, id, drains, destroys, acknowledges, er))
  {
    hide EnterFailedClosed, FailTransition, Leave, PublicationsFit, LockHeldByOne, GateFollowsState;
    InvGivesCore(s);
    var t := s.transitions[id];
    var drained := drains && acknowledges;
    if t.kind == Begin && t.pc == Quiesced {
      DrainBeginKeeps(s, id, drained);
    } else if t.kind == End && t.pc == Retired {
      if s.active != Some(id) {
        LeaveKeeps(s, id);
      } else {
        assert s.state == Ending && t.fence.Some?;
        DestroyShape(s.evidence, s.epoch, t.fence.value, destroys, acknowledges);
        var (evidence, destroyed) := DestroyUnderFence(s.evidence, s.epoch, t.fence.value, destroys, acknowledges);
        if destroyed {
          DrainEndKeeps(s, id, evidence, drained);
        } else {
          MoveGivesCore(s, s.(evidence := evidence), id);
        }
        hide DestroyUnderFence, Inv, Core, Moves;
        if !destroyed { FailTransitionKeeps(s.(evidence := evidence), id, er); }
      }
    }
  }

  lemma VerifiedKeeps(s: State, id: nat)
    requires Inv(s) && id < |s.transitions| && s.active == Some(id) && s.transitions[id].pc == Cleaning
    ensures var s' := SetTransition(s, id, s.transitions[id].(pc := Verified));
            Inv(if s.transitions[id].kind == Begin then s'.(quiescenceComplete := true) else s'.(epoch := None))
  {
    var s' := SetTransition(s, id, s.transitions[id].(pc := Verified));
    MoveKeeps(s, if s.transitions[id].kind == Begin then s'.(quiescenceComplete := true) else s'.(epoch := None), id);
    hide LockHeldByOne, PublicationsFit, Core, Moves;
  }

  lemma CleanupDoneKeeps(s: State, id: nat, complete: bool, er: Erasure)
    requires Inv(s) && id < |s.transitions|
    ensures Inv(StepCleanupDone(s, id, complete, er))
  {
    hide EnterFailedClosed, FailTransition, Leave;
    InvGivesCore(s);
    FailTransitionKeeps(s, id, er);
    if s.active != Some(id) { LeaveKeeps(s, id); }
    var t := s.transitions[id];
    if t.pc == Cleaning && s.active == Some(id) { VerifiedKeeps(s, id); }
    hide Inv, Core;
  }

  lemma PublishArmedKeeps(s: State, id: nat, live: SessionLive, admitted: bool, er: Erasure)
    requires Inv(s) && id < |s.transitions|
    ensures Inv(StepPublishArmed(s, id, live, admitted, er))
  {
    hide EnterFailedClosed, FailTransition;
    InvGivesCore(s);
    FailTransitionKeeps(s, id, er);
  }

  lemma ResumedKeeps(s: State, id: nat)
    requires Inv(s) && id < |s.transitions| && s.active == Some(id) && s.transitions[id].pc == Verified
    requires EvidenceClear(s.evidence) && s.epoch.None? && Accepts(s.gate, Reopen)
    ensures Inv(Leave(s.(gate := Apply(s.gate, Reopen), state := Idle, active := None, fatal := false,
                         quiescenceComplete := false), id))
  {
  }

  lemma GateChangeGivesCore(s: State, g: Gate)
    requires Core(s) && Balanced(g)
    ensures Core(s.(gate := g))
  {
  }

  lemma PublishResumedKeeps(s: State, id: nat, live: SessionLive, admitted: bool, resume: ResumeOutcome, er: Erasure)
    requires Inv(s) && id < |s.transitions|
    ensures Inv(StepPublishResumed(s, id, live, admitted, resume, er))
  {
    hide EnterFailedClosed, FailTransition, Leave;
    InvGivesCore(s);
    FailTransitionKeeps(s, id, er);
    var t := s.transitions[id];
    if t.kind == End && t.pc == Verified && IsActiveIn(s, id, Ending) && s.epoch.None?
       && EvidenceClear(s.evidence) && Accepts(s.gate, Reopen) {
      ResumedKeeps(s, id);
      var reopened := Apply(s.gate, Reopen);
      GateChangeGivesCore(s, Apply(reopened, Close));
      GateChangeGivesCore(s, reopened);
      hide Inv, Core;
      FailTransitionKeeps(s.(gate := Apply(reopened, Close)), id, er);
      FailTransitionKeeps(s.(gate := reopened), id, er);
    }
  }

  /** Changing evidence, live state or the seal's lock keeps everything that speaks of transitions. */
  lemma CaptureChangeKeeps(s: State, s': State)
    requires Inv(s)
    requires s'.transitions == s.transitions && s'.active == s.active && s'.retiring == s.retiring
    requires s'.epoch == s.epoch && s'.captureSeq == s.captureSeq && s'.generation == s.generation
    requires s'.gate == s.gate && s'.published == s.published
    requires s'.state == s.state || (IsLive(s.state) && IsLive(s'.state))
    requires s'.lock == s.lock || (s.lock.BySeal? && s'.lock.Free?) || (IsLive(s.state) && s.lock.Free? && s'.lock.BySeal?)
    requires s'.evidence == s.evidence || IsLive(s.state)
    ensures Core(s') && Inv(s')
  {
    assert LockHeldByOne(s') && PublicationsFit(s') && Core(s');
    hide LockHeldByOne, PublicationsFit, Core;
  }

  lemma ActivateKeeps(s: State, activation: ActivationOutcome, er: Erasure)
    requires Inv(s)
    ensures Inv(StepActivate(s, activation, er))
  {
    hide EnterFailedClosed;
    if s.state == Armed {
      InvGivesCore(s);
      var activated := s.(evidence := s.evidence.(capability := true, permits := 0, frameRecords := 0, profile := true,
                                                  workers := true, cleanupToken := true, partition := true));
      CaptureChangeKeeps(s, activated);
      FailClosedKeeps(s, s.active, er);
      FailClosedKeeps(activated, s.active, er);
      if activation.RollsBack? {
        var rolledBack := s.(evidence := s.evidence.(partition := !activation.erased));
        CaptureChangeKeeps(s, rolledBack);
        FailClosedKeeps(rolledBack, s.active, er);
      }
    }
  }

  lemma SealKeeps(s: State, seal: SealOutcome, er: Erasure)
    requires Inv(s)
    ensures Inv(StepSealCall(s, seal, er))
  {
    hide EnterFailedClosed;
    if s.lock == Free && MayMutateFrames(s) && s.state == Capturing {
      var building := s.(state := BuildingAssertions);
      CaptureChangeKeeps(s, building);
      CaptureChangeKeeps(s, building.(lock := BySeal, evidence := s.evidence.(workers := true)));
      FailClosedKeeps(building, s.active, er);
    }
  }

  lemma SealReturnsKeeps(s: State, processorStarted: bool, er: Erasure)
    requires Inv(s)
    ensures Inv(StepSealReturns(s, processorStarted, er))
  {
    hide EnterFailedClosed;
    if s.lock == BySeal {
      CaptureChangeKeeps(s, s.(lock := Free));
      FailClosedKeeps(s.(lock := Free), s.active, er);
    }
  }

  lemma CaptureStepsKeep(s: State, e: Event)
    requires Inv(s)
    requires e.AdmitUpload? || e.ReleasePermit? || e.CommitFrame? || e.ProcessorFinishes? || e.RuntimeFailure?
    ensures Inv(Step(s, e))
  {
    hide EnterFailedClosed, PublicationsFit, LockHeldByOne, ActiveBeginFits, ActiveEndFits;
    if e.RuntimeFailure? {
      InvGivesCore(s);
      FailClosedKeeps(s, s.active, e.er);
    } else {
      CaptureChangeKeeps(s, Step(s, e));
    }
  }

  lemma StepKeeps(s: State, e: Event)
    requires Inv(s)
    ensures Inv(Step(s, e))
  {
    hide StepBegin, StepEnd, StepAcquire, StepStartRetirement, StepRetire, StepPublishQuiescing, StepDrain, StepCleanupDone;
    hide StepPublishArmed, StepPublishResumed, FailTransition, StepActivate, StepSealCall, StepSealReturns, StepCommitFrame;
    hide EnterFailedClosed, Inv;
    match e
    case BeginCall(live, preconditions, usable, er) => BeginKeeps(s, live, preconditions, usable, er);
    case EndCall(live, epochArg, seqArg, binds, closes, er) => EndKeeps(s, live, epochArg, seqArg, binds, closes, er);
    case Acquire(id, registers, er) => if id < |s.transitions| { AcquireKeeps(s, id, registers, er); }
    case StartRetirement(id, er) => if id < |s.transitions| { StartRetirementKeeps(s, id, er); }
    case Retire(id, outcome, er) => if id < |s.transitions| { RetireKeeps(s, id, outcome, er); }
    case PublishQuiescing(id, er) => if id < |s.transitions| { PublishQuiescingKeeps(s, id, er); }
    case Drain(id, drains, destroys, acks, er) =>
      if id < |s.transitions| { DrainKeeps(s, id, drains, destroys, acks, er); }
    case CleanupDone(id, complete, er) => if id < |s.transitions| { CleanupDoneKeeps(s, id, complete, er); }
    case PublishArmed(id, live, admitted, er) =>
      if id < |s.transitions| { PublishArmedKeeps(s, id, live, admitted, er); }
    case PublishResumed(id, live, admitted, resume, er) =>
      if id < |s.transitions| { PublishResumedKeeps(s, id, live, admitted, resume, er); }
    case Cancel(id, er) => if id < |s.transitions| { InvGivesCore(s); FailTransitionKeeps(s, id, er); }
    case Activate(activation, er) => ActivateKeeps(s, activation, er);
    case SealCall(seal, er) => SealKeeps(s, seal, er);
    case SealReturns(started, er) => SealReturnsKeeps(s, started, er);
    case _ => CaptureStepsKeep(s, e);
  }

  // ---------------------------------------------------------------- all runs

  /** The state after a list of events. */
  function RunFrom(s: State, es: seq<Event>): State {
    if es == [] then s else Step(RunFrom(s, es[..|es| - 1]), es[|es| - 1])
  }

  /** The same from a coordinator just built in the given generation. */
  function Run(generation: nat, es: seq<Event>): State {
    RunFrom(InitialState(generation), es)
  }

  lemma {:induction false} RunFromKeepsInv(s: State, es: seq<Event>)
    requires Inv(s)
    ensures Inv(RunFrom(s, es))
  {
    if es != [] {
      RunFromKeepsInv(s, es[..|es| - 1]);
      StepKeeps(RunFrom(s, es[..|es| - 1]), es[|es| - 1]);
    }
  }

  lemma RunKeepsInv(generation: nat, es: seq<Event>)
    ensures Inv(Run(generation, es))
  {
    InitialInv(generation);
    RunFromKeepsInv(InitialState(generation), es);
  }
}
