/** What every caller of a control operation is answered, in terms of the mutations that were really started. */
module ControlAnswers {
  import opened Basics
  import opened ReplayLedger
  import opened ControlProtocol

  /** The request has a record. */
  predicate OnRecord(s: Control, q: Request) {
    exists k :: 0 <= k < |s.ledger.entries| && s.ledger.entries[k].request == q
  }

  predicate IdOnRecord(s: Control, id: RequestId) {
    exists k :: 0 <= k < |s.ledger.entries| && s.ledger.entries[k].request.requestId == id
  }

  predicate WaitsWith(s: Control, i: nat, q: Request) {
    i < |s.callers| && s.callers[i].pc == Waiting && s.callers[i].request == Some(q)
  }

  predicate RunsWith(s: Control, i: nat, q: Request) {
    i < |s.callers| && s.callers[i].pc == Running && s.callers[i].request == Some(q)
  }

  /** SEAL and END are for authorised callers only; who may see the result of a BEGIN is decided when it is told. */
  predicate MayEnter(q: Request, authorised: bool) {
    q.operation.BEGIN? || authorised
  }

  function WithPc(cs: seq<Caller>, i: nat, pc: CallerPc): seq<Caller>
    requires i < |cs|
  {
    cs[i := Caller(cs[i].request, pc, cs[i].cancelled)]
  }

  /** The caller has left and the rest is as it was. */
  predicate OnlyLeaves(s: Control, s': Control, i: nat) {
    && i < |s.callers| && s'.callers == WithPc(s.callers, i, Left) && s'.holder.None?
    && s'.ledger == s.ledger && s'.effects == s.effects
  }

  // ---------------------------------------------------------------- entering

  /** A request on record is that of a completed mutation whenever the lock is free. */
  lemma RecordIsOfEffect(s: Control, q: Request) returns (o: Outcome)
    requires Inv(s) && s.holder.None? && OnRecord(s, q)
    ensures 1 <= q.controlSeq <= |s.effects| && s.effects[q.controlSeq - 1] == Effect(q, Some(o))
    ensures LookupOrClaim(s.ledger, q) == (s.ledger, Replayed(o))
  {
    var es := s.ledger.entries;
    var k :| 0 <= k < |es| && es[k].request == q;
    assert Quotes(s.effects, es[k].request, es[k].outcome);
    o := es[k].outcome.value;
    FindIs(es, q.requestId, k);
  }

  /**
   A repeated request whose record is still there is told how its one mutation ended, and nothing is started; only a
   BEGIN result needs authority at that moment.
   */
  lemma RetryIsAnswered(capacity: nat, es: seq<ControlEvent>, i: nat, q: Request, authorised: bool) returns (o: Outcome)
    requires capacity > 0
    requires var s := Reached(capacity, es);
             s.holder.None? && WaitsWith(s, i, q) && OnRecord(s, q) && MayEnter(q, authorised)
    ensures var s := Reached(capacity, es); var s' := Step(s, Enter(i, authorised));
            && 1 <= q.controlSeq <= |s.effects| && s.effects[q.controlSeq - 1] == Effect(q, Some(o))
            && OnlyLeaves(s, s', i)
            && s'.delivered == s.delivered + (if q.operation.BEGIN? && o.Result? && !authorised then [] else [Delivery(q, o)])
  {
    ReachedInv(capacity, es);
    hide Reached, Inv;
    o := RecordIsOfEffect(Reached(capacity, es), q);
    hide LookupOrClaim;
  }

  /** A new request that is next in sequence starts its mutation. */
  lemma NextIsStarted(capacity: nat, es: seq<ControlEvent>, i: nat, q: Request, authorised: bool)
    requires capacity > 0
    requires var s := Reached(capacity, es);
             && s.holder.None? && WaitsWith(s, i, q) && !IdOnRecord(s, q.requestId) && q.controlSeq == |s.effects| + 1
             && MayEnter(q, authorised)
    ensures var s := Reached(capacity, es); var s' := Step(s, Enter(i, authorised));
            && s'.callers == WithPc(s.callers, i, Running) && s'.holder == Some(i)
            && s'.effects == s.effects + [Effect(q, None)] && s'.delivered == s.delivered && OnRecord(s', q)
  {
    ReachedInv(capacity, es);
    hide Reached;
    var s := Reached(capacity, es);
    ClaimFindsRoom(s.ledger, q);
    assert LookupOrClaim(s.ledger, q).1 == Granted by { NextIsGranted(s, q); }
    assert OnlyRunning(LookupOrClaim(s.ledger, q).0.entries, q);
    hide LookupOrClaim, Inv;
  }

  lemma NextIsGranted(s: Control, q: Request)
    requires Inv(s) && s.holder.None? && !IdOnRecord(s, q.requestId) && q.controlSeq == |s.effects| + 1
    ensures LookupOrClaim(s.ledger, q).1 == Granted
  {
    ClaimFindsRoom(s.ledger, q);
    var i := Find(s.ledger.entries, q.requestId);
    assert i == |s.ledger.entries|;
    assert !HasSequence(s.ledger.entries, q.controlSeq);
  }

  /** Whoever else gets the lock leaves it with nothing started and nothing told. */
  lemma OthersLeaveEmptyHanded(capacity: nat, es: seq<ControlEvent>, i: nat, q: Request, authorised: bool)
    requires capacity > 0
    requires var s := Reached(capacity, es);
             && s.holder.None? && WaitsWith(s, i, q)
             && (!MayEnter(q, authorised)
                 || (!OnRecord(s, q) && (IdOnRecord(s, q.requestId) || q.controlSeq != |s.effects| + 1)))
    ensures var s := Reached(capacity, es); var s' := Step(s, Enter(i, authorised));
            OnlyLeaves(s, s', i) && s'.delivered == s.delivered
  {
    ReachedInv(capacity, es);
    hide Reached;
    var s := Reached(capacity, es);
    if MayEnter(q, authorised) {
      NeitherKnownNorNext(s, q);
    }
    hide LookupOrClaim, Inv;
  }

  lemma NeitherKnownNorNext(s: Control, q: Request)
    requires Inv(s) && !OnRecord(s, q) && (IdOnRecord(s, q.requestId) || q.controlSeq != |s.effects| + 1)
    ensures LookupOrClaim(s.ledger, q).0 == s.ledger && LookupOrClaim(s.ledger, q).1.Refused?
  {
    var es := s.ledger.entries;
    if IdOnRecord(s, q.requestId) {
      var k :| 0 <= k < |es| && es[k].request.requestId == q.requestId;
      FindIs(es, q.requestId, k);
    }
  }

  // ---------------------------------------------------------------- ending

  /** How a mutation ended, as it is recorded. */
  predicate EndsAs(how: How, o: Outcome) {
    match how
    case Returns(value) => o == Result(value)
    case Fails(reason) => o == Failed(reason)
    case TaskCancelled => o == Failed(CAPTURE_OPERATION_FAILED)
  }

  /** The caller hears a result unless it was cancelled meanwhile, and a failure in any case. */
  predicate Hears(how: How, q: Request, cancelled: bool, authorised: bool) {
    match how
    case Returns(_) => !cancelled && (q.operation.BEGIN? ==> authorised)
    case Fails(_) => true
    case TaskCancelled => false
  }

  /** A record is that of the request, now completed, or one of before. */
  predicate CompletedOnly(before: seq<Entry>, after: seq<Entry>, q: Request, o: Outcome) {
    && |after| == |before|
    && forall k :: 0 <= k < |after| ==>
         after[k].request == before[k].request && after[k].outcome == if before[k].request == q then Some(o) else before[k].outcome
  }

  /**
   The end of a mutation is recorded under its request and told to its caller, and the lock is free again; after a
   successful END the record of that END is the only one left.
   */
  lemma EndIsRecordedAndTold(capacity: nat, es: seq<ControlEvent>, i: nat, q: Request, how: How, authorised: bool) returns (o: Outcome)
    requires capacity > 0 && RunsWith(Reached(capacity, es), i, q)
    ensures EndsAs(how, o)
    ensures var s := Reached(capacity, es); var s' := Step(s, OperationEnds(i, how, authorised));
            && s'.callers == WithPc(s.callers, i, Left) && s'.holder.None?
            && 1 <= q.controlSeq <= |s.effects| && s'.effects == s.effects[q.controlSeq - 1 := Effect(q, Some(o))]
            && s'.delivered == s.delivered + (if Hears(how, q, s.callers[i].cancelled, authorised) then [Delivery(q, o)] else [])
            && (if q.operation.END? && how.Returns? then s'.ledger.entries == [Entry(q, Some(o))]
                else CompletedOnly(s.ledger.entries, s'.ledger.entries, q, o))
            && OnRecord(s', q)
  {
    ReachedInv(capacity, es);
    hide Reached;
    var s := Reached(capacity, es);
    o := OutcomeOf(how);
    assert s.holder == Some(i) && OnlyRunning(s.ledger.entries, q);
    RunningIsEffect(s, q);
    EndedEntries(s.ledger, q, how);
    hide Inv, Ended, OnlyRunning;
  }

  lemma RunningIsEffect(s: Control, q: Request)
    requires Inv(s) && OnlyRunning(s.ledger.entries, q)
    ensures 1 <= q.controlSeq <= |s.effects| && s.effects[q.controlSeq - 1] == Effect(q, None)
  {
    var k := Find(s.ledger.entries, q.requestId);
    assert Quotes(s.effects, s.ledger.entries[k].request, s.ledger.entries[k].outcome);
  }

  lemma EndedEntries(l: Ledger, q: Request, how: How)
    requires WellFormed(l) && OnlyRunning(l.entries, q)
    ensures var after := Ended(l, q, how).entries;
            && (if q.operation.END? && how.Returns? then after == [Entry(q, Some(OutcomeOf(how)))]
                else CompletedOnly(l.entries, after, q, OutcomeOf(how)))
            && exists k :: 0 <= k < |after| && after[k].request == q
  {
    EndedShape(l, q, how);
    var k := Find(l.entries, q.requestId);
    if q.operation.END? && how.Returns? {
      assert Ended(l, q, how).entries[0].request == q;
    } else {
      var after := l.entries[k := Entry(q, Some(OutcomeOf(how)))];
      assert Ended(l, q, how).entries == after && after[k].request == q;
    }
    hide Ended;
  }

  // ---------------------------------------------------------------- the other steps

  /** A call waits, unless four requests are outstanding already. */
  lemma CallWaitsOrIsTurnedAway(s: Control, q: Request)
    ensures var s' := Step(s, Call(q));
            s' == if Outstanding(s.callers) < 4 then s.(callers := s.callers + [Caller(Some(q), Waiting, false)]) else s
  {
  }

  /** A cancelled caller of a running mutation is only marked; whoever waits leaves at once. */
  lemma CancellingLeavesMutations(capacity: nat, es: seq<ControlEvent>, i: nat)
    requires capacity > 0 && i < |Reached(capacity, es).callers|
    ensures var s := Reached(capacity, es); var c, s' := s.callers[i], Step(s, CancelCaller(i));
            && s'.ledger == s.ledger && s'.effects == s.effects && s'.delivered == s.delivered
            && match c.pc
               case Left => s' == s
               case Waiting => s'.callers == WithPc(s.callers, i, Left) && s'.holder == s.holder
               case Running =>
                 if c.request.Some? then s'.holder == Some(i) && s'.callers == s.callers[i := Caller(c.request, Running, true)]
                 else s'.holder.None? && s'.callers == WithPc(s.callers, i, Left)
  {
    ReachedInv(capacity, es);
    hide Reached;
  }

  /** The watchdog takes the free lock if it still has to; when it has ended the capture no record is left. */
  lemma WatchdogDiscards(capacity: nat, es: seq<ControlEvent>, i: nat, authorised: bool, how: How)
    requires capacity > 0
    requires var s := Reached(capacity, es); i < |s.callers| && s.callers[i].request.None?
    ensures var s := Reached(capacity, es); var entered, ended := Step(s, Enter(i, authorised)), Step(s, OperationEnds(i, how, authorised));
            && (s.callers[i].pc == Waiting && s.holder.None? ==>
                  && entered.ledger == s.ledger && entered.effects == s.effects && entered.delivered == s.delivered
                  && entered.callers == WithPc(s.callers, i, if authorised then Running else Left)
                  && entered.holder == if authorised then Some(i) else None)
            && (s.callers[i].pc == Running ==>
                  && ended.effects == s.effects && ended.delivered == s.delivered && ended.holder.None?
                  && ended.callers == WithPc(s.callers, i, Left)
                  && ended.ledger == if how.Returns? then s.ledger.(entries := []) else s.ledger)
  {
    ReachedInv(capacity, es);
    hide Reached;
  }

  /** Nothing moves while another caller has the lock, and only its holder's end is an end. */
  lemma LockExcludes(capacity: nat, es: seq<ControlEvent>, i: nat, authorised: bool, how: How)
    requires capacity > 0
    ensures var s := Reached(capacity, es);
            && (s.holder.Some? ==> Step(s, Enter(i, authorised)) == s)
            && (s.holder != Some(i) ==> Step(s, OperationEnds(i, how, authorised)) == s)
            && (i < |s.callers| && s.callers[i].pc != Waiting ==> Step(s, Enter(i, authorised)) == s)
  {
    ReachedInv(capacity, es);
    hide Reached;
  }
}
