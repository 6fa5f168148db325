/**
 BEGIN, SEAL and END requests around one control lock: each looks its request up in the replay ledger,
 runs a claimed mutation to its end even if the caller is cancelled, and records how it ended.
 Callers interleave freely at the points where the source awaits.
 */
module ControlProtocol {
  import opened Basics
  import opened ReplayLedger

  const MAX_OUTSTANDING_CONTROL_MUTATIONS: nat := 4

  datatype CallerPc = Waiting | Running | Left

  /** A protocol request, or the inactivity watchdog, which ends an expired capture without a request. */
  datatype Caller = Caller(request: Option<Request>, pc: CallerPc, cancelled: bool)

  /** One mutation that was really started, and how it ended. */
  datatype Effect = Effect(request: Request, outcome: Option<Outcome>)

  /** An outcome a caller was given. */
  datatype Delivery = Delivery(request: Request, outcome: Outcome)

  datatype Control = Control(
    ledger: Ledger,
    holder: Option<nat>,
    callers: seq<Caller>,
    effects: seq<Effect>,
    delivered: seq<Delivery>)

  function InitialControl(capacity: nat): Control {
    Control(Ledger(capacity, 0, []), None, [], [], [])
  }

  datatype How = Returns(value: int) | Fails(reason: Reason) | TaskCancelled

  datatype ControlEvent =
    | Call(request: Request)
    | StartWatchdog
    | Enter(caller: nat, authorised: bool)
    | CancelCaller(caller: nat)
    | OperationEnds(caller: nat, how: How, authorised: bool)

  function Outstanding(cs: seq<Caller>): (n: nat)
    ensures n <= |cs|
  {
    if cs == [] then 0
    else Outstanding(cs[..|cs| - 1]) + (if cs[|cs| - 1].request.Some? && cs[|cs| - 1].pc != Left then 1 else 0)
  }

  function Leave(s: Control, i: nat): Control
    requires i < |s.callers|
  {
    s.(callers := s.callers[i := s.callers[i].(pc := Left)], holder := if s.holder == Some(i) then None else s.holder)
  }

  function Run(s: Control, i: nat): Control
    requires i < |s.callers|
  {
    s.(callers := s.callers[i := s.callers[i].(pc := Running)], holder := Some(i))
  }

  /** The result of a BEGIN is granted only to a caller that is authorised for the capture as it is now. */
  predicate Grantable(q: Request, outcome: Outcome, authorised: bool) {
    q.operation == BEGIN && outcome.Result? ==> authorised
  }

  /** A request that has the lock: replay, refusal, or a claim whose mutation is started. */
  function EnterRequest(s: Control, i: nat, q: Request, authorised: bool): Control
    requires i < |s.callers|
  {
    if q.operation != BEGIN && !authorised then Leave(s, i)
    else
      var (ledger, answer) := LookupOrClaim(s.ledger, q);
      match answer
      case Granted => Run(s.(ledger := ledger, effects := s.effects + [Effect(q, None)]), i)
      case Replayed(outcome) =>
        Leave(if Grantable(q, outcome, authorised) then s.(delivered := s.delivered + [Delivery(q, outcome)]) else s, i)
      case Refused(_) => Leave(s, i)
  }

  function OutcomeOf(how: How): Outcome {
    match how
    case Returns(value) => Result(value)
    case Fails(reason) => Failed(reason)
    case TaskCancelled => Failed(CAPTURE_OPERATION_FAILED)
  }

  function Ended(l: Ledger, q: Request, how: How): Ledger {
    var completed := Complete(l, q.requestId, OutcomeOf(how));
    if q.operation == END && how.Returns? then RetainOnly(completed, q.requestId) else completed
  }

  function EndRequest(s: Control, i: nat, q: Request, how: How, authorised: bool): Control
    requires i < |s.callers|
  {
    var k := q.controlSeq - 1;
    var effects := if 0 <= k < |s.effects| then s.effects[k := s.effects[k].(outcome := Some(OutcomeOf(how)))] else s.effects;
    var told := (how.Fails? || (how.Returns? && !s.callers[i].cancelled)) && Grantable(q, OutcomeOf(how), authorised);
    Leave(s.(ledger := Ended(s.ledger, q, how), effects := effects,
             delivered := if told then s.delivered + [Delivery(q, OutcomeOf(how))] else s.delivered), i)
  }

  function Step(s: Control, e: ControlEvent): Control {
    match e
    case Call(q) =>
      if Outstanding(s.callers) >= MAX_OUTSTANDING_CONTROL_MUTATIONS then s
      else s.(callers := s.callers + [Caller(Some(q), Waiting, false)])
    case StartWatchdog => s.(callers := s.callers + [Caller(None, Waiting, false)])
    case Enter(i, authorised) =>
      if i >= |s.callers| || s.callers[i].pc != Waiting || s.holder.Some? then s
      else if s.callers[i].request.Some? then EnterRequest(s, i, s.callers[i].request.value, authorised)
      else if authorised then Run(s, i) else Leave(s, i)
    case CancelCaller(i) =>
      if i >= |s.callers| then s
      else if s.callers[i].pc == Waiting then Leave(s, i)
      else if s.callers[i].pc == Running && s.callers[i].request.Some? then
        s.(callers := s.callers[i := s.callers[i].(cancelled := true)])
      else if s.callers[i].pc == Running then Leave(s, i)
      else s
    case OperationEnds(i, how, authorised) =>
      if i >= |s.callers| || s.callers[i].pc != Running then s
      else if s.callers[i].request.Some? then EndRequest(s, i, s.callers[i].request.value, how, authorised)
      else Leave(s.(ledger := if how.Returns? then Do(s.ledger, DiscardRecords) else s.ledger), i)
  }

  function RunFrom(s: Control, es: seq<ControlEvent>): Control {
    if es == [] then s else Step(RunFrom(s, es[..|es| - 1]), es[|es| - 1])
  }

  // ---------------------------------------------------------------- the invariant

  predicate AllCompleted(es: seq<Entry>) {
    forall i :: 0 <= i < |es| ==> es[i].outcome.Some?
  }

  /** Exactly the record of `q` is still running. */
  predicate OnlyRunning(es: seq<Entry>, q: Request) {
    && Find(es, q.requestId) < |es| && es[Find(es, q.requestId)] == Entry(q, None)
    && forall i :: 0 <= i < |es| && i != Find(es, q.requestId) ==> es[i].outcome.Some?
  }

  /** The lock's holder is the one caller past it. */
  predicate CallersFit(cs: seq<Caller>, holder: Option<nat>) {
    && (forall i :: 0 <= i < |cs| ==> (cs[i].pc == Running <==> holder == Some(i)))
    && (holder.Some? ==> holder.value < |cs|)
  }

  predicate LockFits(s: Control) {
    && CallersFit(s.callers, s.holder)
    && (if s.holder.Some? && s.callers[s.holder.value].request.Some? then
          OnlyRunning(s.ledger.entries, s.callers[s.holder.value].request.value)
        else AllCompleted(s.ledger.entries))
  }

  /** Effect number k is the mutation of control sequence number k + 1, and records and deliveries quote it. */
  predicate HistoryFits(l: Ledger, effects: seq<Effect>, delivered: seq<Delivery>) {
    && |effects| == l.last
    && (forall k :: 0 <= k < |effects| ==> effects[k].request.controlSeq == k + 1)
    && (forall i :: 0 <= i < |l.entries| ==> Quotes(effects, l.entries[i].request, l.entries[i].outcome))
    && (forall i :: 0 <= i < |delivered| ==> Quotes(effects, delivered[i].request, Some(delivered[i].outcome)))
  }

  predicate Quotes(effects: seq<Effect>, q: Request, outcome: Option<Outcome>) {
    1 <= q.controlSeq <= |effects| && effects[q.controlSeq - 1] == Effect(q, outcome)
  }

  predicate Inv(s: Control) {
    WellFormed(s.ledger) && LockFits(s) && HistoryFits(s.ledger, s.effects, s.delivered)
    && Outstanding(s.callers) <= MAX_OUTSTANDING_CONTROL_MUTATIONS
  }

  // ---------------------------------------------------------------- keeping it

  lemma {:induction false} OutstandingUpdate(cs: seq<Caller>, i: nat, c: Caller)
    requires i < |cs| && (c.request.Some? && c.pc != Left ==> cs[i].request.Some? && cs[i].pc != Left)
    ensures Outstanding(cs[i := c]) <= Outstanding(cs)
  {
    if i < |cs| - 1 {
      OutstandingUpdate(cs[..|cs| - 1], i, c);
      assert cs[i := c][..|cs| - 1] == cs[..|cs| - 1][i := c];
    } else {
      assert cs[i := c][..|cs| - 1] == cs[..|cs| - 1];
    }
  }

  lemma LeaveFits(s: Control, i: nat)
    requires CallersFit(s.callers, s.holder) && i < |s.callers|
    ensures CallersFit(Leave(s, i).callers, Leave(s, i).holder)
    ensures Outstanding(Leave(s, i).callers) <= Outstanding(s.callers)
  {
    OutstandingUpdate(s.callers, i, s.callers[i].(pc := Left));
  }

  lemma RunFits(s: Control, i: nat)
    requires CallersFit(s.callers, s.holder) && s.holder.None? && i < |s.callers| && s.callers[i].pc == Waiting
    ensures CallersFit(Run(s, i).callers, Run(s, i).holder)
    ensures Outstanding(Run(s, i).callers) <= Outstanding(s.callers)
  {
    OutstandingUpdate(s.callers, i, s.callers[i].(pc := Running));
  }

  lemma CallKeeps(s: Control, c: Caller)
    requires Inv(s) && c.pc == Waiting
    requires c.request.Some? ==> Outstanding(s.callers) < MAX_OUTSTANDING_CONTROL_MUTATIONS
    ensures Inv(s.(callers := s.callers + [c]))
  {
    hide WellFormed, HistoryFits, OnlyRunning, AllCompleted;
    assert (s.callers + [c])[..|s.callers|] == s.callers;
  }

  /** While nothing runs, a claim never lacks room: the grant is refused only for its sequence number. */
  lemma ClaimFindsRoom(l: Ledger, q: Request)
    requires WellFormed(l) && AllCompleted(l.entries)
    ensures LookupOrClaim(l, q).1 != Refused(CONTROL_CAPACITY_EXCEEDED)
    ensures LookupOrClaim(l, q).1 != Refused(CONTROL_BUSY)
    ensures LookupOrClaim(l, q).1 == Granted ==> OnlyRunning(LookupOrClaim(l, q).0.entries, q)
  {
    if LookupOrClaim(l, q).1 == Granted {
      MakeRoomKeeps(l.entries, l.last, l.capacity);
      AbsentId(l.entries, q.requestId);
      var room := MakeRoom(l.entries, l.capacity).value;
      FindIs(room + [Entry(q, None)], q.requestId, |room|);
      assert forall i :: 0 <= i < |room| ==> room[i] in l.entries;
    }
  }

  lemma GrantKeepsHistory(l: Ledger, effects: seq<Effect>, delivered: seq<Delivery>, q: Request)
    requires WellFormed(l) && HistoryFits(l, effects, delivered) && LookupOrClaim(l, q).1 == Granted
    ensures HistoryFits(LookupOrClaim(l, q).0, effects + [Effect(q, None)], delivered)
  {
    MakeRoomKeeps(l.entries, l.last, l.capacity);
    OnlyGrantsChange(l, q);
    var room := MakeRoom(l.entries, l.capacity).value;
    forall i | 0 <= i < |room| ensures Quotes(effects + [Effect(q, None)], room[i].request, room[i].outcome) {
      assert room[i] in l.entries;
    }
  }

  lemma ReplayKeepsHistory(l: Ledger, effects: seq<Effect>, delivered: seq<Delivery>, q: Request)
    requires HistoryFits(l, effects, delivered) && LookupOrClaim(l, q).1.Replayed?
    ensures HistoryFits(l, effects, delivered + [Delivery(q, LookupOrClaim(l, q).1.outcome)])
  {
    var i := Find(l.entries, q.requestId);
    assert Quotes(effects, l.entries[i].request, l.entries[i].outcome);
  }

  lemma EnterKeeps(s: Control, i: nat, q: Request, authorised: bool)
    requires Inv(s) && s.holder.None? && i < |s.callers| && s.callers[i] == Caller(Some(q), Waiting, s.callers[i].cancelled)
    ensures Inv(EnterRequest(s, i, q, authorised))
  {
    LeaveFits(s, i);
    RunFits(s, i);
    ClaimFindsRoom(s.ledger, q);
    DoKeepsWellFormed(s.ledger, Claim(q));
    OnlyGrantsChange(s.ledger, q);
    if LookupOrClaim(s.ledger, q).1 == Granted {
      GrantKeepsHistory(s.ledger, s.effects, s.delivered, q);
    } else if LookupOrClaim(s.ledger, q).1.Replayed? {
      ReplayKeepsHistory(s.ledger, s.effects, s.delivered, q);
    }
    hide WellFormed, Outstanding, OnlyRunning, CallersFit, HistoryFits, AllCompleted, LookupOrClaim;
  }

  /** How a finished mutation leaves the ledger: its record completed, and alone after a successful END. */
  lemma EndedShape(l: Ledger, q: Request, how: How)
    requires WellFormed(l) && OnlyRunning(l.entries, q)
    ensures var l' := Ended(l, q, how);
            && WellFormed(l') && AllCompleted(l'.entries) && l'.last == l.last && l'.capacity == l.capacity
            && LookupOrClaim(l', q) == (l', Replayed(OutcomeOf(how)))
            && (forall e :: e in l'.entries ==> e == Entry(q, Some(OutcomeOf(how))) || (e in l.entries && e.request != q))
            && (q.operation == END && how.Returns? ==> l'.entries == [Entry(q, Some(OutcomeOf(how)))])
  {
    var i := Find(l.entries, q.requestId);
    var done := l.entries[i := Entry(q, Some(OutcomeOf(how)))];
    DoKeepsWellFormed(l, Finish(q.requestId, OutcomeOf(how)));
    FindIs(done, q.requestId, i);
    DoKeepsWellFormed(l.(entries := done), Retain(q.requestId));
    assert Complete(l, q.requestId, OutcomeOf(how)).entries == done;
    hide Rising;
  }

  lemma EndedFits(l: Ledger, q: Request, how: How)
    requires WellFormed(l) && OnlyRunning(l.entries, q)
    ensures WellFormed(Ended(l, q, how)) && AllCompleted(Ended(l, q, how).entries)
  {
    EndedShape(l, q, how);
    hide *;
  }

  lemma EndFreesLock(s: Control, i: nat, q: Request, how: How, authorised: bool)
    requires WellFormed(s.ledger) && LockFits(s) && i < |s.callers|
    requires s.callers[i].pc == Running && s.callers[i].request == Some(q)
    ensures var s' := EndRequest(s, i, q, how, authorised);
            WellFormed(s'.ledger) && LockFits(s') && Outstanding(s'.callers) <= Outstanding(s.callers)
  {
    LeaveFits(s, i);
    assert s.holder == Some(i);
    hide WellFormed, Outstanding, Ended, OnlyRunning, CallersFit, AllCompleted, OutcomeOf, Grantable;
    EndedFits(s.ledger, q, how);
  }

  lemma EndIsRecorded(s: Control, i: nat, q: Request, how: How, authorised: bool)
    requires WellFormed(s.ledger) && i < |s.callers| && OnlyRunning(s.ledger.entries, q)
    requires HistoryFits(s.ledger, s.effects, s.delivered)
    ensures var s' := EndRequest(s, i, q, how, authorised); HistoryFits(s'.ledger, s'.effects, s'.delivered)
  {
    hide WellFormed, Ended, HistoryFits, OnlyRunning, OutcomeOf, Grantable;
    EndKeepsHistory(s.ledger, s.effects, s.delivered, q, how);
  }

  lemma EndKeeps(s: Control, i: nat, q: Request, how: How, authorised: bool)
    requires Inv(s) && i < |s.callers| && s.callers[i].pc == Running && s.callers[i].request == Some(q)
    ensures Inv(EndRequest(s, i, q, how, authorised))
  {
    assert s.holder == Some(i);
    hide WellFormed, HistoryFits, OnlyRunning, CallersFit, AllCompleted, EndRequest;
    EndFreesLock(s, i, q, how, authorised);
    EndIsRecorded(s, i, q, how, authorised);
  }

  lemma EndKeepsHistory(l: Ledger, effects: seq<Effect>, delivered: seq<Delivery>, q: Request, how: How)
    requires WellFormed(l) && OnlyRunning(l.entries, q) && HistoryFits(l, effects, delivered)
    ensures 1 <= q.controlSeq <= |effects|
    ensures var effects' := effects[q.controlSeq - 1 := Effect(q, Some(OutcomeOf(how)))];
            && effects' == effects[q.controlSeq - 1 := effects[q.controlSeq - 1].(outcome := Some(OutcomeOf(how)))]
            && HistoryFits(Ended(l, q, how), effects', delivered)
            && HistoryFits(Ended(l, q, how), effects', delivered + [Delivery(q, OutcomeOf(how))])
  {
    EndedShape(l, q, how);
    var i := Find(l.entries, q.requestId);
    assert Quotes(effects, l.entries[i].request, l.entries[i].outcome);
    var effects' := effects[q.controlSeq - 1 := Effect(q, Some(OutcomeOf(how)))];
    var l' := Ended(l, q, how);
    forall j | 0 <= j < |l'.entries| ensures Quotes(effects', l'.entries[j].request, l'.entries[j].outcome) {
      var e := l'.entries[j];
      assert e in l'.entries;
    }
    hide Ended, WellFormed, OnlyRunning;
  }

  lemma LockKeeps(s: Control, e: ControlEvent)
    requires Inv(s) && (e.Enter? || e.CancelCaller? || e.OperationEnds?) && e.caller < |s.callers|
    requires s.callers[e.caller].request.None? || e.CancelCaller?
    ensures Inv(Step(s, e))
  {
    hide WellFormed, Outstanding, OnlyRunning, EnterRequest, EndRequest, Quotes;
    LeaveFits(s, e.caller);
    if e.CancelCaller? {
      OutstandingUpdate(s.callers, e.caller, s.callers[e.caller].(cancelled := true));
    } else if e.Enter? {
      if s.holder.None? && s.callers[e.caller].pc == Waiting { RunFits(s, e.caller); }
    } else {
      DoKeepsWellFormed(s.ledger, DiscardRecords);
    }
  }

  lemma StepKeeps(s: Control, e: ControlEvent)
    requires Inv(s)
    ensures Inv(Step(s, e))
  {
    match e {
      case Call(q) =>
        if Outstanding(s.callers) < MAX_OUTSTANDING_CONTROL_MUTATIONS { CallKeeps(s, Caller(Some(q), Waiting, false)); }
      case StartWatchdog => CallKeeps(s, Caller(None, Waiting, false));
      case Enter(i, authorised) =>
        if i < |s.callers| && s.callers[i].pc == Waiting && s.holder.None? {
          if s.callers[i].request.Some? { EnterKeeps(s, i, s.callers[i].request.value, authorised); }
          else { LockKeeps(s, e); }
        }
      case CancelCaller(i) => if i < |s.callers| { LockKeeps(s, e); }
      case OperationEnds(i, how, authorised) =>
        if i < |s.callers| && s.callers[i].pc == Running {
          if s.callers[i].request.Some? { EndKeeps(s, i, s.callers[i].request.value, how, authorised); }
          else { LockKeeps(s, e); }
        }
    }
    hide Inv;
  }

  lemma {:induction false} RunKeepsInv(s: Control, es: seq<ControlEvent>)
    requires Inv(s)
    ensures Inv(RunFrom(s, es))
  {
    if es != [] {
      RunKeepsInv(s, es[..|es| - 1]);
      StepKeeps(RunFrom(s, es[..|es| - 1]), es[|es| - 1]);
    }
  }

  // ---------------------------------------------------------------- the promises

  function Reached(capacity: nat, es: seq<ControlEvent>): Control {
    RunFrom(InitialControl(capacity), es)
  }

  lemma ReachedInv(capacity: nat, es: seq<ControlEvent>)
    requires capacity > 0
    ensures Inv(Reached(capacity, es))
  {
    RunKeepsInv(InitialControl(capacity), es);
  }

  /** Whenever the control lock is free, nothing is left running, whoever was cancelled. */
  lemma FreeLockMeansCompleted(capacity: nat, es: seq<ControlEvent>)
    requires capacity > 0 && Reached(capacity, es).holder.None?
    ensures forall e :: e in Reached(capacity, es).ledger.entries ==> e.outcome.Some?
  {
    ReachedInv(capacity, es);
  }

  /** So the ledger never answers that it is busy or full. */
  lemma NeverBusyNeverFull(capacity: nat, es: seq<ControlEvent>, q: Request)
    requires capacity > 0 && Reached(capacity, es).holder.None?
    ensures var answer := LookupOrClaim(Reached(capacity, es).ledger, q).1;
            answer != Refused(CONTROL_CAPACITY_EXCEEDED) && answer != Refused(CONTROL_BUSY)
  {
    ReachedInv(capacity, es);
    ClaimFindsRoom(Reached(capacity, es).ledger, q);
  }

  /** The mutation of each control sequence number starts at most once, in order and without gaps. */
  lemma EffectsOncePerSequence(capacity: nat, es: seq<ControlEvent>)
    requires capacity > 0
    ensures var s := Reached(capacity, es);
            && |s.effects| == s.ledger.last
            && forall k :: 0 <= k < |s.effects| ==> s.effects[k].request.controlSeq == k + 1
  {
    ReachedInv(capacity, es);
  }

  /** Every caller told an outcome was told how the one mutation of its own request really ended. */
  lemma DeliveriesAreTheEffect(capacity: nat, es: seq<ControlEvent>, d: Delivery)
    requires capacity > 0 && d in Reached(capacity, es).delivered
    ensures Effect(d.request, Some(d.outcome)) in Reached(capacity, es).effects
    ensures forall d' :: d' in Reached(capacity, es).delivered && d'.request.controlSeq == d.request.controlSeq ==> d' == d
  {
    hide Inv, Reached;
    ReachedInv(capacity, es);
    var s := Reached(capacity, es);
    DeliveryQuotes(s, d);
    forall d' | d' in s.delivered && d'.request.controlSeq == d.request.controlSeq ensures d' == d {
      DeliveryQuotes(s, d');
    }
  }

  lemma DeliveryQuotes(s: Control, d: Delivery)
    requires Inv(s) && d in s.delivered
    ensures Quotes(s.effects, d.request, Some(d.outcome))
  {
    var i :| 0 <= i < |s.delivered| && s.delivered[i] == d;
  }

  /**
   Cancelling the caller of a running mutation never changes what is recorded. A result is then not told, and is
   replayed to a later request; a failure is told all the same.
   */
  lemma CancellationIsDurable(capacity: nat, es: seq<ControlEvent>, i: nat, how: How, authorised: bool)
    requires capacity > 0
    requires var s := Reached(capacity, es); i < |s.callers| && s.callers[i].pc == Running && s.callers[i].request.Some?
    ensures var s := Reached(capacity, es);
            var undisturbed := Step(s, OperationEnds(i, how, authorised));
            var cancelled := Step(Step(s, CancelCaller(i)), OperationEnds(i, how, authorised));
            && cancelled.ledger == undisturbed.ledger && cancelled.effects == undisturbed.effects
            && cancelled.holder == undisturbed.holder == None
            && cancelled.delivered == (if how.Fails? then undisturbed.delivered else s.delivered)
            && (how.Fails? ==> cancelled.delivered == s.delivered + [Delivery(s.callers[i].request.value, OutcomeOf(how))])
            && LookupOrClaim(cancelled.ledger, s.callers[i].request.value)
               == (cancelled.ledger, Replayed(OutcomeOf(how)))
  {
    ReachedInv(capacity, es);
    var s := Reached(capacity, es);
    EndedShape(s.ledger, s.callers[i].request.value, how);
    hide Ended, LookupOrClaim, RunFrom;
  }

  /** An outcome is told only with the authority it needs at that moment: a BEGIN result, and any replay to SEAL or END. */
  lemma BeginGrantsAreAuthorised(s: Control, e: ControlEvent, d: Delivery)
    requires Step(s, e).delivered == s.delivered + [d]
    ensures (e.Enter? || e.OperationEnds?) && Grantable(d.request, d.outcome, e.authorised)
    ensures e.Enter? && d.request.operation != BEGIN ==> e.authorised
  {
    var s' := Step(s, e);
    assert |s'.delivered| == |s.delivered| + 1 && s'.delivered[|s.delivered|] == d;
    hide LookupOrClaim, Ended;
  }
}
