/**
 The bounded ledger that makes control mutations idempotent: a pure account of what it answers, the
 class that keeps it in two dictionaries, and the promises over every run of its operations.
 */
module ReplayLedger {
  import opened Basics

  const MAX_CONTROL_MUTATIONS_PER_SESSION: nat := 64

  datatype Operation = BEGIN | SEAL | END
  type RequestId = int
  type Digest = seq<int>

  datatype Reason =
    | IDEMPOTENCY_CONFLICT | CONTROL_BUSY | CONTROL_SEQUENCE_STALE | CONTROL_SEQUENCE_GAP
    | CONTROL_CAPACITY_EXCEEDED | CAPTURE_OPERATION_FAILED | OtherReason(code: int)

  datatype Outcome = Result(value: int) | Failed(reason: Reason)

  datatype Request = Request(operation: Operation, requestId: RequestId, controlSeq: nat, digest: Digest)

  /** A record of the ledger: the request it answers, and its outcome once it is completed. */
  datatype Entry = Entry(request: Request, outcome: Option<Outcome>)

  /** The ledger as a list of records in order of insertion. */
  datatype Ledger = Ledger(capacity: nat, last: nat, entries: seq<Entry>)

  datatype Answer = Granted | Replayed(outcome: Outcome) | Refused(reason: Reason)

  /** Distinct request IDs, and sequence numbers that rise up to `last`. */
  predicate Rising(es: seq<Entry>, last: nat) {
    && (forall i, j :: 0 <= i < j < |es| ==>
          && es[i].request.requestId != es[j].request.requestId
          && es[i].request.controlSeq < es[j].request.controlSeq)
    && (forall i :: 0 <= i < |es| ==> 1 <= es[i].request.controlSeq <= last)
  }

  predicate WellFormed(l: Ledger) {
    0 < l.capacity && |l.entries| <= l.capacity && Rising(l.entries, l.last)
  }

  /** The position of the record of a request ID, or the length when there is none. */
  function Find(es: seq<Entry>, id: RequestId): (i: nat)
    ensures i <= |es|
    ensures i < |es| ==> es[i].request.requestId == id
    ensures forall j :: 0 <= j < i ==> es[j].request.requestId != id
  {
    if es == [] || es[0].request.requestId == id then 0 else 1 + Find(es[1..], id)
  }

  function FirstCompleted(es: seq<Entry>): (i: nat)
    ensures i <= |es|
    ensures i < |es| ==> es[i].outcome.Some?
    ensures forall j :: 0 <= j < i ==> es[j].outcome.None?
  {
    if es == [] || es[0].outcome.Some? then 0 else 1 + FirstCompleted(es[1..])
  }

  predicate HasSequence(es: seq<Entry>, controlSeq: nat) {
    exists i :: 0 <= i < |es| && es[i].request.controlSeq == controlSeq
  }

  function Without(es: seq<Entry>, i: nat): seq<Entry>
    requires i < |es|
  {
    es[..i] + es[i + 1..]
  }

  /** The records with room for one more: unchanged if there is room, else without the first completed one. */
  function MakeRoom(es: seq<Entry>, capacity: nat): Option<seq<Entry>> {
    if |es| < capacity then Some(es)
    else if FirstCompleted(es) == |es| then None
    else Some(Without(es, FirstCompleted(es)))
  }

  /** What the ledger answers to a request, and the ledger afterwards. */
  function LookupOrClaim(l: Ledger, q: Request): (Ledger, Answer) {
    var i := Find(l.entries, q.requestId);
    if i < |l.entries| then
      (l, if l.entries[i].request != q then Refused(IDEMPOTENCY_CONFLICT)
          else if l.entries[i].outcome.None? then Refused(CONTROL_BUSY)
          else Replayed(l.entries[i].outcome.value))
    else if HasSequence(l.entries, q.controlSeq) || q.controlSeq <= l.last then (l, Refused(CONTROL_SEQUENCE_STALE))
    else if q.controlSeq != l.last + 1 then (l, Refused(CONTROL_SEQUENCE_GAP))
    else
      match MakeRoom(l.entries, l.capacity)
      case None => (l, Refused(CONTROL_CAPACITY_EXCEEDED))
      case Some(es) => (l.(last := q.controlSeq, entries := es + [Entry(q, None)]), Granted)
  }

  function Complete(l: Ledger, id: RequestId, outcome: Outcome): Ledger {
    var i := Find(l.entries, id);
    if i == |l.entries| then l
    else l.(entries := l.entries[i := l.entries[i].(outcome := Some(outcome))])
  }

  function RetainOnly(l: Ledger, id: RequestId): Ledger {
    var i := Find(l.entries, id);
    if i == |l.entries| then l else l.(entries := [l.entries[i]])
  }

  // ---------------------------------------------------------------- runs

  datatype Op =
    | Claim(request: Request)
    | Finish(id: RequestId, outcome: Outcome)
    | Retain(id: RequestId)
    | DiscardRecords
    | Clear

  function Do(l: Ledger, op: Op): Ledger {
    match op
    case Claim(q) => LookupOrClaim(l, q).0
    case Finish(id, outcome) => Complete(l, id, outcome)
    case Retain(id) => RetainOnly(l, id)
    case DiscardRecords => l.(entries := [])
    case Clear => l.(entries := [], last := 0)
  }

  function DoAll(l: Ledger, ops: seq<Op>): Ledger {
    if ops == [] then l else Do(DoAll(l, ops[..|ops| - 1]), ops[|ops| - 1])
  }

  /** The control sequence numbers granted in a run, in order. */
  function Grants(l: Ledger, ops: seq<Op>): seq<nat> {
    if ops == [] then []
    else
      var before, op := DoAll(l, ops[..|ops| - 1]), ops[|ops| - 1];
      Grants(l, ops[..|ops| - 1])
      + (if op.Claim? && LookupOrClaim(before, op.request).1 == Granted then [op.request.controlSeq] else [])
  }

  /** Where position `j` of a list without its element `i` comes from. */
  function Source(i: nat, j: nat): nat {
    if j < i then j else j + 1
  }

  lemma WithoutAt(es: seq<Entry>, i: nat)
    requires i < |es|
    ensures |Without(es, i)| == |es| - 1
    ensures forall j :: 0 <= j < |es| - 1 ==> Without(es, i)[j] == es[Source(i, j)]
  {
  }

  lemma RisingWithout(es: seq<Entry>, last: nat, i: nat)
    requires Rising(es, last) && i < |es|
    ensures Rising(Without(es, i), last)
  {
    WithoutAt(es, i);
    hide Without;
  }

  /** The second dictionary is the inverse of the first: it sends each sequence number to its request ID. */
  predicate Indexes(index: map<nat, RequestId>, es: seq<Entry>) {
    && (forall i :: 0 <= i < |es| ==>
          es[i].request.controlSeq in index && index[es[i].request.controlSeq] == es[i].request.requestId)
    && (forall k :: k in index ==> HasSequence(es, k))
  }

  lemma IndexLookup(index: map<nat, RequestId>, es: seq<Entry>, k: nat)
    requires Indexes(index, es)
    ensures k in index <==> HasSequence(es, k)
  {
  }

  lemma IndexesWithout(index: map<nat, RequestId>, es: seq<Entry>, last: nat, i: nat)
    requires Indexes(index, es) && Rising(es, last) && i < |es|
    ensures Indexes(index - {es[i].request.controlSeq}, Without(es, i))
  {
    var rest, c := Without(es, i), es[i].request.controlSeq;
    WithoutAt(es, i);
    forall k | k in index - {c} ensures HasSequence(rest, k) {
      var j :| 0 <= j < |es| && es[j].request.controlSeq == k;
      assert es[j] == rest[if j < i then j else j - 1];
    }
    hide Without, HasSequence;
  }

  lemma IndexesAppend(index: map<nat, RequestId>, es: seq<Entry>, last: nat, q: Request)
    requires Indexes(index, es) && Rising(es, last) && q.controlSeq == last + 1
    ensures Indexes(index[q.controlSeq := q.requestId], es + [Entry(q, None)])
  {
    var es' := es + [Entry(q, None)];
    assert forall i :: 0 <= i < |es| ==> es'[i] == es[i];
    assert es'[|es|].request.controlSeq == q.controlSeq;
  }

  lemma MakeRoomKeeps(es: seq<Entry>, last: nat, capacity: nat)
    requires Rising(es, last) && |es| <= capacity && MakeRoom(es, capacity).Some?
    ensures var room := MakeRoom(es, capacity).value;
            && Rising(room, last) && |room| < capacity && (forall e :: e in room ==> e in es)
  {
    if |es| == capacity {
      RisingWithout(es, last, FirstCompleted(es));
    }
  }

  lemma AppendKeeps(es: seq<Entry>, last: nat, q: Request)
    requires Rising(es, last) && q.controlSeq == last + 1 && (forall e :: e in es ==> e.request.requestId != q.requestId)
    ensures Rising(es + [Entry(q, None)], last + 1)
  {
  }

  lemma AbsentId(es: seq<Entry>, id: RequestId)
    requires Find(es, id) == |es|
    ensures forall e :: e in es ==> e.request.requestId != id
  {
  }

  lemma DoKeepsWellFormed(l: Ledger, op: Op)
    requires WellFormed(l)
    ensures WellFormed(Do(l, op)) && Do(l, op).capacity == l.capacity
  {
    if op.Claim? && LookupOrClaim(l, op.request).1 == Granted {
      MakeRoomKeeps(l.entries, l.last, l.capacity);
      AbsentId(l.entries, op.request.requestId);
      AppendKeeps(MakeRoom(l.entries, l.capacity).value, l.last, op.request);
    }
    hide MakeRoom;
  }

  lemma {:induction false} RunKeepsWellFormed(l: Ledger, ops: seq<Op>)
    requires WellFormed(l)
    ensures WellFormed(DoAll(l, ops)) && DoAll(l, ops).capacity == l.capacity
  {
    if ops != [] {
      RunKeepsWellFormed(l, ops[..|ops| - 1]);
      DoKeepsWellFormed(DoAll(l, ops[..|ops| - 1]), ops[|ops| - 1]);
    }
  }

  /** Absent a clear, the grants of a run are exactly the numbers after the first high-water, one by one. */
  lemma {:induction false} GrantsAreConsecutive(l: Ledger, ops: seq<Op>)
    requires Clear !in ops
    ensures DoAll(l, ops).last == l.last + |Grants(l, ops)|
    ensures forall k :: 0 <= k < |Grants(l, ops)| ==> Grants(l, ops)[k] == l.last + 1 + k
  {
    if ops != [] {
      GrantsAreConsecutive(l, ops[..|ops| - 1]);
      LastMoves(DoAll(l, ops[..|ops| - 1]), ops[|ops| - 1]);
    }
    hide Do, LookupOrClaim;
  }

  /** Without a clear the high-water mark moves by one with each grant and not otherwise. */
  lemma LastMoves(l: Ledger, op: Op)
    requires op != Clear
    ensures if op.Claim? && LookupOrClaim(l, op.request).1 == Granted then
              Do(l, op).last == l.last + 1 == op.request.controlSeq
            else Do(l, op).last == l.last
  {
    if op.Claim? { OnlyGrantsChange(l, op.request); }
  }

  /** A clear moves the high-water back, and the same request is granted a second time. */
  lemma ClearForgets(l: Ledger, q: Request)
    requires WellFormed(l) && q.controlSeq == 1
    ensures var cleared := Do(l, Clear);
            LookupOrClaim(cleared, q).1 == Granted && LookupOrClaim(Do(Do(cleared, Claim(q)), Clear), q).1 == Granted
  {
    assert Do(Do(l, Clear), Claim(q)).entries == [Entry(q, None)];
  }

  /**
   Once a request was granted, no later lookup of it is ever granted again, whatever was evicted,
   retained or discarded in between; when its record is gone it is refused as stale.
   */
  lemma GrantedOnce(l: Ledger, q: Request, ops: seq<Op>)
    requires WellFormed(l) && LookupOrClaim(l, q).1 == Granted && Clear !in ops
    ensures var later := DoAll(LookupOrClaim(l, q).0, ops);
            var answer := LookupOrClaim(later, q).1;
            && answer != Granted
            && (Find(later.entries, q.requestId) == |later.entries| ==> answer == Refused(CONTROL_SEQUENCE_STALE))
  {
    GrantsAreConsecutive(LookupOrClaim(l, q).0, ops);
  }

  /** A refusal leaves the ledger exactly as it was, and so does a replay. */
  lemma OnlyGrantsChange(l: Ledger, q: Request)
    ensures LookupOrClaim(l, q).1 != Granted ==> LookupOrClaim(l, q).0 == l
    ensures LookupOrClaim(l, q).1 == Granted ==> q.controlSeq == l.last + 1 == LookupOrClaim(l, q).0.last
  {
  }

  /** Record `v` is completed, and no completed record has a smaller sequence number. */
  predicate LeastCompleted(es: seq<Entry>, v: nat) {
    && v < |es| && es[v].outcome.Some?
    && forall j :: 0 <= j < |es| && es[j].outcome.Some? ==> es[v].request.controlSeq <= es[j].request.controlSeq
  }

  /** What a grant evicts: nothing while there is room, else the completed record of least sequence number. */
  lemma EvictsLeastCompleted(l: Ledger, q: Request)
    requires WellFormed(l) && LookupOrClaim(l, q).1 == Granted
    ensures |l.entries| < l.capacity ==> LookupOrClaim(l, q).0.entries == l.entries + [Entry(q, None)]
    ensures |l.entries| == l.capacity ==>
              exists v :: LeastCompleted(l.entries, v)
                && LookupOrClaim(l, q).0.entries == Without(l.entries, v) + [Entry(q, None)]
  {
    if |l.entries| == l.capacity {
      assert LeastCompleted(l.entries, FirstCompleted(l.entries));
    }
  }

  /** A new request is turned away for lack of room exactly when every record is still running. */
  lemma CapacityExceededIff(l: Ledger, q: Request)
    requires WellFormed(l)
    ensures LookupOrClaim(l, q).1 == Refused(CONTROL_CAPACITY_EXCEEDED) <==>
              && q.controlSeq == l.last + 1
              && |l.entries| == l.capacity
              && (forall e :: e in l.entries ==> e.request.requestId != q.requestId && e.outcome.None?)
  {
    if Find(l.entries, q.requestId) == |l.entries| {
      AbsentId(l.entries, q.requestId);
    }
  }

  // ---------------------------------------------------------------- the class

  class ControlReplayRecord {
    const request: Request
    var completed: bool
    var result: Option<int>
    var errorReason: Option<Reason>

    constructor (request: Request)
      ensures this.request == request && !completed && result.None? && errorReason.None?
    {
      this.request := request;
      completed, result, errorReason := false, None, None;
    }

    function AsEntry(): Entry
      reads this
    {
      Entry(request,
            if !completed then None
            else if errorReason.Some? then Some(Failed(errorReason.value))
            else if result.Some? then Some(Result(result.value))
            else Some(Failed(CAPTURE_OPERATION_FAILED)))
    }

    /** What a completed record replays. */
    method ReplayResult() returns (answer: Answer)
      ensures answer == if AsEntry().outcome.None? then Refused(CONTROL_BUSY) else Replayed(AsEntry().outcome.value)
    {
      if !completed {
        return Refused(CONTROL_BUSY);
      }
      if errorReason.Some? {
        return Replayed(Failed(errorReason.value));
      }
      if result.None? {
        return Replayed(Failed(CAPTURE_OPERATION_FAILED));
      }
      return Replayed(Result(result.value));
    }
  }

  datatype Lookup = Found(record: ControlReplayRecord) | Claimed(record: ControlReplayRecord) | Raises(reason: Reason)

  /** `records` is the record dictionary in insertion order; `requestIdBySeq` is its inverse index. */
  class ControlReplayLedger {
    const capacity: nat
    var lastControlSeq: nat
    var records: seq<ControlReplayRecord>
    var requestIdBySeq: map<nat, RequestId>

    ghost function View(): Ledger
      reads this, records
    {
      Ledger(capacity, lastControlSeq, Entries(records))
    }

    /** The two dictionaries are inverse to each other on top of a well-formed ledger. */
    ghost predicate Valid()
      reads this, records
    {
      WellFormed(View()) && Indexes(requestIdBySeq, View().entries)
    }

    constructor (capacity: nat := MAX_CONTROL_MUTATIONS_PER_SESSION)
      requires capacity > 0
      ensures Valid() && View() == Ledger(capacity, 0, [])
    {
      this.capacity := capacity;
      lastControlSeq, records, requestIdBySeq := 0, [], map[];
    }

    method LookupOrClaimRecord(q: Request) returns (r: Lookup)
      requires Valid()
      modifies this
      ensures Valid() && View() == LookupOrClaim(old(View()), q).0
      ensures match LookupOrClaim(old(View()), q).1
              case Granted => r.Claimed? && fresh(r.record) && r.record.request == q && r.record in records
              case Replayed(outcome) =>
                r.Found? && r.record in records && r.record.AsEntry() == Entry(q, Some(outcome))
              case Refused(reason) => r == Raises(reason)
    {
      hide Rising, Without, MakeRoom, Entries, Find, Indexes;
      var i := FindRecord(q.requestId);
      if i < |records| {
        if records[i].request != q {
          return Raises(IDEMPOTENCY_CONFLICT);
        }
        if !records[i].completed {
          return Raises(CONTROL_BUSY);
        }
        return Found(records[i]);
      }
      IndexLookup(requestIdBySeq, View().entries, q.controlSeq);
      if q.controlSeq in requestIdBySeq {
        return Raises(CONTROL_SEQUENCE_STALE);
      }
      if q.controlSeq <= lastControlSeq {
        return Raises(CONTROL_SEQUENCE_STALE);
      }
      if q.controlSeq != lastControlSeq + 1 {
        return Raises(CONTROL_SEQUENCE_GAP);
      }
      DoKeepsWellFormed(View(), Claim(q));
      var room := EnsureRoom();
      if !room {
        return Raises(CONTROL_CAPACITY_EXCEEDED);
      }
      IndexesAppend(requestIdBySeq, View().entries, lastControlSeq, q);
      var record := new ControlReplayRecord(q);
      ghost var before := View().entries;
      EntriesAppend(records, record);
      records := records + [record];
      requestIdBySeq := requestIdBySeq[q.controlSeq := q.requestId];
      lastControlSeq := q.controlSeq;
      return Claimed(record);
    }

    method FindRecord(id: RequestId) returns (i: nat)
      ensures i == Find(View().entries, id) && i <= |records|
    {
      i := 0;
      while i < |records| && records[i].request.requestId != id
        invariant i <= |records|
        invariant forall j :: 0 <= j < i ==> records[j].request.requestId != id
      {
        i := i + 1;
      }
      FindIs(View().entries, id, i);
    }

    method ExistingRecord(q: Request) returns (r: Option<Lookup>)
      requires Valid()
      ensures r.None? <==> Find(View().entries, q.requestId) == |records|
      ensures r.Some? ==>
                match LookupOrClaim(View(), q).1
                case Replayed(outcome) =>
                  r.value.Found? && r.value.record in records && r.value.record.AsEntry() == Entry(q, Some(outcome))
                case Refused(reason) => r.value == Raises(reason)
                case Granted => false
    {
      hide Rising, Indexes;
      var i := FindRecord(q.requestId);
      if i == |records| {
        return None;
      }
      if records[i].request != q {
        return Some(Raises(IDEMPOTENCY_CONFLICT));
      }
      if !records[i].completed {
        return Some(Raises(CONTROL_BUSY));
      }
      return Some(Found(records[i]));
    }

    /** The one position of a record object, or the length when the ledger does not own it. */
    lemma OwnedAt(record: ControlReplayRecord) returns (k: nat)
      requires Valid()
      ensures k <= |records| && (k < |records| <==> record in records)
      ensures forall j :: 0 <= j < |records| ==> (records[j] == record <==> j == k)
    {
      k := |records|;
      if record in records {
        k :| 0 <= k < |records| && records[k] == record;
        forall j | 0 <= j < |records| && j != k ensures records[j] != record {
          assert View().entries[j].request != View().entries[k].request;
        }
      }
    }

    lemma FoundIsOwned(record: ControlReplayRecord, i: nat)
      requires Valid() && i == Find(View().entries, record.request.requestId)
      ensures i <= |records| && (i < |records| && records[i] == record <==> record in records)
    {
      var k := OwnedAt(record);
      if k < |records| {
        assert View().entries[k].request.requestId == record.request.requestId;
        hide Indexes, Find;
        assert i <= k;
      }
    }

    /** Completion is written into the record itself; the ledger shows it if it still owns the record. */
    method CompleteResult(record: ControlReplayRecord, value: int)
      requires Valid()
      modifies record
      ensures Valid() && record.AsEntry() == Entry(record.request, Some(Result(value)))
      ensures View() == if record in records then Complete(old(View()), record.request.requestId, Result(value))
                        else old(View())
    {
      hide Rising, Indexes, Complete;
      ghost var k := OwnedAt(record);
      record.result := Some(value);
      record.errorReason := None;
      record.completed := true;
      CompletedAt(old(View()), View().entries, k, record.AsEntry(), requestIdBySeq);
    }

    method CompleteError(record: ControlReplayRecord, reason: Reason)
      requires Valid()
      modifies record
      ensures Valid() && record.AsEntry() == Entry(record.request, Some(Failed(reason)))
      ensures View() == if record in records then Complete(old(View()), record.request.requestId, Failed(reason))
                        else old(View())
    {
      hide Rising, Indexes, Complete;
      ghost var k := OwnedAt(record);
      record.result := None;
      record.errorReason := Some(reason);
      record.completed := true;
      CompletedAt(old(View()), View().entries, k, record.AsEntry(), requestIdBySeq);
    }

    /** Only the very record object the ledger owns can be retained. */
    method RetainOnlyRecord(record: ControlReplayRecord) returns (ok: bool)
      requires Valid()
      modifies this
      ensures Valid() && ok == (record in old(records))
      ensures View() == if ok then RetainOnly(old(View()), record.request.requestId) else old(View())
    {
      hide Rising, Indexes, RetainOnly;
      var i := FindRecord(record.request.requestId);
      FoundIsOwned(record, i);
      RetainedAlone(View(), record.request.requestId, i);
      if i == |records| || records[i] != record {
        return false;
      }
      requestIdBySeq := map[record.request.controlSeq := record.request.requestId];
      records := [record];
      assert View().entries == [record.AsEntry()];
      return true;
    }

    method DiscardReplayRecords()
      requires Valid()
      modifies this
      ensures Valid() && View() == Do(old(View()), DiscardRecords)
    {
      records, requestIdBySeq := [], map[];
    }

    method ClearLedger()
      requires Valid()
      modifies this
      ensures Valid() && View() == Do(old(View()), Clear)
    {
      records, requestIdBySeq, lastControlSeq := [], map[], 0;
    }

    /** Make a place for one more record, evicting the oldest completed one if there is none. */
    method EnsureRoom() returns (ok: bool)
      requires Valid()
      modifies this
      ensures Valid() && lastControlSeq == old(lastControlSeq)
      ensures var room := MakeRoom(old(View()).entries, capacity);
              ok == room.Some? && View().entries == if ok then room.value else old(View()).entries
    {
      hide Rising, Indexes, Without, Entries, FirstCompleted;
      ghost var es := View().entries;
      while |records| >= capacity
        invariant Valid() && lastControlSeq == old(lastControlSeq)
        invariant View().entries == es || (|records| < capacity && MakeRoom(es, capacity) == Some(View().entries))
        decreases |records|
      {
        var i := FindCompleted();
        if i == |records| {
          return false;
        }
        Evict(i);
      }
      return true;
    }

    method FindCompleted() returns (i: nat)
      ensures i == FirstCompleted(View().entries) && i <= |records|
    {
      i := 0;
      while i < |records| && !records[i].completed
        invariant i <= |records|
        invariant forall j :: 0 <= j < i ==> !records[j].completed
      {
        i := i + 1;
      }
      FirstCompletedIs(View().entries, i);
    }

    method Evict(i: nat)
      requires Valid() && i < |records|
      modifies this
      ensures Valid() && lastControlSeq == old(lastControlSeq)
      ensures |records| == old(|records|) - 1 && View().entries == Without(old(View()).entries, i)
    {
      hide Rising, Indexes;
      RisingWithout(View().entries, lastControlSeq, i);
      IndexesWithout(requestIdBySeq, View().entries, lastControlSeq, i);
      EntriesWithout(records, i);
      requestIdBySeq := requestIdBySeq - {records[i].request.controlSeq};
      records := records[..i] + records[i + 1..];
    }
  }

  /** The records' contents, in order. */
  ghost function Entries(records: seq<ControlReplayRecord>): (es: seq<Entry>)
    reads records
    ensures |es| == |records| && forall i :: 0 <= i < |records| ==> es[i] == records[i].AsEntry()
  {
    if records == [] then [] else [records[0].AsEntry()] + Entries(records[1..])
  }

  /** A ledger with one of its records alone. */
  lemma RetainedAlone(l: Ledger, id: RequestId, i: nat)
    requires WellFormed(l) && i == Find(l.entries, id)
    ensures i == |l.entries| ==> forall j :: 0 <= j < i ==> l.entries[j].request.requestId != id
    ensures i < |l.entries| ==>
              var e := l.entries[i];
              && RetainOnly(l, id) == l.(entries := [e]) && WellFormed(l.(entries := [e]))
              && Indexes(map[e.request.controlSeq := e.request.requestId], [e])
  {
    if i < |l.entries| {
      var e := l.entries[i];
      assert [e][0].request.controlSeq == e.request.controlSeq;
    }
  }

  lemma EntriesAppend(rs: seq<ControlReplayRecord>, r: ControlReplayRecord)
    ensures Entries(rs + [r]) == Entries(rs) + [r.AsEntry()]
  {
  }

  lemma CompletedAt(was: Ledger, es: seq<Entry>, k: nat, e: Entry, index: map<nat, RequestId>)
    requires WellFormed(was) && Indexes(index, was.entries) && |es| == |was.entries| && k <= |es|
    requires forall i :: 0 <= i < |es| ==> es[i] == if i == k then e else was.entries[i]
    requires k < |es| ==> e.request == was.entries[k].request && e.outcome.Some?
    ensures WellFormed(was.(entries := es)) && Indexes(index, es)
    ensures was.(entries := es) == if k < |es| then Complete(was, e.request.requestId, e.outcome.value) else was
  {
    SameRequests(was.entries, es, was.last, index);
    if k < |es| {
      FindIs(was.entries, e.request.requestId, k);
      assert es == was.entries[k := e];
    } else {
      assert es == was.entries;
    }
    hide Find, Rising, Indexes;
  }

  lemma SameRequests(es: seq<Entry>, es': seq<Entry>, last: nat, index: map<nat, RequestId>)
    requires Rising(es, last) && Indexes(index, es)
    requires |es| == |es'| && forall i :: 0 <= i < |es| ==> es[i].request == es'[i].request
    ensures Rising(es', last) && Indexes(index, es')
  {
    forall k | k in index ensures HasSequence(es', k) {
      var i :| 0 <= i < |es| && es[i].request.controlSeq == k;
      assert es'[i].request.controlSeq == k;
    }
    hide HasSequence;
  }

  lemma EntriesWithout(rs: seq<ControlReplayRecord>, i: nat)
    requires i < |rs|
    ensures Entries(rs[..i] + rs[i + 1..]) == Without(Entries(rs), i)
  {
    hide Entries;
  }

  lemma {:induction false} FindIs(es: seq<Entry>, id: RequestId, i: nat)
    requires i <= |es| && (i < |es| ==> es[i].request.requestId == id)
    requires forall j :: 0 <= j < i ==> es[j].request.requestId != id
    ensures i == Find(es, id)
  {
  }

  lemma {:induction false} FirstCompletedIs(es: seq<Entry>, i: nat)
    requires i <= |es| && (i < |es| ==> es[i].outcome.Some?)
    requires forall j :: 0 <= j < i ==> es[j].outcome.None?
    ensures i == FirstCompleted(es)
  {
  }
}
