/** The normal-application admission gate that capture mode closes and reopens. */
module Isolation {

  /** Every field a snapshot of the gate is computed from. */
  datatype Gate = Gate(
    open: bool,
    keepalive: bool,
    destroyed: bool,
    revision: nat,
    closeCount: nat,
    reopenCount: nat)

  const INITIAL_GATE := Gate(true, true, false, 0, 0, 0)

  datatype Command = Close | Reopen | DisableKeepalive | Destroy

  predicate Accepts(g: Gate, c: Command) {
    match c
    case Close => !g.destroyed && g.open
    case Reopen => !g.destroyed && !g.open
    case DisableKeepalive => !g.destroyed && g.keepalive
    case Destroy => true
  }

  /** The gate after a command by the owner: a refused command changes nothing. */
  function Apply(g: Gate, c: Command): Gate {
    if !Accepts(g, c) then g
    else
      match c
      case Close => g.(open := false, revision := g.revision + 1, closeCount := g.closeCount + 1)
      case Reopen =>
        g.(open := true, keepalive := true, revision := g.revision + 1, reopenCount := g.reopenCount + 1)
      case DisableKeepalive => g.(keepalive := false, revision := g.revision + 1)
      case Destroy => g.(open := false, keepalive := false, destroyed := true, revision := g.revision + 1)
  }

  /** The counters tell the gate's position until it is destroyed. */
  predicate Balanced(g: Gate) {
    && !g.destroyed
    && g.closeCount == g.reopenCount + (if g.open then 0 else 1)
    && g.revision >= g.closeCount + g.reopenCount
  }

  function ApplyAll(g: Gate, cs: seq<Command>): Gate
    decreases |cs|
  {
    if cs == [] then g else Apply(ApplyAll(g, cs[..|cs| - 1]), cs[|cs| - 1])
  }

  /** Over any run without destruction the gate is open exactly when closes and reopens match. */
  lemma {:induction false} CountersTellPosition(cs: seq<Command>)
    requires Destroy !in cs
    ensures Balanced(ApplyAll(INITIAL_GATE, cs))
  {
    if cs != [] {
      CountersTellPosition(cs[..|cs| - 1]);
    }
  }

  /** Destruction is final: whatever follows, the gate admits nothing and its counters stand still. */
  lemma {:induction false} DestroyedStaysShut(g: Gate, cs: seq<Command>)
    requires g.destroyed && !g.open && !g.keepalive
    ensures var r := ApplyAll(g, cs);
            r.destroyed && !r.open && !r.keepalive
            && r.closeCount == g.closeCount && r.reopenCount == g.reopenCount
  {
    if cs != [] {
      DestroyedStaysShut(g, cs[..|cs| - 1]);
    }
  }

  /** Capability for the mutating operations; a fresh one is minted on destruction. */
  class Owner {
    constructor () {}
  }

  class IsolationAuthority {
    var admissionOpen: bool
    var transportKeepaliveAllowed: bool
    var destroyed: bool
    var revision: nat
    var closeCount: nat
    var reopenCount: nat
    var owner: Owner

    function Snapshot(): Gate
      reads this
    {
      Gate(admissionOpen, transportKeepaliveAllowed, destroyed, revision, closeCount, reopenCount)
    }

    constructor ()
      ensures Snapshot() == INITIAL_GATE && fresh(owner)
    {
      admissionOpen, transportKeepaliveAllowed, destroyed := true, true, false;
      revision, closeCount, reopenCount := 0, 0, 0;
      owner := new Owner();
    }

    method CloseGate(who: Owner) returns (ok: bool)
      modifies this
      ensures owner == old(owner)
      ensures ok == (who == old(owner) && Accepts(old(Snapshot()), Close))
      ensures Snapshot() == if who == old(owner) then Apply(old(Snapshot()), Close) else old(Snapshot())
    {
      if who != owner || destroyed || !admissionOpen {
        return false;
      }
      admissionOpen := false;
      revision := revision + 1;
      closeCount := closeCount + 1;
      return true;
    }

    method ReopenGate(who: Owner) returns (ok: bool)
      modifies this
      ensures owner == old(owner)
      ensures ok == (who == old(owner) && Accepts(old(Snapshot()), Reopen))
      ensures Snapshot() == if who == old(owner) then Apply(old(Snapshot()), Reopen) else old(Snapshot())
    {
      if who != owner || destroyed || admissionOpen {
        return false;
      }
      admissionOpen := true;
      transportKeepaliveAllowed := true;
      revision := revision + 1;
      reopenCount := reopenCount + 1;
      return true;
    }

    method DisableTransportKeepalive(who: Owner)
      modifies this
      ensures owner == old(owner)
      ensures Snapshot() == if who == old(owner) then Apply(old(Snapshot()), DisableKeepalive) else old(Snapshot())
    {
      if who != owner || destroyed || !transportKeepaliveAllowed {
        return;
      }
      transportKeepaliveAllowed := false;
      revision := revision + 1;
    }

    /** Afterwards the old owner token no longer opens anything. */
    method DestroyGate(who: Owner)
      modifies this
      ensures Snapshot() == if who == old(owner) then Apply(old(Snapshot()), Destroy) else old(Snapshot())
      ensures if who == old(owner) then fresh(owner) else owner == old(owner)
    {
      if who != owner {
        return;
      }
      admissionOpen := false;
      transportKeepaliveAllowed := false;
      destroyed := true;
      revision := revision + 1;
      owner := new Owner();
    }
  }
}
