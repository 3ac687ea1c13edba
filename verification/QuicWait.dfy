/**
 The cancellable `wait` of the QUIC elements: any number of waits and aborts share one canceller
 behind a mutex. A wait locks it to register its future, runs the future without the lock, and
 locks it again for its final check; `Abort` can come at any time. Each method is one such step.
 */
module QuicWait {
  import opened Prelude

  datatype Canceller = Empty | Handle(handle: nat) | Cancelled

  /** What the future itself yields: its value, or an error if the timeout elapsed. */
  datatype Outcome = Value(v: int) | TimedOut

  datatype WaitResult = Success(v: int) | FutureAborted | FutureError

  datatype Phase =
    | Running(handle: nat)
    | Resolved(handle: nat, outcome: Option<Outcome>)  // None: the future was aborted
    | Returned(result: WaitResult)

  function ResultOf(outcome: Option<Outcome>): WaitResult {
    match outcome
    case Some(Value(v)) => Success(v)
    case Some(TimedOut) => FutureError
    case None => FutureAborted
  }

  class Protocol {
    var canceller: Canceller
    var phases: map<nat, Phase>
    var aborted: set<nat>
    var nextHandle: nat

    ghost predicate InFlight(w: nat)
      reads this
    {
      w in phases && !phases[w].Returned?
    }

    ghost predicate AtMostOne()
      reads this
    {
      forall w, v :: InFlight(w) && InFlight(v) ==> w == v
    }

    /** At most one future is in flight, and its handle is the stored one unless it has been cancelled. */
    ghost predicate Valid()
      reads this
    {
      && AtMostOne()
      && (forall w :: InFlight(w) ==> canceller == Handle(phases[w].handle) || canceller == Cancelled)
      && (forall w :: InFlight(w) ==> phases[w].handle < nextHandle)
      && (forall w :: InFlight(w) ==> (canceller == Cancelled <==> phases[w].handle in aborted))
      && (forall w :: w in phases && phases[w].Resolved? && phases[w].outcome == None ==> phases[w].handle in aborted)
      && (canceller.Handle? ==> exists w :: InFlight(w))
      && (forall h :: h in aborted ==> h < nextHandle)
    }

    constructor ()
      ensures Valid() && canceller == Empty && phases == map[]
    {
      canceller, phases, aborted, nextHandle := Empty, map[], {}, 0;
    }

    /** `wait` locks the canceller for the first time. */
    method Begin(w: nat)
      requires w !in phases
      modifies this`canceller, this`phases, this`nextHandle
      ensures old(Valid()) ==> Valid()
      ensures phases == old(phases)[w := match old(canceller)
                                         case Cancelled => Returned(FutureAborted)
                                         case Handle(_) => Returned(FutureError)
                                         case Empty => Running(old(nextHandle))]
      ensures canceller == if old(canceller) == Empty then Handle(old(nextHandle)) else old(canceller)
    {
      if canceller == Cancelled {
        phases := phases[w := Returned(FutureAborted)];
        assert forall v :: InFlight(v) ==> old(InFlight(v)) && phases[v] == old(phases[v]);
        return;
      } else if canceller.Handle? {
        phases := phases[w := Returned(FutureError)];
        assert forall v :: InFlight(v) ==> old(InFlight(v)) && phases[v] == old(phases[v]);
        assert forall v :: old(InFlight(v)) ==> InFlight(v);
        return;
      }
      canceller := Handle(nextHandle);
      phases := phases[w := Running(nextHandle)];
      nextHandle := nextHandle + 1;
      assert InFlight(w);
    }

    /** The future ends on its own or, if its handle was aborted, possibly as aborted. */
    method Resolve(w: nat, outcome: Option<Outcome>)
      requires w in phases && phases[w].Running?
      requires outcome == None ==> phases[w].handle in aborted
      modifies this`phases
      ensures old(Valid()) ==> Valid()
      ensures phases == old(phases)[w := Resolved(old(phases)[w].handle, outcome)]
    {
      assert InFlight(w);
      phases := phases[w := Resolved(phases[w].handle, outcome)];
      assert InFlight(w) && forall v :: InFlight(v) ==> old(InFlight(v));
    }

    /**
     `wait` locks the canceller again. As long as the protocol is intact, it reports abortion exactly if
     an abort came before this point.
     */
    method Finish(w: nat) returns (r: WaitResult)
      requires w in phases && phases[w].Resolved?
      modifies this`canceller, this`phases
      ensures old(Valid()) ==> Valid() && (r == FutureAborted <==> old(canceller) == Cancelled)
      ensures phases == old(phases)[w := Returned(r)]
      ensures old(canceller) != Cancelled ==> canceller == Empty
      ensures old(canceller) != Cancelled && old(phases)[w].outcome.Some? ==>
                match old(phases)[w].outcome.value
                case Value(v) => r == Success(v)
                case TimedOut => r == FutureError
      ensures old(canceller) != Cancelled && old(phases)[w].outcome == None ==> r == FutureAborted
      ensures old(canceller) == Cancelled ==> r == FutureAborted && canceller == Cancelled
    {
      assert InFlight(w);
      if canceller == Cancelled {
        r := FutureAborted;
      } else {
        canceller := Empty;
        r := ResultOf(phases[w].outcome);
      }
      phases := phases[w := Returned(r)];
      assert forall v :: InFlight(v) ==> v != w && old(InFlight(v)) && phases[v] == old(phases[v]);
    }

    /**
     Cancels for good: every later wait fails, and as long as the protocol is intact the future in
     flight is aborted.
     */
    method Abort()
      modifies this`canceller, this`aborted
      ensures old(Valid()) ==> Valid() && forall w :: InFlight(w) ==> phases[w].handle in aborted
      ensures canceller == Cancelled
      ensures aborted == old(aborted) + if old(canceller).Handle? then {old(canceller).handle} else {}
    {
      if canceller.Handle? {
        aborted := aborted + {canceller.handle};
      }
      canceller := Cancelled;
    }

    /** The elements' unlock_stop: it keeps the protocol intact exactly if no cancelled wait is still in flight. */
    method UnlockStop()
      modifies this`canceller
      ensures canceller == if old(canceller) == Cancelled then Empty else old(canceller)
      ensures old(Valid()) ==> (Valid() <==> old(canceller) != Cancelled || !exists w :: InFlight(w))
    {
      if canceller == Cancelled {
        canceller := Empty;
      }
    }
  }

  /**
   A wait that begins after a reset leaves at most one future in flight if and only if the reset did
   not find a cancelled wait in flight; and then all later steps keep it that way.
   */
  method ResetThenBegin(p: Protocol, v: nat)
    requires p.Valid() && v !in p.phases
    modifies p
    ensures p.AtMostOne() <==> old(p.canceller != Cancelled || !exists w :: p.InFlight(w))
    ensures p.AtMostOne() ==> p.Valid()
  {
    ghost var early := p.canceller == Cancelled && exists w :: p.InFlight(w);
    ghost var w := if early then var w: nat :| p.InFlight(w); w else v;
    p.UnlockStop();
    p.Begin(v);
    assert early ==> p.InFlight(w) && p.InFlight(v) && w != v;
  }

  /** From every state with a cancelled wait `w` in flight, a reset lets a second future start. */
  method ResetTooEarly(p: Protocol, ghost w: nat, v: nat)
    requires p.Valid() && p.canceller == Cancelled && p.InFlight(w) && v !in p.phases
    modifies p
    ensures p.InFlight(w) && p.InFlight(v) && w != v
    ensures p.phases == old(p.phases)[v := Running(old(p.nextHandle))]
    ensures p.canceller == Handle(old(p.nextHandle)) && p.aborted == old(p.aborted)
  {
    p.UnlockStop();
    p.Begin(v);
  }

  /**
   What that leads to: when `w` ends it clears the handle of `v`, and the next abort misses `v`, which
   is still in flight.
   */
  method AbortMissed(p: Protocol, w: nat, v: nat, outcome: Outcome) returns (r: WaitResult)
    requires p.Valid() && p.canceller == Cancelled && p.InFlight(w) && v !in p.phases
    modifies p
    ensures p.canceller == Cancelled && p.InFlight(v) && p.phases[v].handle !in p.aborted
  {
    ResetTooEarly(p, w, v);
    if p.phases[w].Running? {
      p.Resolve(w, Some(outcome));
    }
    r := p.Finish(w);
    p.Abort();
  }

  /** Such states are reached: a wait and an abort are enough. */
  method EarlyReset() returns (p: Protocol)
    ensures p.InFlight(0) && p.InFlight(1)
  {
    p := new Protocol();
    p.Begin(0);
    p.Abort();
    ResetTooEarly(p, 0, 1);
  }
}
