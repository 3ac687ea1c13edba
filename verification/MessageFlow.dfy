/** Where the messages of a session are on their way to the client, and how many samples are in flight. */
module MessageFlow {
  import opened Prelude

  /**
   Of the messages `output`, those before `popped` have been taken by the writer and those from `delivered` on
   have not reached its queue. What has come in and not gone out is in flight.
   */
  ghost predicate FlowInv(output: seq<seq<real>>, delivered: nat, popped: nat, outQueue: seq<seq<real>>,
                          sending: Option<nat>, accepted: int, inFlight: int)
  {
    && popped <= delivered <= |output|
    && outQueue == output[popped..delivered]
    && inFlight == accepted - |Flatten(output[..popped])| + (if sending.Some? then sending.value else 0)
    && (sending.Some? ==> popped > 0 && sending.value == |output[popped - 1]|)
  }

  /** More output does not touch what is on its way. */
  lemma FlowGrows(output: seq<seq<real>>, more: seq<seq<real>>, delivered: nat, popped: nat, outQueue: seq<seq<real>>,
                  sending: Option<nat>, accepted: int, inFlight: int)
    requires output <= more && FlowInv(output, delivered, popped, outQueue, sending, accepted, inFlight)
    ensures FlowInv(more, delivered, popped, outQueue, sending, accepted, inFlight)
  {
    assert more[popped..delivered] == output[popped..delivered];
    assert more[..popped] == output[..popped];
  }

  /** The writer takes the front message; unless it is empty it is then being sent. */
  lemma FlowPop(output: seq<seq<real>>, delivered: nat, popped: nat, outQueue: seq<seq<real>>, accepted: int,
                inFlight: int)
    requires FlowInv(output, delivered, popped, outQueue, None, accepted, inFlight) && outQueue != []
    ensures popped < delivered <= |output| && outQueue[0] == output[popped]
    ensures FlowInv(output, delivered, popped + 1, outQueue[1..],
                    if |outQueue[0]| > 0 then Some(|outQueue[0]|) else None, accepted, inFlight)
  {
    FlattenAt(output, popped);
  }
}
