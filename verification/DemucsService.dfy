/**
 The websocket service around a demucs session: parameter checks, and the back-pressure between the
 input task, which stops reading while too many samples are in flight, and the writer task.
 Message lengths are counted in stereo frames. The event loop runs callbacks in the order in which
 the session issued them.
 */
module DemucsService {
  import opened Prelude
  import opened DemucsParameters
  import opened OverlapAdd
  import opened DemucsProtocol
  import opened MessageFlow
  import opened DemucsSession

  // ---- Parameters ----

  datatype Config = Config(rate: nat, setup: Setup, latency: nat)

  /** What the session constructor derives from its arguments. */
  ghost predicate IsConfigFor(c: Config, rate: nat, duration: int, overlap: real, model: Model) {
    && c.rate == rate && c.setup.model == model
    && 3200 <= c.setup.chunk && c.setup.chunk * 1000 <= duration * rate < c.setup.chunk * 1000 + 1000
    && StrideFor(c.setup.chunk, overlap, c.setup.stride)
    && LatencyFor(c.setup.chunk, overlap, c.latency)
    && TriangleWeights(c.setup.chunk, c.setup.weights)
  }

  /** Rejects what the session constructor rejects; every accepted session has the derived parameters. */
  function Configure(rate: nat, duration: int, overlap: real, model: Model): (r: Option<Config>)
    ensures r.Some? <==> 32000 <= rate <= 48000 && 100 <= duration && 0.0 <= overlap < 1.0
    ensures r.Some? ==> IsConfigFor(r.value, rate, duration, overlap, model)
  {
    if rate < 32000 || rate > 48000 || duration < 100 || overlap < 0.0 || overlap >= 1.0 then None
    else
      ChunkLength(rate, duration);
      var chunk := duration * rate / 1000;
      Derived(chunk, overlap);
      Some(Config(rate, Setup(chunk, Stride(chunk, overlap), model, Weights(chunk)), Latency(chunk, overlap)))
  }

  lemma ConfiguredSetupValid(rate: nat, duration: int, overlap: real, model: Model)
    requires Configure(rate, duration, overlap, model).Some?
    requires forall w: seq<Frame> :: |model(w)| == |w|
    ensures Configure(rate, duration, overlap, model).value.setup.Valid()
  {
    WeightsShape(Configure(rate, duration, overlap, model).value.setup.chunk);
  }

  // ---- Back-pressure ----

  class Service {
    const session: Session
    const maxInFlight: nat

    var inFlight: int
    var message: Option<seq<Frame>>  // counted by the input task, not yet pushed
    var inputDone: bool

    var delivered: nat               // output callbacks whose coroutine has run
    var outQueue: seq<seq<real>>
    var popped: nat                  // messages taken by the writer task
    var sending: Option<nat>         // samples in the message being sent
    var writerDone: bool

    /** Frames that have come in: pushed, or counted and about to be pushed. */
    ghost function Accepted(): nat
      reads this, session
    {
      |session.progress.pushed| + if message.Some? then |message.value| else 0
    }

    ghost predicate Valid()
      reads this, session
    {
      && session.Valid()
      && 3 * session.g.chunk <= maxInFlight
      && inputDone == session.progress.finished
      && (inputDone ==> message == None)
      && (message.Some? ==> message.value != [])
      && FlowInv(session.output, delivered, popped, outQueue, sending, Accepted(), inFlight)
    }

    constructor (config: Config)
      requires config.setup.Valid()
      ensures Valid() && fresh(session) && session.progress == INIT && session.g == config.setup
      ensures maxInFlight == Max(Max(10 * config.rate, 3 * config.setup.chunk), 2 * config.latency)
    {
      session := new Session(config.setup);
      maxInFlight := Max(Max(10 * config.rate, 3 * config.setup.chunk), 2 * config.latency);
      inFlight, message, inputDone := 0, None, false;
      delivered, outQueue, popped, sending, writerDone := 0, [], 0, None, false;
    }

    /** A message has been read: it counts as in flight before it is pushed. */
    method CountMessage(data: seq<Frame>)
      requires Valid() && message == None && !inputDone && data != [] && inFlight < maxInFlight
      modifies this`inFlight, this`message
      ensures Valid() && message == Some(data) && inFlight == old(inFlight) + |data|
    {
      inFlight := inFlight + |data|;
      message := Some(data);
    }

    method PushMessage()
      requires Valid() && message.Some?
      modifies this`message, session
      ensures Valid() && message == None && inFlight == old(inFlight)
      ensures session.progress.pushed == old(session.progress.pushed) + old(message).value
    {
      var data := message.value;
      session.OutputIsLog();
      LogUnchanged(session.g, session.progress, Push(data));
      session.PushData(data);
      session.OutputIsLog();
      message := None;
    }

    method FinishInput()
      requires Valid() && message == None
      modifies this`inputDone, session
      ensures Valid() && inputDone
    {
      session.OutputIsLog();
      LogUnchanged(session.g, session.progress, Finish);
      session.PushData([]);
      session.OutputIsLog();
      inputDone := true;
    }

    /** The processing thread does its next locked region while both tasks go on. */
    method RunProcessingThread()
      requires Valid() && !session.threadFinished
      requires session.newChunk == None ==> session.g.chunk <= session.inQueueNSamples || session.inQueueFinish
      modifies session
      ensures Valid() && session.output == old(session.output)
      ensures session.progress == Apply(old(session.progress), if old(session.newChunk).Some? then Submit
                                        else if old(session.inQueue) != [] then Cut else Terminate)
    {
      if session.newChunk.Some? {
        RunSubmit();
      } else {
        RunQueue();
      }
    }

    method RunSubmit()
      requires Valid() && session.newChunk.Some?
      modifies session
      ensures Valid() && session.output == old(session.output)
      ensures session.progress == Apply(old(session.progress), Submit)
    {
      session.OutputIsLog();
      session.SubmitChunk();
      LogUnchanged(session.g, old(session.progress), Submit);
      session.OutputIsLog();
    }

    method RunQueue()
      requires Valid() && !session.threadFinished && session.newChunk == None
      requires session.g.chunk <= session.inQueueNSamples || session.inQueueFinish
      modifies session
      ensures Valid() && session.output == old(session.output)
      ensures session.progress == Apply(old(session.progress), if old(session.inQueue) != [] then Cut else Terminate)
    {
      session.OutputIsLog();
      session.ProcessQueue();
      LogUnchanged(session.g, old(session.progress), if old(session.inQueue) != [] then Cut else Terminate);
      session.OutputIsLog();
    }

    /** A window completes while both tasks go on. */
    method CompleteWindow(k: nat)
      requires Valid() && Enabled(session.g, session.progress, Complete(k))
      modifies session
      ensures Valid() && session.progress == Apply(old(session.progress), Complete(k))
    {
      session.OutputIsLog();
      ghost var before := session.output;
      StepGrowsLog(session.g, session.progress, Complete(k));
      session.ApplyModel(k);
      session.OutputIsLog();
      FlowGrows(before, session.output, delivered, popped, outQueue, sending, Accepted(), inFlight);
    }

    /** The coroutine of the oldest undelivered callback runs. */
    method Deliver()
      requires Valid() && delivered < |session.output|
      modifies this`outQueue, this`delivered
      ensures Valid() && outQueue == old(outQueue) + [session.output[old(delivered)]]
    {
      outQueue := outQueue + [session.output[delivered]];
      delivered := delivered + 1;
    }

    /** Only the last message of a drained session is empty. */
    lemma EndMarker(i: nat)
      requires Valid() && i < |session.output|
      ensures session.output[i] == [] <==> session.progress.drained && i == |session.output| - 1
    {
      session.OutputIsLog();
      MarkerIsLast(session.g, session.progress, i);
    }

    /** The writer takes a message; only the end marker ends it, and nothing is left behind. */
    method PopOutput()
      requires Valid() && outQueue != [] && sending == None && !writerDone
      modifies this`outQueue, this`popped, this`sending, this`writerDone
      ensures Valid() && outQueue == old(outQueue)[1..]
      ensures writerDone <==> old(outQueue)[0] == []
      ensures writerDone ==> outQueue == [] && session.progress.drained && popped == |session.output|
    {
      EndMarker(popped);
      var current := TakeMessage();
      if |current| == 0 {
        assert |outQueue| == 0;
        writerDone := true;
      }
    }

    /** Takes the front message out of the queue; its samples are in flight until they are sent. */
    method TakeMessage() returns (current: seq<real>)
      requires Valid() && outQueue != [] && sending == None
      modifies this`outQueue, this`popped, this`sending
      ensures Valid() && current == old(outQueue)[0] && outQueue == old(outQueue)[1..] && popped == old(popped) + 1
    {
      FlowPop(session.output, delivered, popped, outQueue, Accepted(), inFlight);
      current := outQueue[0];
      outQueue := outQueue[1..];
      popped := popped + 1;
      if |current| > 0 {
        sending := Some(|current|);
      }
    }

    /** A message has been sent: its samples are no longer in flight. */
    method Sent()
      requires Valid() && sending.Some?
      modifies this`inFlight, this`sending
      ensures Valid() && sending == None && inFlight == old(inFlight) - old(sending).value
    {
      session.OutputIsLog();
      WrittenAtMostPushed(session.g, session.progress, popped);
      assert inFlight >= sending.value;
      inFlight := inFlight - sending.value;
      sending := None;
    }

    /** Nothing but more input can change the service. */
    ghost predicate Idle()
      requires Valid()
      reads this, session
    {
      && message == None && sending == None && popped == delivered == |session.output|
      && !Enabled(session.g, session.progress, Cut)
      && !Enabled(session.g, session.progress, Submit)
      && AllDone(session.progress)
    }

    /** Back-pressure never holds up the producer when there is nothing left to process. */
    lemma NeverBlockedIdle()
      requires Valid() && Idle() && !inputDone
      ensures 0 <= inFlight < 2 * session.g.chunk <= maxInFlight
    {
      session.OutputIsLog();
      assert session.output[..popped] == session.output;
      IdleBound(session.g, session.progress);
    }

    /** Once the writer has ended, every sample that came in has gone out. */
    lemma NothingInFlightAtEnd()
      requires Valid() && session.progress.drained && popped == |session.output| && sending == None
      ensures inFlight == 0
    {
      session.OutputIsLog();
      assert session.output[..popped] == session.output;
      DrainedTotal(session.g, session.progress);
    }
  }

  /** Only a completion produces output. */
  lemma LogUnchanged(g: Setup, a: Progress, e: Event)
    requires Inv(g, a) && Enabled(g, a, e) && !e.Complete?
    ensures Log(g, Apply(a, e)) == Log(g, a)
  {
    var b := Apply(a, e);
    NextBlockBound(g, a);
    if e.Push? && !a.finished {
      g.BlocksStable(a.pushed, e.frames, a.cut, NextBlock(g, a));
    } else if e.Submit? {
      PrefixUnique(b.done, b.submitted, Prefix(a.done, a.submitted));
    }
  }

  lemma LogTotal(g: Setup, a: Progress)
    requires Inv(g, a)
    ensures |Flatten(Log(g, a))| == Min(NextBlock(g, a) * g.chunk, |a.pushed|)
  {
    BlocksArePrefix(g.Output(a.pushed), g.chunk, NextBlock(g, a));
    MarkerLast(g.Blocks(a.pushed, NextBlock(g, a)), a.drained);
  }

  lemma MarkerIsLast(g: Setup, a: Progress, i: nat)
    requires Inv(g, a) && i < |Log(g, a)|
    ensures Log(g, a)[i] == [] <==> a.drained && i == |Log(g, a)| - 1
  {
    BlocksArePrefix(g.Output(a.pushed), g.chunk, NextBlock(g, a));
    MarkerLast(g.Blocks(a.pushed, NextBlock(g, a)), a.drained);
  }

  lemma WrittenAtMostPushed(g: Setup, a: Progress, i: nat)
    requires Inv(g, a) && i <= |Log(g, a)|
    ensures |Flatten(Log(g, a)[..i])| <= |a.pushed|
  {
    LogTotal(g, a);
    FlattenSplit(Log(g, a), i);
  }

  lemma IdleBound(g: Setup, a: Progress)
    requires Inv(g, a) && !a.finished && AllDone(a) && !Enabled(g, a, Cut) && !Enabled(g, a, Submit)
    ensures 0 <= |a.pushed| - |Flatten(Log(g, a))| < 2 * g.chunk
  {
    LogTotal(g, a);
    if a.cut > 0 { MulNext(a.cut - 1, g.stride); }
    FloorBound(a.submitted * g.stride, g.chunk);
  }

  lemma DrainedTotal(g: Setup, a: Progress)
    requires Inv(g, a) && a.drained
    ensures |Flatten(Log(g, a))| == |a.pushed|
  {
    LogTotal(g, a);
    NextBlockBound(g, a);
  }

  /**
   What the reported latency promises: once everything cut so far is processed, each sample that lies
   at least the latency behind the end of the input has been output.
   */
  lemma LatencySuffices(rate: nat, duration: int, overlap: real, model: Model, a: Progress, p: nat)
    requires var config := Configure(rate, duration, overlap, model);
             && config.Some? && Inv(config.value.setup, a) && p + config.value.latency <= |a.pushed|
             && !a.finished && AllDone(a)
             && !Enabled(config.value.setup, a, Cut) && !Enabled(config.value.setup, a, Submit)
    ensures var g := Configure(rate, duration, overlap, model).value.setup;
            p < |Flatten(Log(g, a))|
  {
    var g := Configure(rate, duration, overlap, model).value.setup;
    LatencyAtLeast(g.chunk, overlap);
    IdleBound(g, a);
    if overlap == 0.0 {
      LogTotal(g, a);
      if a.cut > 0 { MulNext(a.cut - 1, g.stride); }
      DivUnique(a.submitted * g.stride, a.submitted, g.chunk);
    }
  }
}
