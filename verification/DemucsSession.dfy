/**
 The demucs session object: an input queue of arrays, a deque of pending windows, and the output
 loop that runs under the deque's lock each time a window completes. Each method is one locked
 region. `progress` is the abstract state of `DemucsProtocol`; `Valid` ties every field to it.
 */
module DemucsSession {
  import opened Prelude
  import opened OverlapAdd
  import opened DemucsProtocol
  import opened SessionInvariant

  class Session {
    const g: Setup

    var inQueue: seq<seq<Frame>>
    var inQueueNSamples: nat
    var inQueueFinish: bool

    // Locals of the processing thread that live across its locked regions
    var newChunk: Option<(seq<Frame>, nat)>
    var threadFinished: bool

    var pendingChunks: seq<PendingChunk>
    var nextPendingChunkIndex: nat
    var nextOutChunkIndex: nat

    // All arguments of output_cb so far
    var output: seq<seq<real>>

    ghost var progress: Progress
    ghost var front: nat

    ghost predicate Valid()
      reads this
    {
      && LoopInv(g, progress, front, nextOutChunkIndex, pendingChunks, output)
      && nextOutChunkIndex == NextBlock(g, progress)
      && nextPendingChunkIndex == progress.submitted + (if progress.terminated then 1 else 0)
      && QueueInv(g, progress.pushed, progress.cut, progress.submitted, inQueue, newChunk)
      && inQueueNSamples == |Flatten(inQueue)|
      && inQueueFinish == progress.finished
      && threadFinished == progress.terminated
    }

    /** The deque and the output, between iterations of the output loop, at progress `b`. */
    ghost predicate Looping(b: Progress, f: nat)
      reads this
    {
      LoopInv(g, b, f, nextOutChunkIndex, pendingChunks, output)
    }

    /** The deque alone. */
    ghost predicate Holding(b: Progress, f: nat)
      reads this
    {
      DequeInv(g, b, f, nextOutChunkIndex, pendingChunks)
    }

    /** The deque and the output while spent windows are being dropped. */
    ghost predicate Dropping(b: Progress, f: nat)
      reads this
    {
      DropInv(g, b, f, nextOutChunkIndex, pendingChunks, output)
    }

    constructor (g: Setup)
      requires g.Valid()
      ensures Valid() && this.g == g && progress == INIT
    {
      this.g := g;
      inQueue, inQueueNSamples, inQueueFinish := [], 0, false;
      newChunk, threadFinished := None, false;
      pendingChunks, nextPendingChunkIndex, nextOutChunkIndex := [], 0, 0;
      output := [];
      progress, front := INIT, 0;
    }

    /** What has been sent is the log of the protocol. */
    lemma OutputIsLog()
      requires Valid()
      ensures output == Log(g, progress)
    {
    }

    /** A window that is cut but not yet submitted: its frames, zero-padded, and how many zeros there are. */
    lemma WindowInHand()
      requires Valid() && newChunk.Some?
      ensures var (chunk, numZeroes) := newChunk.value;
              var start := progress.submitted * g.stride;
              && |chunk| == g.chunk && numZeroes == Max(0, start + g.chunk - |progress.pushed|)
              && forall t :: 0 <= t < g.chunk ==>
                   chunk[t] == if start + t < |progress.pushed| then progress.pushed[start + t] else Frame(0.0, 0.0)
    {
      g.WindowFrom(progress.pushed, progress.submitted, progress.submitted * g.stride);
    }

    method PushData(data: seq<Frame>)
      requires Valid()
      modifies this
      ensures Valid()
      ensures progress == Apply(old(progress), if data == [] then Finish else Push(data))
      ensures output == old(output)
      ensures old(progress).finished ==> progress == old(progress)
      ensures !old(progress).finished ==>
                progress.pushed == old(progress).pushed + data && progress.finished == (data == [])
    {
      if inQueueFinish {
        return;
      }
      if data != [] {
        Enqueue(data);
      } else {
        MarkFinished();
      }
    }

    method Enqueue(data: seq<Frame>)
      requires Valid() && !inQueueFinish && data != []
      modifies this`inQueue, this`inQueueNSamples, this`progress
      ensures Valid() && progress == Apply(old(progress), Push(data))
    {
      QueueKeepsPush(g, progress, inQueue, newChunk, data);
      LoopKeepsPush(g, progress, front, nextOutChunkIndex, pendingChunks, output, data);
      inQueueNSamples := inQueueNSamples + |data|;
      inQueue := inQueue + [data];
      progress := Apply(progress, Push(data));
    }

    method MarkFinished()
      requires Valid()
      modifies this`inQueueFinish, this`progress
      ensures Valid() && progress == Apply(old(progress), Finish)
    {
      LoopKeepsFinish(g, progress, front, nextOutChunkIndex, pendingChunks, output);
      inQueueFinish := true;
      progress := Apply(progress, Finish);
    }

    /** Copies the first `chunk` queued frames, leaving silence where there are too few. */
    method FillChunk() returns (chunk: seq<Frame>, copied: nat)
      requires g.Valid() && [] !in inQueue
      ensures copied == Min(g.chunk, |Flatten(inQueue)|)
      ensures chunk == Padded(Flatten(inQueue)[..copied], g.chunk)
      ensures forall t :: 0 <= t < copied ==> chunk[t] == Flatten(inQueue)[t]
      ensures forall t :: copied <= t < g.chunk ==> chunk[t] == Frame(0.0, 0.0)
    {
      var buf := new Frame[g.chunk](_ => SILENCE);
      ghost var flat := Flatten(inQueue);
      copied := 0;
      var x := 0;
      while x < |inQueue| && copied < g.chunk
        invariant 0 <= x <= |inQueue| && |Flatten(inQueue[..x])| <= |flat|
        invariant copied == Min(g.chunk, |Flatten(inQueue[..x])|)
        invariant buf[..] == Padded(flat[..copied], g.chunk)
      {
        FlattenAt(inQueue, x);
        copied := CopyChunk(buf, copied, inQueue[x], flat);
        x := x + 1;
      }
      assert inQueue[..|inQueue|] == inQueue;
      chunk := buf[..];
    }

    /** Copies as much of one queued array as fits behind the frames copied so far. */
    method CopyChunk(buf: array<Frame>, copied: nat, chunk: seq<Frame>, ghost flat: seq<Frame>) returns (r: nat)
      requires copied <= buf.Length == g.chunk && copied + |chunk| <= |flat|
      requires flat[copied..copied + |chunk|] == chunk && buf[..] == Padded(flat[..copied], g.chunk)
      modifies buf
      ensures r == Min(g.chunk, copied + |chunk|) && buf[..] == Padded(flat[..r], g.chunk)
    {
      var toCopy := Min(|chunk|, g.chunk - copied);
      PaddedStep(flat, g.chunk, copied, chunk, toCopy);
      CopyFrames(buf, copied, chunk[..toCopy]);
      r := copied + toCopy;
    }

    /** Removes the first `stride` queued frames, or all of them. */
    method DropFrames()
      requires g.Valid() && [] !in inQueue && inQueueNSamples == |Flatten(inQueue)|
      modifies this`inQueue, this`inQueueNSamples
      ensures Flatten(inQueue) == old(Flatten(inQueue))[Min(g.stride, |old(Flatten(inQueue))|)..]
      ensures [] !in inQueue && inQueueNSamples == |Flatten(inQueue)|
    {
      ghost var flat := Flatten(inQueue);
      var dropped := 0;
      while dropped < g.stride && |inQueue| > 0
        invariant dropped <= g.stride && dropped <= |flat|
        invariant Flatten(inQueue) == flat[dropped..]
        invariant [] !in inQueue && inQueueNSamples == |Flatten(inQueue)|
        decreases g.stride - dropped
      {
        var chunk := inQueue[0];
        assert chunk in inQueue;
        var toDrop := Min(|chunk|, g.stride - dropped);
        if |chunk| == toDrop {
          inQueue := inQueue[1..];
        } else {
          ghost var rest := inQueue[1..];
          inQueue := inQueue[0 := chunk[toDrop..]];
          assert inQueue[1..] == rest;
        }
        dropped := dropped + toDrop;
        inQueueNSamples := inQueueNSamples - toDrop;
      }
    }

    /**
     One round of the processing thread under the queue's lock, once it need not wait: cut the next
     window, or queue the terminator when the input is used up.
     */
    method ProcessQueue()
      requires Valid() && !threadFinished && newChunk == None
      requires g.chunk <= inQueueNSamples || inQueueFinish
      modifies this
      ensures Valid()
      ensures progress == Apply(old(progress), if old(inQueue) != [] then Cut else Terminate)
      ensures Enabled(g, old(progress), if old(inQueue) != [] then Cut else Terminate)
    {
      if |inQueue| > 0 {
        CutChunk();
      } else {
        assert inQueueNSamples == 0;
        QueueTerminator();
      }
    }

    method CutChunk()
      requires Valid() && !threadFinished && newChunk == None && inQueue != []
      requires g.chunk <= inQueueNSamples || inQueueFinish
      modifies this`inQueue, this`inQueueNSamples, this`newChunk, this`progress
      ensures Valid()
      ensures Enabled(g, old(progress), Cut) && progress == Apply(old(progress), Cut)
    {
      CutEnabled(g, progress, inQueue);
      ghost var flat := Flatten(inQueue);
      var chunk, numZeroes := TakeWindow();
      QueueKeepsCut(g, progress, flat, chunk, numZeroes, inQueue);
      LoopKeepsCut(g, progress, front, nextOutChunkIndex, pendingChunks, output);
      newChunk := Some((chunk, numZeroes));
      progress := Apply(progress, Cut);
    }

    /** The next `chunk` frames, padded, are copied, and the first `stride` of them leave the queue. */
    method TakeWindow() returns (chunk: seq<Frame>, numZeroes: nat)
      requires g.Valid() && [] !in inQueue && inQueueNSamples == |Flatten(inQueue)|
      modifies this`inQueue, this`inQueueNSamples
      ensures IsTaken(g, old(Flatten(inQueue)), chunk, numZeroes, Flatten(inQueue))
      ensures [] !in inQueue && inQueueNSamples == |Flatten(inQueue)|
    {
      var copied;
      chunk, copied := FillChunk();
      numZeroes := g.chunk - copied;
      DropFrames();
    }

    method QueueTerminator()
      requires Valid() && !threadFinished && newChunk == None && inQueue == [] && inQueueFinish
      modifies this`pendingChunks, this`nextPendingChunkIndex, this`threadFinished, this`progress
      ensures Valid()
      ensures Enabled(g, old(progress), Terminate) && progress == Apply(old(progress), Terminate)
    {
      TerminateEnabled(g, progress, inQueue);
      LoopKeepsTerminate(g, progress, front, nextOutChunkIndex, pendingChunks, output);
      pendingChunks := pendingChunks + [PendingChunk(nextPendingChunkIndex, None, None, 0, true)];
      nextPendingChunkIndex := nextPendingChunkIndex + 1;
      threadFinished := true;
      progress := Apply(progress, Terminate);
    }

    /** Appends the window in hand to the deque; it is then handed to the thread pool. */
    method SubmitChunk()
      requires Valid() && newChunk.Some?
      modifies this
      ensures Valid() && progress == Apply(old(progress), Submit)
      ensures Enabled(g, old(progress), Submit)
    {
      QueueKeepsSubmit(g, progress, inQueue, newChunk);
      var (chunk, numZeroes) := newChunk.value;
      LoopKeepsSubmit(g, progress, front, nextOutChunkIndex, pendingChunks, output);
      pendingChunks := pendingChunks + [PendingChunk(nextPendingChunkIndex, Some(chunk), None, numZeroes, false)];
      nextPendingChunkIndex := nextPendingChunkIndex + 1;
      newChunk := None;
      progress := Apply(progress, Submit);
    }

    /** Is the current output block complete? Visits ready windows until one reaches its end. */
    method BlockReady(ghost b: Progress, ghost f: nat) returns (ready: bool)
      requires Holding(b, f)
      ensures ready <==> Ready(g, b, nextOutChunkIndex)
    {
      var outStart := nextOutChunkIndex * g.chunk;
      var outEnd := outStart + g.chunk;
      MulNext(nextOutChunkIndex, g.chunk);
      FrontInBlock(g, b, f, nextOutChunkIndex, pendingChunks);
      ghost var d := Prefix(b.done, b.submitted);
      var x := 0;
      while x < |pendingChunks|
        invariant x <= |pendingChunks| && f + x <= d
        invariant (f + x) * g.stride < outEnd
      {
        var chunk := pendingChunks[x];
        if chunk.out == None && !chunk.last {
          return false;
        }
        var start := chunk.index * g.stride;
        var end := start + g.chunk;
        assert outEnd > start;
        assert outStart < end by { MulMono(f, f + x, g.stride); }
        MulNext(f + x, g.stride);
        if start + g.stride >= outEnd || chunk.last {
          if !chunk.last { MulMono(f + x + 1, d, g.stride); }
          return true;
        }
        x := x + 1;
      }
      return false;
    }

    /** The arrays hold the sums, over windows `f..e`, of the block that starts at `outStart`. */
    ghost predicate Summed(acc: array<real>, sumWeights: array<real>, input: seq<Frame>, f: nat, e: nat, outStart: nat)
      requires g.Valid()
      reads acc, sumWeights
    {
      SumsOver(g, input, f, e, outStart, acc[..], sumWeights[..])
    }

    /** Adds window `k` into the sums, over windows `f..k`, of the block that starts at `outStart`. */
    method Accumulate(acc: array<real>, sumWeights: array<real>, ghost input: seq<Frame>, ghost f: nat, k: nat,
                      out: seq<real>, outStart: nat)
      requires g.Valid() && acc.Length == sumWeights.Length == g.chunk && acc != sumWeights
      requires f <= k && out == g.model(g.Window(input, k))
      requires k * g.stride < outStart + g.chunk && outStart < k * g.stride + g.chunk
      requires Summed(acc, sumWeights, input, f, k, outStart)
      modifies acc, sumWeights
      ensures Summed(acc, sumWeights, input, f, k + 1, outStart)
    {
      var start := k * g.stride;
      var copyToStart := Max(start, outStart) - outStart;
      var copyFromStart := Max(start, outStart) - start;
      var toCopy := Min(start + g.chunk, outStart + g.chunk) - Max(start, outStart);
      assert toCopy > 0;
      SumsStep(g, input, f, k, outStart, copyToStart, copyFromStart, toCopy, acc[..], sumWeights[..]);
      var weights := g.weights[copyFromStart..copyFromStart + toCopy];
      AddSlice(acc, copyToStart, Products(out[copyFromStart..copyFromStart + toCopy], weights));
      AddSlice(sumWeights, copyToStart, weights);
    }

    /** Shortens a block whose tail lies in the padding of `chunk`. */
    method TrimLength(chunk: PendingChunk, ghost n: nat, outStart: nat, length: nat) returns (r: nat)
      requires chunk.numZeroes == Zeroes(g, n, chunk.index)
      requires length == g.chunk || length == Min(g.chunk, Max(0, n - outStart))
      ensures chunk.numZeroes > 0 ==> r == Min(g.chunk, Max(0, n - outStart))
      ensures chunk.numZeroes == 0 ==> r == length
    {
      var end, outEnd := chunk.index * g.stride + g.chunk, outStart + g.chunk;
      r := length;
      if chunk.numZeroes > 0 {
        var zeroesStart := end - chunk.numZeroes;
        if zeroesStart <= outStart {
          r := 0;
        } else if zeroesStart <= outEnd {
          r := g.chunk - (outEnd - zeroesStart);
        }
      }
    }

    /** Adds one window to the sums and shortens the block by its padding. */
    method AddWindow(acc: array<real>, sumWeights: array<real>, length: nat, ghost input: seq<Frame>, ghost f: nat,
                     chunk: PendingChunk, outStart: nat) returns (r: nat)
      requires g.Valid() && acc.Length == sumWeights.Length == g.chunk && acc != sumWeights && f <= chunk.index
      requires chunk.out == Some(g.model(g.Window(input, chunk.index)))
      requires chunk.numZeroes == Zeroes(g, |input|, chunk.index)
      requires chunk.index * g.stride < outStart + g.chunk && outStart < chunk.index * g.stride + g.chunk
      requires Summed(acc, sumWeights, input, f, chunk.index, outStart)
      requires length == if chunk.index == f then g.chunk else VisitedLength(g, |input|, chunk.index, outStart)
      modifies acc, sumWeights
      ensures Summed(acc, sumWeights, input, f, chunk.index + 1, outStart)
      ensures r == VisitedLength(g, |input|, chunk.index + 1, outStart)
    {
      Accumulate(acc, sumWeights, input, f, chunk.index, chunk.out.value, outStart);
      r := TrimLength(chunk, |input|, outStart, length);
      LaterEndsLater(g, |input|, chunk.index);
    }

    /**
     Sums all windows that overlap the current output block; `e` is one past the last of them.
     `length` stops where the padding of the visited windows starts.
     */
    method SumWindows(ghost b: Progress, ghost f: nat, outStart: nat)
      returns (acc: array<real>, sumWeights: array<real>, length: nat, ghost e: nat)
      requires Holding(b, f)
      requires Ready(g, b, nextOutChunkIndex) && f < b.submitted && outStart == nextOutChunkIndex * g.chunk
      ensures fresh(acc) && fresh(sumWeights) && acc != sumWeights && acc.Length == sumWeights.Length == g.chunk
      ensures f < e <= b.submitted && LastOverlapping(g, b, e, nextOutChunkIndex)
      ensures Summed(acc, sumWeights, b.pushed, f, e, outStart)
      ensures length == VisitedLength(g, |b.pushed|, e, outStart)
    {
      var outEnd := outStart + g.chunk;
      FrontInBlock(g, b, f, nextOutChunkIndex, pendingChunks);
      acc := new real[g.chunk](_ => 0.0);
      sumWeights := new real[g.chunk](_ => 0.0);
      length, e := g.chunk, f;
      EmptySums(g, b.pushed, f, outStart, acc[..], sumWeights[..]);
      var x, complete := 0, false;
      while x < |pendingChunks| && !pendingChunks[x].last && !complete
        invariant e == f + x && x <= b.submitted - f && e <= Prefix(b.done, b.submitted)
        invariant complete <==> outEnd <= e * g.stride
        invariant Summed(acc, sumWeights, b.pushed, f, e, outStart)
        invariant length == if x == 0 then g.chunk else VisitedLength(g, |b.pushed|, e, outStart)
      {
        WindowInBlock(g, b, f, e, nextOutChunkIndex, outStart, pendingChunks);
        var chunk := pendingChunks[x];
        var start := chunk.index * g.stride;
        assert outEnd > start && outStart < start + g.chunk;
        length := AddWindow(acc, sumWeights, length, b.pushed, f, chunk, outStart);
        x, e := x + 1, e + 1;
        complete := start + g.stride >= outEnd;
      }
      AllVisited(g, b, f, e, nextOutChunkIndex, pendingChunks);
    }

    /** The current output block: the weighted average at every position before the end of the input. */
    method MixBlock(ghost b: Progress, ghost f: nat) returns (block: seq<real>)
      requires Holding(b, f)
      requires Ready(g, b, nextOutChunkIndex) && f < b.submitted
      ensures block == BlockAt(g.Output(b.pushed), nextOutChunkIndex * g.chunk, g.chunk)
    {
      var outStart := nextOutChunkIndex * g.chunk;
      var acc, sumWeights, length, e := SumWindows(b, f, outStart);
      BlockFromSums(g, b, f, e, nextOutChunkIndex, acc[..], sumWeights[..], length);
      block := Normalised(acc, sumWeights, length);
    }

    /** Divides by the summed weights, which the session asserts to be positive. */
    method Normalised(acc: array<real>, sumWeights: array<real>, length: nat) returns (block: seq<real>)
      requires length <= acc.Length == sumWeights.Length && acc != sumWeights
      requires forall t :: 0 <= t < length ==> sumWeights[..][t] > 0.0
      modifies acc
      ensures block == Quotients(old(acc[..]), sumWeights[..], length)
    {
      forall t | 0 <= t < length {
        acc[t] := Ratio(acc[t], sumWeights[..][t]);
      }
      block := acc[..length];
    }

    /** Drops the windows that end at or before the next block; dropping the terminator sends the end marker. */
    method DropSpent(ghost b: Progress, ghost f: nat) returns (ghost b': Progress, ghost f': nat)
      requires Dropping(b, f)
      modifies this`pendingChunks, this`output
      ensures b' == b.(drained := b'.drained)
      ensures Looping(b', f')
    {
      var nextOutStart := nextOutChunkIndex * g.chunk;
      b', f' := b, f;
      while |pendingChunks| > 0
        invariant b' == b.(drained := b'.drained)
        invariant if b'.drained then Looping(b', f') && pendingChunks == [] else Dropping(b', f')
        decreases |pendingChunks|
      {
        var chunk := pendingChunks[0];
        if chunk.out == None && !chunk.last {
          UnfinishedIsNeeded(g, b', f', nextOutChunkIndex, pendingChunks, output);
          return;
        }
        var start := chunk.index * g.stride;
        var end := start + g.chunk;
        if end > nextOutStart {
          return;
        }
        b', f' := PopFront(b', f');
      }
    }

    /** Drops the spent window at the front; if it is the terminator, the end marker is sent. */
    method PopFront(ghost b: Progress, ghost f: nat) returns (ghost b': Progress, ghost f': nat)
      requires Dropping(b, f) && pendingChunks != [] && (pendingChunks[0].out != None || pendingChunks[0].last)
      requires pendingChunks[0].index * g.stride + g.chunk <= nextOutChunkIndex * g.chunk
      modifies this`pendingChunks, this`output
      ensures b' == b.(drained := b'.drained) && |pendingChunks| < |old(pendingChunks)|
      ensures if b'.drained then Looping(b', f') && pendingChunks == [] else Dropping(b', f')
    {
      DropFront(g, b, f, nextOutChunkIndex, pendingChunks, output);
      var chunk := pendingChunks[0];
      pendingChunks := pendingChunks[1..];
      if chunk.last {
        assert |pendingChunks| == 0;
        output := output + [[]];
        b', f' := b.(drained := true), f;
      } else {
        b', f' := b, f + 1;
      }
    }

    /** One iteration of the output loop on a complete block. */
    method OutputBlock(ghost b: Progress, ghost f: nat) returns (ghost b': Progress, ghost f': nat)
      requires Looping(b, f) && Ready(g, b, nextOutChunkIndex)
      modifies this`pendingChunks, this`output, this`nextOutChunkIndex
      ensures b' == b.(drained := b'.drained)
      ensures Looping(b', f')
      ensures nextOutChunkIndex == old(nextOutChunkIndex) + 1
    {
      ReadyNotEmpty(g, b, f, nextOutChunkIndex, pendingChunks);
      if !pendingChunks[0].last {
        var block := MixBlock(b, f);
        if block != [] {
          output := output + [block];
        }
      } else {
        NothingLeft(g, b, f, nextOutChunkIndex, pendingChunks);
      }
      AfterBlock(g, b, f, nextOutChunkIndex, pendingChunks, old(output), output);
      nextOutChunkIndex := nextOutChunkIndex + 1;
      b', f' := DropSpent(b, f);
    }

    /** Outputs every block that is complete. */
    method OutputLoop(ghost b: Progress, ghost f: nat) returns (ghost b': Progress, ghost f': nat)
      requires Looping(b, f)
      modifies this`pendingChunks, this`output, this`nextOutChunkIndex
      ensures Looping(b', f')
      ensures b' == b.(drained := b.terminated && AllDone(b)) && nextOutChunkIndex == NextBlock(g, b')
    {
      b', f' := b, f;
      var ready := BlockReady(b', f');
      while ready
        invariant b' == b.(drained := b'.drained)
        invariant Looping(b', f')
        invariant ready <==> Ready(g, b', nextOutChunkIndex)
        decreases b.submitted * g.stride + g.chunk - nextOutChunkIndex * g.chunk
      {
        LoopProgress(g, b', f', nextOutChunkIndex, pendingChunks);
        b', f' := OutputBlock(b', f');
        ready := BlockReady(b', f');
      }
      LoopDone(g, b', f', nextOutChunkIndex, pendingChunks);
    }

    /** Stores the model output of window `k` in its deque entry and outputs every block that is now complete. */
    method StoreAndOutput(k: nat) returns (ghost b: Progress, ghost f: nat)
      requires Looping(progress, front)
      requires k < progress.submitted && k !in progress.done && nextOutChunkIndex == NextBlock(g, progress)
      modifies this`pendingChunks, this`output, this`nextOutChunkIndex
      ensures Looping(b, f)
      ensures b == Apply(progress, Complete(k)) && nextOutChunkIndex == NextBlock(g, b)
    {
      StoreOutput(g, progress, front, nextOutChunkIndex, pendingChunks, output, k);
      var pos := k - pendingChunks[0].index;
      var chunk := pendingChunks[pos];
      pendingChunks := pendingChunks[pos := chunk.(out := Some(g.model(chunk.input.value)))];
      b, f := OutputLoop(progress.(done := progress.done + {k}), front);
    }

    /** The model output of window `k` arrives. */
    method ApplyModel(k: nat)
      requires Valid() && Enabled(g, progress, Complete(k))
      modifies this`pendingChunks, this`output, this`nextOutChunkIndex, this`progress, this`front
      ensures Valid() && progress == Apply(old(progress), Complete(k))
    {
      progress, front := StoreAndOutput(k);
    }
  }

  method CopyFrames(buf: array<Frame>, at: nat, frames: seq<Frame>)
    requires at + |frames| <= buf.Length
    modifies buf
    ensures buf[..] == old(buf[..at]) + frames + old(buf[at + |frames|..])
  {
    forall k | at <= k < at + |frames| {
      buf[k] := frames[k - at];
    }
  }

  method AddSlice(a: array<real>, at: nat, xs: seq<real>)
    requires at + |xs| <= a.Length
    modifies a
    ensures a[..] == PlusAt(old(a[..]), at, xs)
  {
    forall t | at <= t < at + |xs| {
      a[t] := a[t] + xs[t - at];
    }
  }
}
