/**
 What holds of a demucs session's fields between its locked regions, as predicates over plain values,
 and the lemmas that carry these predicates through each step.
 */
module SessionInvariant {
  import opened Prelude
  import opened OverlapAdd
  import opened DemucsProtocol

  datatype PendingChunk = PendingChunk(
    index: nat,
    input: Option<seq<Frame>>,
    out: Option<seq<real>>,
    numZeroes: nat,
    last: bool)

  /** Padding at the end of window `k` of an input of `n` frames. */
  function Zeroes(g: Setup, n: nat, k: nat): nat {
    Max(0, k * g.stride + g.chunk - n)
  }

  /** The deque entry of window `k`. */
  ghost function Entry(g: Setup, b: Progress, k: nat): PendingChunk {
    var w := g.Window(b.pushed, k);
    PendingChunk(k, Some(w), if k in b.done then Some(g.model(w)) else None, Zeroes(g, |b.pushed|, k), false)
  }

  /** The deque: windows `front..submitted`, then the terminator while it is queued. */
  ghost function Entries(g: Setup, b: Progress, front: nat): (s: seq<PendingChunk>)
    requires front <= b.submitted
    ensures |s| == b.submitted - front + (if b.terminated && !b.drained then 1 else 0)
    ensures forall x :: 0 <= x < b.submitted - front ==> s[x] == Entry(g, b, front + x)
    ensures b.terminated && !b.drained ==> s[b.submitted - front] == PendingChunk(b.submitted, None, None, 0, true)
  {
    seq(b.submitted - front, x requires 0 <= x => Entry(g, b, front + x))
    + (if b.terminated && !b.drained then [PendingChunk(b.submitted, None, None, 0, true)] else [])
  }

  /** The deque as it is between iterations of the output loop. */
  ghost predicate DequeInv(g: Setup, b: Progress, front: nat, j: nat, pending: seq<PendingChunk>) {
    && Inv(g, b)
    && front <= Prefix(b.done, b.submitted)
    && pending == Entries(g, b, front)
    // no window needed by this block was dropped, no spent window is kept
    && (front > 0 ==> (front - 1) * g.stride + g.chunk <= j * g.chunk)
    && (pending != [] ==> j * g.chunk < front * g.stride + g.chunk)
    && (b.drained ==> front == b.submitted && j == CeilDiv(b.submitted * g.stride, g.chunk) + 1)
    && (!b.drained ==> Reached(g, b, j))
  }

  /** The deque and the output as they are between iterations of the output loop. */
  ghost predicate LoopInv(g: Setup, b: Progress, front: nat, j: nat, pending: seq<PendingChunk>,
                          output: seq<seq<real>>)
  {
    && DequeInv(g, b, front, j, pending)
    && output == g.Blocks(b.pushed, j) + (if b.drained then [[]] else [])
  }

  /** Every block before `j` was complete. */
  ghost predicate Reached(g: Setup, b: Progress, j: nat) {
    j * g.chunk <= Prefix(b.done, b.submitted) * g.stride || (b.terminated && AllDone(b))
  }

  /** Block `j` can be output now. */
  ghost predicate Ready(g: Setup, b: Progress, j: nat) {
    !b.drained && Reached(g, b, j + 1)
  }

  /** The input queue holds what has not been cut; a window that is cut but not submitted is in hand. */
  ghost predicate QueueInv(g: Setup, pushed: seq<Frame>, cut: nat, submitted: nat,
                           inQueue: seq<seq<Frame>>, newChunk: Option<(seq<Frame>, nat)>)
  {
    && Flatten(inQueue) == pushed[Min(cut * g.stride, |pushed|)..]
    && [] !in inQueue
    && newChunk == (if cut == submitted then None else
                      Some((g.Window(pushed, submitted), Zeroes(g, |pushed|, submitted))))
  }

  /** Between the output of a block and the next one, while spent windows are being dropped. */
  ghost predicate DropInv(g: Setup, b: Progress, f: nat, j: nat, pending: seq<PendingChunk>, output: seq<seq<real>>) {
    && Inv(g, b) && !b.drained && 0 < j
    && f <= Prefix(b.done, b.submitted)
    && pending == Entries(g, b, f)
    && output == g.Blocks(b.pushed, j)
    && (f > 0 ==> (f - 1) * g.stride + g.chunk <= j * g.chunk)
    && Reached(g, b, j)
    && (b.terminated ==> (j - 1) * g.chunk < b.submitted * g.stride + g.chunk)
  }

  /** A window that is still being processed is never spent. */
  lemma UnfinishedIsNeeded(g: Setup, b: Progress, f: nat, j: nat, pending: seq<PendingChunk>, output: seq<seq<real>>)
    requires DropInv(g, b, f, j, pending, output) && pending != [] && pending[0].out == None && !pending[0].last
    ensures LoopInv(g, b, f, j, pending, output)
  {
    MulMono(Prefix(b.done, b.submitted), f, g.stride);
  }

  lemma DropFront(g: Setup, b: Progress, f: nat, j: nat, pending: seq<PendingChunk>, output: seq<seq<real>>)
    requires DropInv(g, b, f, j, pending, output) && pending != [] && (pending[0].out != None || pending[0].last)
    requires pending[0].index * g.stride + g.chunk <= j * g.chunk
    ensures pending[0].last ==> |pending| == 1 && LoopInv(g, b.(drained := true), f, j, [], output + [[]])
    ensures !pending[0].last ==> DropInv(g, b, f + 1, j, pending[1..], output)
  {
    if pending[0].last {
      var c := b.(drained := true);
      MulNext(j - 1, g.chunk);
      CeilDivUnique(b.submitted * g.stride, j - 1, g.chunk);
      assert [] == Entries(g, c, f);
    } else {
      assert pending[1..] == Entries(g, b, f + 1);
    }
  }

  lemma ReadyNotEmpty(g: Setup, b: Progress, f: nat, j: nat, pending: seq<PendingChunk>)
    requires DequeInv(g, b, f, j, pending) && Ready(g, b, j)
    ensures pending != [] && (pending[0].last <==> f == b.submitted)
  {
    if pending == [] {
      FrontInBlock(g, b, f, j, pending);
      MulNext(j, g.chunk);
      MulMono(Prefix(b.done, b.submitted), f, g.stride);
    }
  }

  /** When only the terminator is left, the block lies past the end of the input. */
  lemma NothingLeft(g: Setup, b: Progress, f: nat, j: nat, pending: seq<PendingChunk>)
    requires DequeInv(g, b, f, j, pending) && f == b.submitted && b.terminated
    ensures BlockAt(g.Output(b.pushed), j * g.chunk, g.chunk) == []
  {
    if f > 0 { MulNext(f - 1, g.stride); }
  }

  lemma AfterBlock(g: Setup, b: Progress, f: nat, j: nat, pending: seq<PendingChunk>,
                   before: seq<seq<real>>, output: seq<seq<real>>)
    requires LoopInv(g, b, f, j, pending, before) && Ready(g, b, j)
    requires output == AppendBlock(before, BlockAt(g.Output(b.pushed), j * g.chunk, g.chunk))
    ensures DropInv(g, b, f, j + 1, pending, output)
  {
    MulNext(j, g.chunk);
    MulMono(f, b.submitted, g.stride);
  }

  lemma StoreOutput(g: Setup, a: Progress, f: nat, j: nat, pending: seq<PendingChunk>, output: seq<seq<real>>, k: nat)
    requires LoopInv(g, a, f, j, pending, output) && k < a.submitted && k !in a.done && j == NextBlock(g, a)
    ensures f <= k && k - f < |pending| && pending[0].index == f && pending[k - f] == Entry(g, a, k)
    ensures var chunk := Entry(g, a, k);
            LoopInv(g, a.(done := a.done + {k}), f, j,
                    pending[k - f := chunk.(out := Some(g.model(chunk.input.value)))], output)
  {
    var b := a.(done := a.done + {k});
    PrefixMono(a.done, b.done, a.submitted);
    MulMono(Prefix(a.done, a.submitted), Prefix(b.done, b.submitted), g.stride);
    NextBlockBound(g, a);
    EntriesStore(g, a, f, k);
  }

  /** Storing the output of window `k` changes its deque entry and no other. */
  lemma EntriesStore(g: Setup, a: Progress, f: nat, k: nat)
    requires f <= k < a.submitted && k !in a.done
    ensures var chunk := Entry(g, a, k);
            Entries(g, a.(done := a.done + {k}), f)
            == Entries(g, a, f)[k - f := chunk.(out := Some(g.model(chunk.input.value)))]
  {
  }

  /** The output loop cannot run past the last window. */
  lemma LoopProgress(g: Setup, b: Progress, f: nat, j: nat, pending: seq<PendingChunk>)
    requires DequeInv(g, b, f, j, pending) && Ready(g, b, j)
    ensures j * g.chunk < b.submitted * g.stride + g.chunk
    ensures (j + 1) * g.chunk == j * g.chunk + g.chunk
  {
    ReadyNotEmpty(g, b, f, j, pending);
    MulMono(f, b.submitted, g.stride);
    MulNext(j, g.chunk);
  }

  /** When the loop stops, the next block index is the one the protocol prescribes. */
  lemma LoopDone(g: Setup, b: Progress, f: nat, j: nat, pending: seq<PendingChunk>)
    requires DequeInv(g, b, f, j, pending) && !Ready(g, b, j)
    ensures j == NextBlock(g, b)
    ensures b.drained <==> b.terminated && AllDone(b)
  {
    MulNext(j, g.chunk);
    if !b.drained {
      DivUnique(Prefix(b.done, b.submitted) * g.stride, j, g.chunk);
    }
  }

  function Quotients(acc: seq<real>, sumWeights: seq<real>, length: nat): seq<real>
    requires length <= |acc| == |sumWeights|
    requires forall t :: 0 <= t < length ==> sumWeights[t] > 0.0
  {
    seq(length, t requires 0 <= t < length => Ratio(acc[t], sumWeights[t]))
  }

  /** Dividing the sums over all overlapping windows gives exactly the block. */
  lemma BlockFromSums(g: Setup, b: Progress, f: nat, e: nat, j: nat, acc: seq<real>, tot: seq<real>, length: nat)
    requires Inv(g, b) && f < e && LastOverlapping(g, b, e, j)
    requires f > 0 ==> (f - 1) * g.stride + g.chunk <= j * g.chunk
    requires length == VisitedLength(g, |b.pushed|, e, j * g.chunk)
    requires SumsOver(g, b.pushed, f, e, j * g.chunk, acc, tot)
    ensures length <= g.chunk && forall t :: 0 <= t < length ==> tot[t] > 0.0
    ensures Quotients(acc, tot, length) == BlockAt(g.Output(b.pushed), j * g.chunk, g.chunk)
  {
    LengthExact(g, b, e, j);
    forall t | 0 <= t < length
      ensures tot[t] > 0.0 && Ratio(acc[t], tot[t]) == g.Output(b.pushed)[j * g.chunk + t]
    {
      BlockAverage(g, b, f, e, j, j * g.chunk + t);
    }
  }

  /** The sums, over windows `f..e`, of the block that starts at `outStart`. */
  ghost predicate SumsOver(g: Setup, input: seq<Frame>, f: nat, e: nat, outStart: nat, acc: seq<real>, tot: seq<real>)
    requires g.Valid()
  {
    && |acc| == |tot| == g.chunk
    && (forall t :: 0 <= t < g.chunk ==> acc[t] == g.Weighted(input, f, e, outStart + t))
    && (forall t :: 0 <= t < g.chunk ==> tot[t] == g.TotalWeight(f, e, outStart + t))
  }

  lemma EmptySums(g: Setup, input: seq<Frame>, f: nat, outStart: nat, acc: seq<real>, tot: seq<real>)
    requires g.Valid() && |acc| == |tot| == g.chunk && forall t :: 0 <= t < g.chunk ==> acc[t] == tot[t] == 0.0
    ensures SumsOver(g, input, f, f, outStart, acc, tot)
  {
  }

  function Products(xs: seq<real>, ys: seq<real>): (r: seq<real>)
    requires |xs| == |ys|
    ensures |r| == |xs| && forall i :: 0 <= i < |r| ==> r[i] == Times(xs[i], ys[i])
  {
    seq(|xs|, i requires 0 <= i < |xs| => Times(xs[i], ys[i]))
  }

  /** `a` with `xs` added to the slice at `at`. */
  function PlusAt(a: seq<real>, at: nat, xs: seq<real>): (r: seq<real>)
    ensures |r| == |a|
    ensures forall t :: 0 <= t < |a| ==> r[t] == if at <= t < at + |xs| then a[t] + xs[t - at] else a[t]
  {
    seq(|a|, t requires 0 <= t < |a| => if at <= t < at + |xs| then a[t] + xs[t - at] else a[t])
  }

  /** Adding the overlapping slice of window `k`, weighted, extends the sums by that window. */
  lemma SumsStep(g: Setup, input: seq<Frame>, f: nat, k: nat, outStart: nat, to: nat, from: nat, n: nat,
                 acc: seq<real>, tot: seq<real>)
    requires g.Valid() && f <= k && SumsOver(g, input, f, k, outStart, acc, tot)
    requires to == Max(k * g.stride, outStart) - outStart && from == Max(k * g.stride, outStart) - k * g.stride
    requires n == Min(k * g.stride, outStart) + g.chunk - Max(k * g.stride, outStart) > 0
    ensures var weights := g.weights[from..from + n];
            SumsOver(g, input, f, k + 1, outStart,
                     PlusAt(acc, to, Products(g.model(g.Window(input, k))[from..from + n], weights)),
                     PlusAt(tot, to, weights))
  {
    var out, weights := g.model(g.Window(input, k)), g.weights[from..from + n];
    var products := Products(out[from..from + n], weights);
    forall t | 0 <= t < g.chunk
      ensures PlusAt(acc, to, products)[t] == g.Weighted(input, f, k + 1, outStart + t)
      ensures PlusAt(tot, to, weights)[t] == g.TotalWeight(f, k + 1, outStart + t)
    {
      TermAt(g, input, k, outStart, to, from, n, t);
    }
  }

  /** What a window contributes to position `t` of a block is its slice at that position. */
  lemma TermAt(g: Setup, input: seq<Frame>, k: nat, outStart: nat, to: nat, from: nat, n: nat, t: nat)
    requires g.Valid() && t < g.chunk
    requires to == Max(k * g.stride, outStart) - outStart && from == Max(k * g.stride, outStart) - k * g.stride
    requires n == Min(k * g.stride, outStart) + g.chunk - Max(k * g.stride, outStart) > 0
    ensures var out := g.model(g.Window(input, k));
            if to <= t < to + n
            then g.Contribution(input, k, outStart + t) == Times(out[from + t - to], g.weights[from + t - to])
                 && g.WeightAt(k, outStart + t) == g.weights[from + t - to]
            else g.Contribution(input, k, outStart + t) == 0.0 == g.WeightAt(k, outStart + t)
  {
    assert g.Covers(k, outStart + t) <==> to <= t < to + n;
  }

  /** Window `e - 1` is the last one that overlaps block `j`. */
  ghost predicate LastOverlapping(g: Setup, b: Progress, e: nat, j: nat) {
    && 0 < e
    && j * g.chunk < (e - 1) * g.stride + g.chunk
    && (j * g.chunk + g.chunk <= e * g.stride || (b.terminated && e == b.submitted))
  }

  lemma AllVisited(g: Setup, b: Progress, f: nat, e: nat, j: nat, pending: seq<PendingChunk>)
    requires DequeInv(g, b, f, j, pending) && Ready(g, b, j) && f < e <= Prefix(b.done, b.submitted)
    requires j * g.chunk + g.chunk <= e * g.stride || e == b.submitted
    ensures LastOverlapping(g, b, e, j)
  {
    MulMono(f, e - 1, g.stride);
    MulNext(j, g.chunk);
  }

  /** The length of a block once window `e - 1`, which ends latest, has been visited. */
  ghost function VisitedLength(g: Setup, n: nat, e: nat, outStart: nat): nat {
    if e > 0 && Zeroes(g, n, e - 1) > 0 then Min(g.chunk, Max(0, n - outStart)) else g.chunk
  }

  /** End padding is trimmed exactly. */
  lemma LengthExact(g: Setup, b: Progress, e: nat, j: nat)
    requires Inv(g, b) && LastOverlapping(g, b, e, j)
    ensures var length := VisitedLength(g, |b.pushed|, e, j * g.chunk);
            && j * g.chunk + length <= Max(j * g.chunk, |b.pushed|)
            && (length > 0 ==> j * g.chunk < |b.pushed|)
            && length == |BlockAt(g.Output(b.pushed), j * g.chunk, g.chunk)|
  {
    var n := |b.pushed|;
    MulNext(e - 1, g.stride);
    if Zeroes(g, n, e - 1) == 0 && e * g.stride < j * g.chunk + g.chunk {
      // only possible without overlap: the input ends with the last window
      assert n == e * g.stride && g.stride == g.chunk;
      MulCancel(j, e, g.chunk);
      MulStrict(j, e, g.chunk);
    }
  }

  /** Every sample kept has positive total weight and is the average over all windows. */
  lemma BlockAverage(g: Setup, b: Progress, f: nat, e: nat, j: nat, p: nat)
    requires Inv(g, b) && f < e && LastOverlapping(g, b, e, j)
    requires f > 0 ==> (f - 1) * g.stride + g.chunk <= j * g.chunk
    requires j * g.chunk <= p < Min(j * g.chunk + g.chunk, |b.pushed|)
    ensures g.TotalWeight(f, e, p) > 0.0
    ensures Ratio(g.Weighted(b.pushed, f, e, p), g.TotalWeight(f, e, p)) == g.Output(b.pushed)[p]
  {
    g.AverageOver(b.pushed, f, e, p);
  }

  /** Every window reached before the end of a complete block is done. */
  lemma VisitedIsDone(g: Setup, b: Progress, k: nat, j: nat)
    requires Inv(g, b) && Ready(g, b, j) && k < b.submitted && k * g.stride < (j + 1) * g.chunk
    ensures k < Prefix(b.done, b.submitted)
  {
    if !(b.terminated && AllDone(b)) { MulCancel(k, Prefix(b.done, b.submitted), g.stride); }
  }

  /** The window that the output loop visits next is done and overlaps the block. */
  lemma WindowInBlock(g: Setup, b: Progress, f: nat, e: nat, j: nat, outStart: nat, pending: seq<PendingChunk>)
    requires DequeInv(g, b, f, j, pending) && Ready(g, b, j)
    requires f <= e < b.submitted && outStart == j * g.chunk && e * g.stride < outStart + g.chunk
    ensures e < Prefix(b.done, b.submitted) && e - f < |pending| && (e + 1) * g.stride == e * g.stride + g.stride
    ensures var chunk := pending[e - f];
            && chunk.index == e && chunk.out == Some(g.model(g.Window(b.pushed, e)))
            && chunk.numZeroes == Zeroes(g, |b.pushed|, e)
    ensures outStart < e * g.stride + g.chunk
  {
    MulNext(j, g.chunk);
    VisitedIsDone(g, b, e, j);
    MulMono(f, e, g.stride);
    MulNext(e, g.stride);
    assert pending[e - f] == Entry(g, b, e);
  }

  lemma LaterEndsLater(g: Setup, n: nat, k: nat)
    ensures k > 0 && Zeroes(g, n, k - 1) > 0 ==> Zeroes(g, n, k) > 0
  {
    MulMono(k - 1, k, g.stride);
  }

  lemma FrontInBlock(g: Setup, b: Progress, f: nat, j: nat, pending: seq<PendingChunk>)
    requires DequeInv(g, b, f, j, pending)
    ensures f * g.stride <= j * g.chunk
  {
    if f > 0 { MulNext(f - 1, g.stride); }
  }

  // ---- The steps that do not run the output loop ----

  lemma QueueKeepsPush(g: Setup, a: Progress, q: seq<seq<Frame>>, hand: Option<(seq<Frame>, nat)>, data: seq<Frame>)
    requires Inv(g, a) && QueueInv(g, a.pushed, a.cut, a.submitted, q, hand) && !a.finished && data != []
    ensures QueueInv(g, a.pushed + data, a.cut, a.submitted, q + [data], hand)
    ensures |Flatten(q + [data])| == |Flatten(q)| + |data|
  {
    FlattenSnoc(q, data);
    CutInside(g, a);
    QueueTail(a.pushed, data, a.cut * g.stride);
    if a.submitted < a.cut { g.WindowStable(a.pushed, data, a.submitted); }
  }

  /** Before the input ends, only windows that lie inside it have been cut. */
  lemma CutInside(g: Setup, a: Progress)
    requires Inv(g, a) && !a.finished
    ensures a.cut * g.stride <= |a.pushed|
    ensures a.submitted < a.cut ==> a.submitted * g.stride + g.chunk <= |a.pushed|
  {
    if a.cut > 0 { MulNext(a.cut - 1, g.stride); }
  }

  lemma QueueTail(pushed: seq<Frame>, data: seq<Frame>, at: nat)
    requires at <= |pushed|
    ensures (pushed + data)[Min(at, |pushed + data|)..] == pushed[Min(at, |pushed|)..] + data
  {
  }

  /** The processing thread may cut a window now. */
  ghost predicate CanCut(g: Setup, a: Progress) {
    Enabled(g, a, Cut)
  }

  lemma CutEnabled(g: Setup, a: Progress, q: seq<seq<Frame>>)
    requires Inv(g, a) && QueueInv(g, a.pushed, a.cut, a.submitted, q, None) && q != [] && !a.terminated
    requires g.chunk <= |Flatten(q)| || a.finished
    ensures CanCut(g, a)
  {
    FlattenNonEmpty(q);
  }

  /** The processing thread may queue the terminator now. */
  ghost predicate CanTerminate(g: Setup, a: Progress) {
    Enabled(g, a, Terminate)
  }

  lemma TerminateEnabled(g: Setup, a: Progress, q: seq<seq<Frame>>)
    requires Inv(g, a) && QueueInv(g, a.pushed, a.cut, a.submitted, q, None) && q == [] && !a.terminated && a.finished
    ensures CanTerminate(g, a)
  {
    assert |Flatten(q)| == 0;
  }

  /** `s` followed by silence up to length `n`. */
  function Padded(s: seq<Frame>, n: nat): (r: seq<Frame>)
    requires |s| <= n
    ensures |r| == n && forall t :: 0 <= t < n ==> r[t] == if t < |s| then s[t] else SILENCE
  {
    s + seq(n - |s|, _ => SILENCE)
  }

  lemma PaddedStep(flat: seq<Frame>, n: nat, copied: nat, chunk: seq<Frame>, k: nat)
    requires copied + k <= n && k <= |chunk| && copied + |chunk| <= |flat| && flat[copied..copied + |chunk|] == chunk
    ensures var buf := Padded(flat[..copied], n);
            buf[..copied] + chunk[..k] + buf[copied + k..] == Padded(flat[..copied + k], n)
  {
    assert forall i :: 0 <= i < k ==> chunk[i] == flat[copied + i];
  }

  /** The window in hand is the one that is to be submitted. */
  lemma QueueKeepsSubmit(g: Setup, a: Progress, q: seq<seq<Frame>>, hand: Option<(seq<Frame>, nat)>)
    requires Inv(g, a) && QueueInv(g, a.pushed, a.cut, a.submitted, q, hand) && hand.Some?
    ensures a.cut == a.submitted + 1 && QueueInv(g, a.pushed, a.cut, a.submitted + 1, q, None)
    ensures PendingChunk(a.submitted, Some(hand.value.0), None, hand.value.1, false) == Entry(g, a, a.submitted)
    ensures !a.terminated
  {
  }

  /** `chunk` is the start of the queued frames `flat`, padded, and `rest` is what stays queued. */
  ghost predicate IsTaken(g: Setup, flat: seq<Frame>, chunk: seq<Frame>, numZeroes: nat, rest: seq<Frame>) {
    var copied := Min(g.chunk, |flat|);
    && chunk == Padded(flat[..copied], g.chunk) && numZeroes == g.chunk - copied
    && rest == flat[Min(g.stride, |flat|)..]
  }

  lemma CutStart(g: Setup, a: Progress)
    requires Inv(g, a) && CanCut(g, a)
    ensures a.cut == a.submitted && a.cut * g.stride < |a.pushed|
  {
  }

  lemma QueueKeepsCut(g: Setup, a: Progress, flat: seq<Frame>, chunk: seq<Frame>, numZeroes: nat,
                      rest: seq<seq<Frame>>)
    requires Inv(g, a) && CanCut(g, a) && flat == a.pushed[Min(a.cut * g.stride, |a.pushed|)..]
    requires IsTaken(g, flat, chunk, numZeroes, Flatten(rest)) && [] !in rest
    ensures QueueInv(g, a.pushed, a.cut + 1, a.submitted, rest, Some((chunk, numZeroes)))
  {
    CutStart(g, a);
    CutQueue(g, a.pushed, a.cut, a.cut * g.stride, flat, chunk, numZeroes, rest);
  }

  lemma CutQueue(g: Setup, pushed: seq<Frame>, k: nat, at: nat, flat: seq<Frame>, chunk: seq<Frame>,
                 numZeroes: nat, rest: seq<seq<Frame>>)
    requires at == k * g.stride <= |pushed| && flat == pushed[at..]
    requires IsTaken(g, flat, chunk, numZeroes, Flatten(rest)) && [] !in rest
    ensures QueueInv(g, pushed, k + 1, k, rest, Some((chunk, numZeroes)))
  {
    MulNext(k, g.stride);
    CutIsWindow(g, pushed, k, at);
    DropTwice(pushed, at, g.stride);
  }

  lemma CutIsWindow(g: Setup, pushed: seq<Frame>, k: nat, at: nat)
    requires at == k * g.stride <= |pushed|
    ensures Padded(pushed[at..][..Min(g.chunk, |pushed[at..]|)], g.chunk) == g.Window(pushed, k)
  {
  }

  lemma DropTwice<T>(s: seq<T>, a: nat, b: nat)
    requires a <= |s|
    ensures s[a..][Min(b, |s[a..]|)..] == s[Min(a + b, |s|)..]
  {
  }

  lemma LoopKeepsFinish(g: Setup, a: Progress, front: nat, j: nat, pending: seq<PendingChunk>, output: seq<seq<real>>)
    requires LoopInv(g, a, front, j, pending, output)
    ensures LoopInv(g, Apply(a, Finish), front, j, pending, output) && NextBlock(g, Apply(a, Finish)) == NextBlock(g, a)
  {
    StepKeepsInv(g, a, Finish);
    assert Entries(g, Apply(a, Finish), front) == Entries(g, a, front);
  }

  lemma LoopKeepsCut(g: Setup, a: Progress, front: nat, j: nat, pending: seq<PendingChunk>, output: seq<seq<real>>)
    requires LoopInv(g, a, front, j, pending, output) && CanCut(g, a)
    ensures LoopInv(g, Apply(a, Cut), front, j, pending, output) && NextBlock(g, Apply(a, Cut)) == NextBlock(g, a)
  {
    StepKeepsInv(g, a, Cut);
    assert Entries(g, Apply(a, Cut), front) == Entries(g, a, front);
  }

  lemma LoopKeepsPush(g: Setup, a: Progress, front: nat, j: nat, pending: seq<PendingChunk>, output: seq<seq<real>>,
                      data: seq<Frame>)
    requires LoopInv(g, a, front, j, pending, output) && !a.finished && j == NextBlock(g, a)
    ensures LoopInv(g, Apply(a, Push(data)), front, j, pending, output) && j == NextBlock(g, Apply(a, Push(data)))
  {
    var b := Apply(a, Push(data));
    NextBlockBound(g, a);
    g.BlocksStable(a.pushed, data, a.cut, j);
    forall k: nat | k < a.cut ensures Entry(g, b, k) == Entry(g, a, k) {
      MulMono(k, a.cut - 1, g.stride);
      g.WindowStable(a.pushed, data, k);
    }
    assert Entries(g, b, front) == Entries(g, a, front);
  }

  lemma LoopKeepsTerminate(g: Setup, a: Progress, front: nat, j: nat, pending: seq<PendingChunk>,
                           output: seq<seq<real>>)
    requires LoopInv(g, a, front, j, pending, output) && CanTerminate(g, a) && j == NextBlock(g, a)
    ensures var last := PendingChunk(a.submitted, None, None, 0, true);
            LoopInv(g, Apply(a, Terminate), front, j, pending + [last], output)
    ensures j == NextBlock(g, Apply(a, Terminate))
  {
    StepKeepsInv(g, a, Terminate);
    NextBlockBound(g, a);
    MulMono(Prefix(a.done, a.submitted), a.submitted, g.stride);
    assert Entries(g, Apply(a, Terminate), front)
        == Entries(g, a, front) + [PendingChunk(a.submitted, None, None, 0, true)];
  }

  lemma LoopKeepsSubmit(g: Setup, a: Progress, front: nat, j: nat, pending: seq<PendingChunk>, output: seq<seq<real>>)
    requires LoopInv(g, a, front, j, pending, output) && a.cut == a.submitted + 1 && j == NextBlock(g, a)
    ensures LoopInv(g, Apply(a, Submit), front, j, pending + [Entry(g, a, a.submitted)], output)
    ensures j == NextBlock(g, Apply(a, Submit))
  {
    var b := Apply(a, Submit);
    StepKeepsInv(g, a, Submit);
    PrefixUnique(b.done, b.submitted, Prefix(a.done, a.submitted));
    NextBlockBound(g, a);
    MulMono(Prefix(a.done, a.submitted), a.submitted, g.stride);
    assert Entries(g, b, front) == Entries(g, a, front) + [Entry(g, a, a.submitted)];
  }
}
