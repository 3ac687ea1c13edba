/**
 The demucs session as a protocol over atomic steps: a producer pushes, the processing thread
 cuts and submits windows and finally queues the terminator, and pool threads complete windows
 in any order. What has been output is a function of this progress; the class `DemucsSession.Session`
 is proved to compute it.
 */
module DemucsProtocol {
  import opened Prelude
  import opened OverlapAdd

  datatype Event =
    | Push(frames: seq<Frame>)
    | Finish
    | Cut
    | Submit
    | Terminate
    | Complete(k: nat)

  datatype Progress = Progress(
    pushed: seq<Frame>,   // everything accepted by push_data
    finished: bool,       // the empty message has been seen
    cut: nat,             // windows cut from the input queue
    submitted: nat,       // windows appended to the pending deque
    done: set<nat>,       // windows whose model output has arrived
    terminated: bool,     // the terminator has been queued
    drained: bool)        // the terminator has been dropped, the end marker sent

  const INIT := Progress([], false, 0, 0, {}, false, false)

  /** How many leading windows, out of the first `n`, are done. */
  function Prefix(done: set<nat>, n: nat): (d: nat)
    ensures d <= n
    ensures forall k :: 0 <= k < d ==> k in done
    ensures d < n ==> d !in done
  {
    if n == 0 then 0
    else
      var d := Prefix(done, n - 1);
      if d == n - 1 && d in done then n else d
  }

  lemma PrefixUnique(done: set<nat>, n: nat, d: nat)
    requires d <= n && (forall k :: 0 <= k < d ==> k in done) && (d < n ==> d !in done)
    ensures Prefix(done, n) == d
  {
  }

  predicate AllDone(a: Progress) {
    Prefix(a.done, a.submitted) == a.submitted
  }

  /** Frames pushed but not yet removed from the input queue. */
  function Queued(g: Setup, a: Progress): nat {
    |a.pushed| - Min(a.cut * g.stride, |a.pushed|)
  }

  predicate Enabled(g: Setup, a: Progress, e: Event) {
    match e
    case Push(frames) => frames != []
    case Finish => true
    case Cut => !a.terminated && a.cut == a.submitted && Queued(g, a) > 0 && (a.finished || g.chunk <= Queued(g, a))
    case Submit => a.cut == a.submitted + 1
    case Terminate => a.finished && !a.terminated && a.cut == a.submitted && Queued(g, a) == 0
    case Complete(k) => k < a.submitted && k !in a.done
  }

  function Apply(a: Progress, e: Event): Progress {
    match e
    case Push(frames) => if a.finished then a else a.(pushed := a.pushed + frames)
    case Finish => a.(finished := true)
    case Cut => a.(cut := a.cut + 1)
    case Submit => a.(submitted := a.submitted + 1)
    case Terminate => a.(terminated := true)
    case Complete(k) =>
      var b := a.(done := a.done + {k});
      b.(drained := b.terminated && AllDone(b))
  }

  ghost predicate Inv(g: Setup, a: Progress) {
    && g.Valid()
    && a.submitted <= a.cut <= a.submitted + 1
    && (forall k :: k in a.done ==> k < a.submitted)
    && (a.cut > 0 ==> (a.cut - 1) * g.stride < |a.pushed|)
    && (a.cut > 0 ==> a.finished || (a.cut - 1) * g.stride + g.chunk <= |a.pushed|)
    && (a.terminated ==> a.finished && a.cut == a.submitted == g.WindowCount(|a.pushed|))
    && (a.drained ==> a.terminated && AllDone(a))
  }

  /** The index of the next output block. */
  function NextBlock(g: Setup, a: Progress): nat
    requires 0 < g.chunk
  {
    if a.drained then CeilDiv(a.submitted * g.stride, g.chunk) + 1
    else Prefix(a.done, a.submitted) * g.stride / g.chunk
  }

  /** Everything handed to the output callback; the empty end marker comes last. */
  ghost function Log(g: Setup, a: Progress): seq<seq<real>>
    requires g.Valid()
  {
    g.Blocks(a.pushed, NextBlock(g, a)) + (if a.drained then [[]] else [])
  }

  /** Before the end, only blocks inside complete windows have been output. */
  lemma NextBlockBound(g: Setup, a: Progress)
    requires Inv(g, a)
    ensures !a.drained ==> NextBlock(g, a) * g.chunk <= Prefix(a.done, a.submitted) * g.stride <= a.cut * g.stride
    ensures a.drained ==> |a.pushed| <= NextBlock(g, a) * g.chunk
  {
    if a.drained {
      CeilBound(|a.pushed|, a.submitted * g.stride, g.chunk);
    } else {
      MulMono(Prefix(a.done, a.submitted), a.cut, g.stride);
      FloorBound(Prefix(a.done, a.submitted) * g.stride, g.chunk);
    }
  }

  lemma FloorBound(x: nat, c: nat)
    requires 0 < c
    ensures x / c * c <= x < x / c * c + c
  {
  }

  lemma CeilBound(n: nat, x: nat, c: nat)
    requires 0 < c && n <= x
    ensures n <= (CeilDiv(x, c) + 1) * c
  {
    MulNext(CeilDiv(x, c), c);
  }

  // ---- Runs ----

  ghost predicate Runs(g: Setup, a: Progress, es: seq<Event>, b: Progress)
    decreases |es|
  {
    if es == [] then a == b
    else Enabled(g, a, es[0]) && Runs(g, Apply(a, es[0]), es[1..], b)
  }

  lemma StepKeepsInv(g: Setup, a: Progress, e: Event)
    requires Inv(g, a) && Enabled(g, a, e)
    ensures Inv(g, Apply(a, e))
  {
    var n := |a.pushed|;
    match e
    case Cut =>
      if a.cut * g.stride < n {}
    case Terminate =>
      if a.cut > 0 { MulNext(a.cut - 1, g.stride); }
      CeilDivUnique(n, a.cut, g.stride);
    case Submit =>
    case Push(_) =>
    case Finish =>
    case Complete(k) =>
  }

  /** A step only appends to what has been output, whatever it does to the input. */
  lemma StepGrowsLog(g: Setup, a: Progress, e: Event)
    requires Inv(g, a) && Enabled(g, a, e)
    ensures Log(g, a) <= Log(g, Apply(a, e))
  {
    var b := Apply(a, e);
    NextBlockBound(g, a);
    match e
    case Push(frames) =>
      if !a.finished {
        g.BlocksStable(a.pushed, frames, a.cut, NextBlock(g, a));
      }
    case Submit =>
      PrefixUnique(b.done, b.submitted, Prefix(a.done, a.submitted));
    case Complete(k) =>
      PrefixUnique(a.done, a.submitted, Prefix(a.done, a.submitted));
      PrefixMono(a.done, b.done, a.submitted);
      var d, d' := Prefix(a.done, a.submitted), Prefix(b.done, b.submitted);
      MulMono(d, d', g.stride);
      DivMono(d * g.stride, d' * g.stride, g.chunk);
      BlocksPrefix(g, a.pushed, NextBlock(g, a), d' * g.stride / g.chunk);
      if b.drained {
        MulMono(d', b.submitted, g.stride);
        DivLeCeil(b.submitted * g.stride, g.chunk);
        BlocksPrefix(g, a.pushed, d' * g.stride / g.chunk, NextBlock(g, b));
      }
    case Finish =>
    case Cut =>
    case Terminate =>
  }

  lemma PrefixMono(done: set<nat>, more: set<nat>, n: nat)
    requires done <= more
    ensures Prefix(done, n) <= Prefix(more, n)
  {
    var d := Prefix(more, n);
    assert d < Prefix(done, n) ==> d in done;
  }

  lemma DivMono(x: nat, y: nat, c: nat)
    requires x <= y && 0 < c
    ensures x / c <= y / c
  {
    if y / c < x / c { MulStrict(y / c, x / c, c); }
  }

  lemma DivLeCeil(x: nat, c: nat)
    requires 0 < c
    ensures x / c <= CeilDiv(x, c)
  {
    if CeilDiv(x, c) < x / c { MulStrict(CeilDiv(x, c), x / c, c); }
  }

  lemma {:induction false} BlocksPrefix(g: Setup, input: seq<Frame>, i: nat, j: nat)
    requires g.Valid() && i <= j
    ensures g.Blocks(input, i) <= g.Blocks(input, j)
    decreases j
  {
    if i < j { BlocksPrefix(g, input, i, j - 1); }
  }

  /** Over every run the invariant holds and the output only grows. */
  lemma {:induction false} RunSafe(g: Setup, a: Progress, es: seq<Event>, b: Progress)
    requires Inv(g, a) && Runs(g, a, es, b)
    ensures Inv(g, b) && Log(g, a) <= Log(g, b)
    decreases |es|
  {
    if es != [] {
      StepKeepsInv(g, a, es[0]);
      StepGrowsLog(g, a, es[0]);
      RunSafe(g, Apply(a, es[0]), es[1..], b);
    }
  }

  lemma InitInv(g: Setup)
    requires g.Valid()
    ensures Inv(g, INIT)
  {
  }

  // ---- End to end ----

  /**
   In every reachable state the samples sent so far are, in order, the first
   `min(NextBlock * chunk, n)` samples of the overlap-add of the input. Only the end marker is empty.
   */
  lemma RunOutput(g: Setup, es: seq<Event>, b: Progress)
    requires g.Valid() && Runs(g, INIT, es, b)
    ensures Flatten(Log(g, b)) == g.Output(b.pushed)[..Min(NextBlock(g, b) * g.chunk, |b.pushed|)]
    ensures forall i :: 0 <= i < |Log(g, b)| ==> (Log(g, b)[i] == [] <==> b.drained && i == |Log(g, b)| - 1)
  {
    InitInv(g);
    RunSafe(g, INIT, es, b);
    BlocksArePrefix(g.Output(b.pushed), g.chunk, NextBlock(g, b));
    MarkerLast(g.Blocks(b.pushed, NextBlock(g, b)), b.drained);
  }

  lemma MarkerLast(blocks: seq<seq<real>>, marked: bool)
    requires [] !in blocks
    ensures var log := blocks + (if marked then [[]] else []);
            && Flatten(log) == Flatten(blocks)
            && forall i :: 0 <= i < |log| ==> (log[i] == [] <==> marked && i == |log| - 1)
  {
    var log := blocks + (if marked then [[]] else []);
    if marked {
      FlattenSnoc(blocks, []);
    } else {
      assert log == blocks;
    }
    assert forall i :: 0 <= i < |blocks| ==> log[i] in blocks;
  }

  /**
   A drained run has sent the whole overlap-add, and its output depends on the input alone: not on
   how the input was split into pushes and not on the order in which windows completed.
   */
  lemma DrainedOutput(g: Setup, es: seq<Event>, b: Progress, fs: seq<Event>, c: Progress)
    requires g.Valid() && Runs(g, INIT, es, b) && b.drained
    requires Runs(g, INIT, fs, c) && c.drained && b.pushed == c.pushed
    ensures Flatten(Log(g, b)) == g.Output(b.pushed)
    ensures Log(g, b) == Log(g, c)
  {
    InitInv(g);
    RunSafe(g, INIT, es, b);
    RunSafe(g, INIT, fs, c);
    RunOutput(g, es, b);
    NextBlockBound(g, b);
    assert g.Output(b.pushed)[..|b.pushed|] == g.Output(b.pushed);
  }

  /** A network that reproduces a component of its input makes a drained session return that component. */
  lemma IdentityRun(g: Setup, es: seq<Event>, b: Progress, component: Frame -> real)
    requires g.Valid() && Runs(g, INIT, es, b) && b.drained && g.Reproduces(component)
    ensures |Flatten(Log(g, b))| == |b.pushed|
    ensures forall p :: 0 <= p < |b.pushed| ==> Flatten(Log(g, b))[p] == component(b.pushed[p])
  {
    DrainedOutput(g, es, b, es, b);
    g.IdentityOutput(b.pushed, component);
  }

  // ---- When does a session drain? ----

  /** After the terminator, a run that finds unfinished work drains with its last completion. */
  lemma {:induction false} DrainsLater(g: Setup, a: Progress, es: seq<Event>, b: Progress)
    requires Inv(g, a) && a.terminated && (a.drained <==> AllDone(a)) && Runs(g, a, es, b)
    ensures b.terminated && (b.drained <==> AllDone(b))
    decreases |es|
  {
    if es != [] {
      StepKeepsInv(g, a, es[0]);
      DrainsLater(g, Apply(a, es[0]), es[1..], b);
    }
  }

  /** After the terminator, a run with no unfinished work never outputs anything again. */
  lemma {:induction false} StuckForever(g: Setup, a: Progress, es: seq<Event>, b: Progress)
    requires Inv(g, a) && a.terminated && AllDone(a) && Runs(g, a, es, b)
    ensures b == a
    decreases |es|
  {
    if es != [] {
      assert Apply(a, es[0]) == a;
      StuckForever(g, a, es[1..], b);
    }
  }

  /**
   The terminator is queued without running the output loop, so a session in which every window
   completes sends its end marker if and only if some window was still being processed when the
   terminator was queued.
   */
  lemma DrainsIff(g: Setup, es: seq<Event>, t: Progress, fs: seq<Event>, b: Progress)
    requires g.Valid() && Runs(g, INIT, es, t) && Enabled(g, t, Terminate)
    requires Runs(g, Apply(t, Terminate), fs, b) && AllDone(b)
    ensures b.drained <==> !AllDone(t)
  {
    InitInv(g);
    RunSafe(g, INIT, es, t);
    StepKeepsInv(g, t, Terminate);
    if AllDone(t) {
      StuckForever(g, Apply(t, Terminate), fs, b);
    } else {
      DrainsLater(g, Apply(t, Terminate), fs, b);
    }
  }

  lemma {:induction false} DrainedHasWindows(g: Setup, a: Progress, es: seq<Event>, b: Progress)
    requires Runs(g, a, es, b) && (a.drained ==> a.submitted > 0)
    ensures b.drained ==> b.submitted > 0
    decreases |es|
  {
    if es != [] { DrainedHasWindows(g, Apply(a, es[0]), es[1..], b); }
  }

  lemma {:induction false} NoBlocks(out: seq<real>, chunk: nat, j: nat)
    requires out == []
    ensures BlocksOf(out, chunk, j) == []
  {
    if j > 0 { NoBlocks(out, chunk, j - 1); }
  }

  /** A session without any input has no window, and never sends anything, not even the end marker. */
  lemma EmptySessionNeverEnds(g: Setup, es: seq<Event>, b: Progress)
    requires g.Valid() && Runs(g, INIT, es, b) && b.pushed == []
    ensures !b.drained && Log(g, b) == []
  {
    InitInv(g);
    RunSafe(g, INIT, es, b);
    DrainedHasWindows(g, INIT, es, b);
    assert !b.drained by { CeilDivUnique(0, 0, g.stride); }
    NoBlocks(g.Output([]), g.chunk, NextBlock(g, b));
  }

  // ---- Both outcomes are reachable, for every input ----

  lemma {:induction false} RunsSnoc(g: Setup, a: Progress, es: seq<Event>, b: Progress, e: Event)
    requires Runs(g, a, es, b) && Enabled(g, b, e)
    ensures Runs(g, a, es + [e], Apply(b, e))
    decreases |es|
  {
    if es == [] {
      assert [e][1..] == [];
      assert Runs(g, Apply(a, e), [], Apply(b, e));
    } else {
      assert (es + [e])[1..] == es[1..] + [e];
      RunsSnoc(g, Apply(a, es[0]), es[1..], b, e);
    }
  }

  function FirstWindows(j: nat): (s: set<nat>)
    ensures forall i: nat :: i in s <==> i < j
  {
    if j == 0 then {} else FirstWindows(j - 1) + {j - 1}
  }

  /** All of `input` is pushed and finished, `k` windows are submitted and the first `j` are done. */
  ghost function Worked(input: seq<Frame>, k: nat, j: nat): Progress {
    Progress(input, true, k, k, FirstWindows(j), false, false)
  }

  lemma Started(g: Setup, input: seq<Frame>) returns (es: seq<Event>)
    ensures Runs(g, INIT, es, Worked(input, 0, 0))
  {
    var f := Apply(Apply(INIT, Push(input)), Finish);
    assert f == Worked(input, 0, 0);
    if input == [] {
      es := [Finish];
      assert Runs(g, INIT, [], INIT);
      RunsSnoc(g, INIT, [], INIT, Finish);
    } else {
      es := [Push(input), Finish];
      assert Runs(g, INIT, [], INIT);
      RunsSnoc(g, INIT, [], INIT, Push(input));
      RunsSnoc(g, INIT, [Push(input)], Apply(INIT, Push(input)), Finish);
      assert [Push(input)] + [Finish] == es;
    }
  }

  /** The processing thread takes one more window. */
  lemma NextWindow(g: Setup, input: seq<Frame>, k: nat, j: nat, es: seq<Event>)
    requires g.Valid() && k * g.stride < |input| && Runs(g, INIT, es, Worked(input, k, j))
    ensures Runs(g, INIT, es + [Cut] + [Submit], Worked(input, k + 1, j))
  {
    RunsSnoc(g, INIT, es, Worked(input, k, j), Cut);
    RunsSnoc(g, INIT, es + [Cut], Apply(Worked(input, k, j), Cut), Submit);
  }

  /** Every window completes before the next one is cut. */
  lemma {:induction false} EagerRun(g: Setup, input: seq<Frame>, k: nat) returns (es: seq<Event>)
    requires g.Valid() && (k > 0 ==> (k - 1) * g.stride < |input|)
    ensures Runs(g, INIT, es, Worked(input, k, k))
  {
    if k == 0 {
      es := Started(g, input);
    } else {
      if k > 1 { MulMono(k - 2, k - 1, g.stride); }
      es := EagerRun(g, input, k - 1);
      NextWindow(g, input, k - 1, k - 1, es);
      es := es + [Cut] + [Submit];
      RunsSnoc(g, INIT, es, Worked(input, k, k - 1), Complete(k - 1));
      es := es + [Complete(k - 1)];
    }
  }

  /** No window completes before all are submitted. */
  lemma {:induction false} LazyRun(g: Setup, input: seq<Frame>, k: nat) returns (es: seq<Event>)
    requires g.Valid() && (k > 0 ==> (k - 1) * g.stride < |input|)
    ensures Runs(g, INIT, es, Worked(input, k, 0))
  {
    if k == 0 {
      es := Started(g, input);
    } else {
      if k > 1 { MulMono(k - 2, k - 1, g.stride); }
      es := LazyRun(g, input, k - 1);
      NextWindow(g, input, k - 1, 0, es);
      es := es + [Cut] + [Submit];
    }
  }

  lemma LastWindow(g: Setup, input: seq<Frame>)
    requires g.Valid()
    ensures var n := g.WindowCount(|input|);
            (n > 0 ==> (n - 1) * g.stride < |input|) && (n == 0 <==> input == [])
  {
    var n := g.WindowCount(|input|);
    if n > 0 { MulNext(n - 1, g.stride); }
  }

  lemma AllCut(g: Setup, input: seq<Frame>, j: nat, es: seq<Event>)
    requires g.Valid() && Runs(g, INIT, es, Worked(input, g.WindowCount(|input|), j))
    ensures var a := Worked(input, g.WindowCount(|input|), j);
            Enabled(g, a, Terminate) && Runs(g, INIT, es + [Terminate], Apply(a, Terminate))
  {
    RunsSnoc(g, INIT, es, Worked(input, g.WindowCount(|input|), j), Terminate);
  }

  /**
   Every input has a run in which all windows complete and the end marker is never sent: the one in
   which the pool keeps up with the processing thread. What has been sent by then stays cut off at the
   last full block.
   */
  lemma CanHang(g: Setup, input: seq<Frame>) returns (es: seq<Event>, b: Progress)
    requires g.Valid()
    ensures Runs(g, INIT, es, b) && b.pushed == input && b.terminated && AllDone(b) && !b.drained
    ensures Log(g, b) == g.Blocks(input, g.WindowCount(|input|) * g.stride / g.chunk)
    ensures forall fs, c :: Runs(g, b, fs, c) ==> c == b
  {
    var n := g.WindowCount(|input|);
    LastWindow(g, input);
    es := EagerRun(g, input, n);
    AllCut(g, input, n, es);
    b := Apply(Worked(input, n, n), Terminate);
    es := es + [Terminate];
    PrefixUnique(b.done, n, n);
    InitInv(g);
    RunSafe(g, INIT, es, b);
    forall fs, c | Runs(g, b, fs, c) ensures c == b {
      StuckForever(g, b, fs, c);
    }
  }

  /** Every non-empty input has a run that ends: the one in which no window completes before the terminator. */
  lemma CanEnd(g: Setup, input: seq<Frame>) returns (es: seq<Event>, b: Progress)
    requires g.Valid() && input != []
    ensures Runs(g, INIT, es, b) && b.pushed == input && b.drained
  {
    var n := g.WindowCount(|input|);
    LastWindow(g, input);
    es := LazyRun(g, input, n);
    AllCut(g, input, 0, es);
    es := CompleteAll(g, input, n, n, es + [Terminate]);
    b := Terminated(input, n, n);
  }

  /** After the terminator, the first `j` of `n` windows are done. */
  ghost function Terminated(input: seq<Frame>, n: nat, j: nat): Progress {
    Worked(input, n, j).(terminated := true, drained := 0 < j == n)
  }

  lemma {:induction false} CompleteAll(g: Setup, input: seq<Frame>, n: nat, j: nat, es: seq<Event>)
    returns (fs: seq<Event>)
    requires j <= n && Runs(g, INIT, es, Terminated(input, n, 0))
    ensures Runs(g, INIT, fs, Terminated(input, n, j))
  {
    if j == 0 {
      fs := es;
    } else {
      fs := CompleteAll(g, input, n, j - 1, es);
      var a := Terminated(input, n, j - 1);
      RunsSnoc(g, INIT, fs, a, Complete(j - 1));
      fs := fs + [Complete(j - 1)];
      PrefixUnique(FirstWindows(j), n, j);
    }
  }
}
