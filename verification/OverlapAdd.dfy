/**
 The meaning of a demucs session: weighted overlap-add of the whole input.

 Samples are reals. The separation network is an arbitrary length-preserving function from a
 window of stereo frames to one component (one source, one channel) of its output; the session
 treats every component with the same indices and weights, so each statement here holds for
 each component.
 */
module OverlapAdd {
  import opened Prelude

  datatype Frame = Frame(left: real, right: real)

  const SILENCE := Frame(0.0, 0.0)

  type Model = seq<Frame> -> seq<real>

  // ---- Window weights ----

  function MaxOf(s: seq<real>): (m: real)
    requires s != []
    ensures m in s
    ensures forall i :: 0 <= i < |s| ==> s[i] <= m
  {
    if |s| == 1 then s[0]
    else
      var m := MaxOf(s[1..]);
      if s[0] <= m then m else s[0]
  }

  /** An ascending ramp followed by a descending one. */
  function Ramps(chunk: nat): (r: seq<real>)
    ensures |r| == chunk
    ensures forall t :: 0 <= t < chunk ==> r[t] == Min(t + 1, chunk - t) as real
  {
    seq(chunk / 2, i requires 0 <= i => (i + 1) as real)
    + seq(chunk - chunk / 2, i requires 0 <= i => (chunk - chunk / 2 - i) as real)
  }

  /** A product, named so that proofs can treat it as a whole. */
  function Times(x: real, y: real): real {
    x * y
  }

  /** Dividing a product by one of its factors gives the other one. */
  lemma TimesRatio(x: real, y: real)
    requires y > 0.0
    ensures Times(x, y) / y == x && Ratio(x * y, y) == x
  {
  }

  /** The ramps, normalised so that the largest weight is one. */
  function Weights(chunk: nat): (w: seq<real>)
    requires 0 < chunk
    ensures |w| == chunk
  {
    var r := Ramps(chunk);
    assert r[0] >= 1.0;
    Scaled(r, MaxOf(r))
  }

  lemma DivLe(a: real, m: real)
    requires 0.0 < a <= m
    ensures 0.0 < Ratio(a, m) <= 1.0
    ensures a == m ==> Ratio(a, m) == 1.0
  {
    var q := a / m;
    assert q * m == a;
    if q > 1.0 { assert (q - 1.0) * m > 0.0; }
  }

  lemma RampsPeak(chunk: nat)
    requires 0 < chunk
    ensures MaxOf(Ramps(chunk)) == Ramps(chunk)[chunk / 2] == (chunk - chunk / 2) as real >= 1.0
  {
    assert Ramps(chunk)[chunk / 2] == (chunk - chunk / 2) as real;
  }

  /** The weight at a position depends only on its distance from the nearer end. */
  lemma WeightAtPosition(chunk: nat, t: nat)
    requires t < chunk
    ensures Weights(chunk)[t] == Ratio(Min(t + 1, chunk - t) as real, (chunk - chunk / 2) as real)
    ensures 0.0 < Weights(chunk)[t] <= 1.0 && Weights(chunk)[t] == Weights(chunk)[chunk - 1 - t]
  {
    RampsPeak(chunk);
    DivLe(Ramps(chunk)[t], MaxOf(Ramps(chunk)));
    assert Ramps(chunk)[t] == Ramps(chunk)[chunk - 1 - t];
  }

  /** The weights form a symmetric triangle: positive, at most one, and one in the middle. */
  lemma WeightsShape(chunk: nat)
    requires 0 < chunk
    ensures forall t :: 0 <= t < chunk ==>
              Weights(chunk)[t] == Ratio(Min(t + 1, chunk - t) as real, (chunk - chunk / 2) as real)
    ensures forall t :: 0 <= t < chunk ==> 0.0 < Weights(chunk)[t] <= 1.0
    ensures forall t :: 0 <= t < chunk ==> Weights(chunk)[t] == Weights(chunk)[chunk - 1 - t]
    ensures Weights(chunk)[chunk / 2] == 1.0
  {
    var w := Weights(chunk);
    forall t | 0 <= t < chunk
      ensures w[t] == Ratio(Min(t + 1, chunk - t) as real, (chunk - chunk / 2) as real)
      ensures 0.0 < w[t] <= 1.0 && w[t] == w[chunk - 1 - t]
    {
      WeightAtPosition(chunk, t);
    }
    var m := (chunk - chunk / 2) as real;
    DivLe(m, m);
  }

  // ---- Overlap-add ----

  /** The block of `chunk` samples that starts at `lo`, cut off at the end of the output. */
  ghost function BlockAt(out: seq<real>, lo: nat, chunk: nat): seq<real> {
    if lo < |out| then out[lo..Min(lo + chunk, |out|)] else []
  }

  /** Appends a block unless it is empty. */
  ghost function AppendBlock(blocks: seq<seq<real>>, block: seq<real>): seq<seq<real>> {
    if block == [] then blocks else blocks + [block]
  }

  /** The non-empty ones among the first `j` blocks. */
  ghost function BlocksOf(out: seq<real>, chunk: nat, j: nat): seq<seq<real>> {
    if j == 0 then [] else AppendBlock(BlocksOf(out, chunk, j - 1), BlockAt(out, (j - 1) * chunk, chunk))
  }

  /** Sample conservation: `j` blocks hold exactly the first `min(j * chunk, n)` samples. */
  lemma {:induction false} BlocksArePrefix(out: seq<real>, chunk: nat, j: nat)
    requires 0 < chunk
    ensures Flatten(BlocksOf(out, chunk, j)) == out[..Min(j * chunk, |out|)]
    ensures [] !in BlocksOf(out, chunk, j)
  {
    if j > 0 {
      BlocksArePrefix(out, chunk, j - 1);
      MulNext(j - 1, chunk);
      PrefixGrows(out, BlocksOf(out, chunk, j - 1), (j - 1) * chunk, chunk);
    }
  }

  lemma PrefixGrows(out: seq<real>, blocks: seq<seq<real>>, lo: nat, chunk: nat)
    requires 0 < chunk && Flatten(blocks) == out[..Min(lo, |out|)] && [] !in blocks
    ensures var all := AppendBlock(blocks, BlockAt(out, lo, chunk));
            Flatten(all) == out[..Min(lo + chunk, |out|)] && [] !in all
  {
    if lo < |out| {
      var hi := Min(lo + chunk, |out|);
      FlattenSnoc(blocks, out[lo..hi]);
      assert out[..lo] + out[lo..hi] == out[..hi];
      assert |out[lo..hi]| > 0;
    }
  }

  lemma {:induction false} SameBlocks(a: seq<real>, b: seq<real>, chunk: nat, j: nat)
    requires 0 < chunk && j * chunk <= |a| && j * chunk <= |b|
    requires forall p :: 0 <= p < j * chunk ==> a[p] == b[p]
    ensures BlocksOf(a, chunk, j) == BlocksOf(b, chunk, j)
  {
    if j > 0 {
      MulNext(j - 1, chunk);
      SameBlocks(a, b, chunk, j - 1);
      SameBlock(a, b, (j - 1) * chunk, chunk);
    }
  }

  lemma SameBlock(a: seq<real>, b: seq<real>, lo: nat, chunk: nat)
    requires lo + chunk <= |a| && lo + chunk <= |b|
    requires forall p :: lo <= p < lo + chunk ==> a[p] == b[p]
    ensures BlockAt(a, lo, chunk) == BlockAt(b, lo, chunk)
  {
  }

  /** What a session is configured with: window length, hop, network and weights. */
  datatype Setup = Setup(chunk: nat, stride: nat, model: Model, weights: seq<real>) {

    ghost predicate Valid() {
      && 1 <= stride <= chunk
      && |weights| == chunk
      && (forall t :: 0 <= t < chunk ==> weights[t] > 0.0)
      && (forall w: seq<Frame> :: |model(w)| == |w|)
    }

    /** The `k`-th window: `chunk` frames from `k * stride`, silence past the end of the input. */
    function Window(input: seq<Frame>, k: nat): (w: seq<Frame>)
      ensures |w| == chunk
    {
      seq(chunk, t requires 0 <= t => if k * stride + t < |input| then input[k * stride + t] else SILENCE)
    }

    /** A window holds the input from its start on, and zeros behind the end of the input. */
    lemma WindowAt(input: seq<Frame>, k: nat, t: nat)
      requires t < chunk
      ensures k * stride + t < |input| ==> Window(input, k)[t] == input[k * stride + t]
      ensures |input| <= k * stride + t ==> Window(input, k)[t] == Frame(0.0, 0.0)
    {
    }

    lemma WindowFrom(input: seq<Frame>, k: nat, start: nat)
      requires start == k * stride
      ensures forall t :: 0 <= t < chunk ==>
                Window(input, k)[t] == if start + t < |input| then input[start + t] else Frame(0.0, 0.0)
    {
      forall t: nat | t < chunk
        ensures Window(input, k)[t] == if start + t < |input| then input[start + t] else Frame(0.0, 0.0)
      {
        WindowAt(input, k, t);
      }
    }

    /** How many windows start inside an input of `n` frames. */
    function WindowCount(n: nat): (k: nat)
      requires 0 < stride
      ensures n <= k * stride < n + stride
    {
      CeilDiv(n, stride)
    }

    predicate Covers(k: nat, p: nat) {
      k * stride <= p < k * stride + chunk
    }

    function WeightAt(k: nat, p: nat): real
      requires |weights| == chunk
    {
      if Covers(k, p) then weights[p - k * stride] else 0.0
    }

    ghost function Contribution(input: seq<Frame>, k: nat, p: nat): real
      requires Valid()
    {
      if Covers(k, p) then Times(model(Window(input, k))[p - k * stride], weights[p - k * stride]) else 0.0
    }

    /** Weighted sum at position `p` over windows `lo <= k < hi`. */
    ghost function Weighted(input: seq<Frame>, lo: nat, hi: nat, p: nat): real
      requires Valid()
    {
      if hi <= lo then 0.0 else Weighted(input, lo, hi - 1, p) + Contribution(input, hi - 1, p)
    }

    ghost function TotalWeight(lo: nat, hi: nat, p: nat): (w: real)
      requires Valid()
      ensures w >= 0.0
    {
      if hi <= lo then 0.0 else TotalWeight(lo, hi - 1, p) + WeightAt(hi - 1, p)
    }

    lemma {:induction false} TotalWeightPositive(lo: nat, hi: nat, k: nat, p: nat)
      requires Valid() && lo <= k < hi && Covers(k, p)
      ensures TotalWeight(lo, hi, p) > 0.0
    {
      if k < hi - 1 { TotalWeightPositive(lo, hi - 1, k, p); }
    }

    /** Every position of the input is covered by the window that starts last before it. */
    lemma Covered(n: nat, p: nat)
      requires Valid() && p < n
      ensures p / stride < WindowCount(n) && Covers(p / stride, p)
    {
      var k := p / stride;
      assert k * stride <= p < k * stride + stride;
      MulCancel(k, WindowCount(n), stride);
    }

    /** The average, weighted by position in the window, of all windows that cover `p`. */
    ghost function Average(input: seq<Frame>, p: nat): real
      requires Valid() && p < |input|
    {
      var n := WindowCount(|input|);
      Covered(|input|, p);
      TotalWeightPositive(0, n, p / stride, p);
      Ratio(Weighted(input, 0, n, p), TotalWeight(0, n, p))
    }

    /** Windows that do not cover `p` can be added to or left out of the sums. */
    lemma {:induction false} TrimHigh(input: seq<Frame>, lo: nat, mid: nat, hi: nat, p: nat)
      requires Valid() && lo <= mid <= hi
      requires forall k :: mid <= k < hi ==> !Covers(k, p)
      ensures Weighted(input, lo, hi, p) == Weighted(input, lo, mid, p)
      ensures TotalWeight(lo, hi, p) == TotalWeight(lo, mid, p)
      decreases hi
    {
      if mid < hi {
        TrimHigh(input, lo, mid, hi - 1, p);
        assert !Covers(hi - 1, p);
      }
    }

    lemma {:induction false} TrimLow(input: seq<Frame>, lo: nat, mid: nat, hi: nat, p: nat)
      requires Valid() && lo <= mid <= hi
      requires forall k :: lo <= k < mid ==> !Covers(k, p)
      ensures Weighted(input, lo, hi, p) == Weighted(input, mid, hi, p)
      ensures TotalWeight(lo, hi, p) == TotalWeight(mid, hi, p)
      decreases hi
    {
      if mid < hi {
        TrimLow(input, lo, mid, hi - 1, p);
      } else {
        TrimHigh(input, lo, lo, hi, p);
      }
    }

    /** Any run of windows that holds every window covering `p` gives the average at `p`. */
    lemma AverageOver(input: seq<Frame>, lo: nat, hi: nat, p: nat)
      requires Valid() && p < |input| && lo <= hi
      requires lo > 0 ==> (lo - 1) * stride + chunk <= p
      requires p < hi * stride
      ensures TotalWeight(lo, hi, p) > 0.0
      ensures Ratio(Weighted(input, lo, hi, p), TotalWeight(lo, hi, p)) == Average(input, p)
    {
      var n := WindowCount(|input|);
      forall k: nat | hi <= k ensures !Covers(k, p) { MulMono(hi, k, stride); }
      forall k: nat | k < lo ensures !Covers(k, p) { MulMono(k, lo - 1, stride); }
      var k := p / stride;
      Covered(|input|, p);
      TotalWeightPositive(0, n, k, p);
      assert lo <= k < hi;
      TotalWeightPositive(lo, hi, k, p);
      TrimLow(input, 0, lo, hi, p);
      forall k: nat | n <= k ensures !Covers(k, p) { MulMono(n, k, stride); }
      if n <= hi {
        TrimHigh(input, 0, n, hi, p);
      } else {
        TrimHigh(input, 0, hi, n, p);
      }
    }

    /** The overlap-add of the whole input. */
    ghost function Output(input: seq<Frame>): (r: seq<real>)
      requires Valid()
      ensures |r| == |input|
    {
      seq(|input|, p requires 0 <= p < |input| => Average(input, p))
    }

    /** Where one window alone covers a position, its output is kept as it is. */
    lemma OneWindow(input: seq<Frame>, k: nat, p: nat)
      requires Valid() && p < |input| && k * stride <= p < (k + 1) * stride
      requires k > 0 ==> (k - 1) * stride + chunk <= p
      ensures Output(input)[p] == model(Window(input, k))[p - k * stride]
    {
      MulNext(k, stride);
      AverageOver(input, k, k + 1, p);
      var t := p - k * stride;
      assert Weighted(input, k, k + 1, p) == Contribution(input, k, p);
      assert TotalWeight(k, k + 1, p) == WeightAt(k, p);
      DivBack(model(Window(input, k))[t], weights[t], Times(model(Window(input, k))[t], weights[t]));
    }

    /** Where two windows overlap, their outputs are averaged by the weights of the position in each window. */
    lemma TwoWindows(input: seq<Frame>, k: nat, start: nat, p: nat)
      requires Valid() && p < |input| && start == k * stride
      requires start + stride <= p < start + 2 * stride && p < start + chunk
      requires k > 0 ==> start - stride + chunk <= p
      ensures var t, u := p - start, p - start - stride;
              var x, y := model(Window(input, k))[t], model(Window(input, k + 1))[u];
              Output(input)[p] == Ratio(Times(x, weights[t]) + Times(y, weights[u]), weights[t] + weights[u])
    {
      MulNext(k, stride);
      MulNext(k + 1, stride);
      if k > 0 { MulNext(k - 1, stride); }
      AverageOver(input, k, k + 2, p);
      SumOfTwo(input, k, p);
      TermOf(input, k, start, p);
      TermOf(input, k + 1, start + stride, p);
    }

    lemma SumOfTwo(input: seq<Frame>, k: nat, p: nat)
      requires Valid()
      ensures Weighted(input, k, k + 2, p) == Contribution(input, k, p) + Contribution(input, k + 1, p)
      ensures TotalWeight(k, k + 2, p) == WeightAt(k, p) + WeightAt(k + 1, p)
    {
      assert Weighted(input, k, k + 1, p) == Contribution(input, k, p);
      assert TotalWeight(k, k + 1, p) == WeightAt(k, p);
    }

    /** What a window that covers a position contributes to it. */
    lemma TermOf(input: seq<Frame>, k: nat, start: nat, p: nat)
      requires Valid() && start == k * stride && start <= p < start + chunk
      ensures WeightAt(k, p) == weights[p - start]
      ensures Contribution(input, k, p) == Times(model(Window(input, k))[p - start], weights[p - start])
    {
    }

    ghost predicate Reproduces(component: Frame -> real) {
      forall w: seq<Frame>, t :: 0 <= t < |w| && |model(w)| == |w| ==> model(w)[t] == component(w[t])
    }

    /** A network that reproduces a component of the input is averaged back to that component. */
    lemma IdentityOutput(input: seq<Frame>, component: Frame -> real)
      requires Valid() && Reproduces(component)
      ensures forall p :: 0 <= p < |input| ==> Output(input)[p] == component(input[p])
    {
      forall p | 0 <= p < |input| ensures Output(input)[p] == component(input[p]) {
        IdentityAverage(input, component, p);
      }
    }

    lemma IdentityAverage(input: seq<Frame>, component: Frame -> real, p: nat)
      requires Valid() && Reproduces(component) && p < |input|
      ensures Average(input, p) == component(input[p])
    {
      var n := WindowCount(|input|);
      Covered(|input|, p);
      TotalWeightPositive(0, n, p / stride, p);
      IdentitySum(input, component, n, p);
      DivBack(component(input[p]), TotalWeight(0, n, p), Weighted(input, 0, n, p));
    }

    static lemma DivBack(x: real, t: real, u: real)
      requires t > 0.0 && u == Times(x, t)
      ensures Ratio(u, t) == x
    {
    }

    static lemma Distribute(x: real, a: real, b: real, t: real, u: real, v: real)
      requires t == a + b && u == Times(x, a) && v == Times(x, b)
      ensures u + v == Times(x, t)
    {
    }

    lemma {:induction false} IdentitySum(input: seq<Frame>, component: Frame -> real, hi: nat, p: nat)
      requires Valid() && Reproduces(component) && p < |input|
      ensures Weighted(input, 0, hi, p) == Times(component(input[p]), TotalWeight(0, hi, p))
      decreases hi
    {
      var x, t := component(input[p]), TotalWeight(0, hi, p);
      if hi == 0 {
        Distribute(x, 0.0, 0.0, t, 0.0, 0.0);
      } else {
        IdentitySum(input, component, hi - 1, p);
        IdentityTerm(input, component, hi - 1, p);
        var u, v := Weighted(input, 0, hi - 1, p), Contribution(input, hi - 1, p);
        Distribute(x, TotalWeight(0, hi - 1, p), WeightAt(hi - 1, p), t, u, v);
        assert Weighted(input, 0, hi, p) == u + v;
      }
    }

    lemma IdentityTerm(input: seq<Frame>, component: Frame -> real, k: nat, p: nat)
      requires Valid() && Reproduces(component) && p < |input|
      ensures Contribution(input, k, p) == Times(component(input[p]), WeightAt(k, p))
    {
      if Covers(k, p) {
        var w, t := Window(input, k), p - k * stride;
        assert model(w)[t] == component(w[t]);
        assert w[t] == input[p];
      }
    }

    /** What has been sent once output block `j` is the next one. */
    ghost function Blocks(input: seq<Frame>, j: nat): seq<seq<real>>
      requires Valid()
    {
      BlocksOf(Output(input), chunk, j)
    }

    // ---- Growth of the input ----

    /** Windows that lie inside the input are not changed by further input. */
    lemma WindowStable(input: seq<Frame>, more: seq<Frame>, k: nat)
      requires k * stride + chunk <= |input|
      ensures Window(input + more, k) == Window(input, k)
    {
    }

    lemma {:induction false} WeightedStable(input: seq<Frame>, more: seq<Frame>, hi: nat, p: nat)
      requires Valid()
      requires hi > 0 ==> (hi - 1) * stride + chunk <= |input|
      ensures Weighted(input + more, 0, hi, p) == Weighted(input, 0, hi, p)
    {
      if hi > 0 {
        if hi > 1 { MulMono(hi - 2, hi - 1, stride); }
        WindowStable(input, more, hi - 1);
        WeightedStable(input, more, hi - 1, p);
      }
    }

    /** Output that only depends on complete windows is final. */
    lemma BlocksStable(input: seq<Frame>, more: seq<Frame>, n: nat, j: nat)
      requires Valid()
      requires n > 0 ==> (n - 1) * stride + chunk <= |input|
      requires j * chunk <= n * stride
      ensures Blocks(input + more, j) == Blocks(input, j)
    {
      var all := input + more;
      if j > 0 {
        assert j * chunk >= chunk by { MulMono(1, j, chunk); }
        MulNext(n - 1, stride);
      }
      forall p | 0 <= p < j * chunk ensures Output(all)[p] == Output(input)[p] {
        AverageOver(input, 0, n, p);
        AverageOver(all, 0, n, p);
        WeightedStable(input, more, n, p);
      }
      SameBlocks(Output(all), Output(input), chunk, j);
    }
  }
}
