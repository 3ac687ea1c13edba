/** The parameters that a demucs session derives from the length of a window and the overlap. */
module DemucsParameters {
  import opened Prelude
  import opened OverlapAdd

  /** Samples to advance per window; fractions are exact here. */
  function Stride(chunk: nat, overlap: real): int {
    if overlap == 0.0 then chunk else Max(((1.0 - overlap) * chunk as real).Floor, 1)
  }

  function Ceiling(x: real): (c: int)
    ensures c as real - 1.0 < x <= c as real
  {
    -((-x).Floor)
  }

  function Latency(chunk: nat, overlap: real): int
    requires overlap < 1.0
  {
    if overlap == 0.0 then chunk else (Ceiling(1.0 / (1.0 - overlap)) + 1) * chunk
  }

  /** What the overlap leaves of a window, rounded down, but at least one frame. */
  ghost predicate StrideFor(chunk: nat, overlap: real, stride: nat) {
    && 1 <= stride <= chunk
    && (1.0 - overlap) * chunk as real < stride as real + 1.0
    && (stride > 1 ==> stride as real <= (1.0 - overlap) * chunk as real)
    && (overlap == 0.0 ==> stride == chunk)
  }

  /** `q` strides are the fewest that reach from one end of a window to the other, up to rounding. */
  ghost predicate FewestStrides(overlap: real, q: nat) {
    (q as real - 1.0) * (1.0 - overlap) < 1.0 <= q as real * (1.0 - overlap)
  }

  /** One window without overlap, otherwise one window more than there are strides in one. */
  ghost predicate LatencyFor(chunk: nat, overlap: real, latency: nat) {
    if overlap == 0.0 then latency == chunk
    else exists q: nat :: FewestStrides(overlap, q) && latency == (q + 1) * chunk
  }

  /** A triangle with its largest weight, one, in the middle. */
  ghost predicate TriangleWeights(chunk: nat, weights: seq<real>) {
    && 0 < chunk && |weights| == chunk
    && forall t :: 0 <= t < chunk ==>
         weights[t] == Ratio(Min(t + 1, chunk - t) as real, (chunk - chunk / 2) as real)
  }

  lemma ChunkLength(rate: nat, duration: int)
    requires 32000 <= rate && 100 <= duration
    ensures 3200 <= duration * rate / 1000
  {
    assert 100 * 32000 <= duration * rate by {
      MulMono(100, duration, rate);
    }
  }

  /** The stride is what the overlap leaves of a window, rounded down, but never zero. */
  lemma StrideInRange(chunk: nat, overlap: real)
    requires 0 < chunk && 0.0 <= overlap < 1.0
    ensures 1 <= Stride(chunk, overlap) <= chunk
    ensures (1.0 - overlap) * chunk as real < Stride(chunk, overlap) as real + 1.0
    ensures Stride(chunk, overlap) > 1 ==> Stride(chunk, overlap) as real <= (1.0 - overlap) * chunk as real
  {
    assert overlap * chunk as real >= 0.0;
    assert (1.0 - overlap) * chunk as real <= chunk as real;
  }

  lemma LatencyAtLeast(chunk: nat, overlap: real)
    requires 0.0 <= overlap < 1.0
    ensures Latency(chunk, overlap) >= if overlap == 0.0 then chunk else 2 * chunk
  {
    if overlap != 0.0 {
      PositiveQuotient(1.0 - overlap);
      MulMono(2, Ceiling(1.0 / (1.0 - overlap)) + 1, chunk);
    }
  }

  lemma PositiveQuotient(x: real)
    requires 0.0 < x
    ensures 1 <= Ceiling(1.0 / x)
  {
    assert 1.0 / x > 0.0;
  }

  /** Multiplying a bound on the inverse by `x`. */
  lemma InverseBounds(x: real, y: real, a: real)
    requires 0.0 < x && y == 1.0 / x && a - 1.0 < y <= a
    ensures (a - 1.0) * x < 1.0 <= a * x
  {
    assert y * x == 1.0;
    Positive(y - (a - 1.0), x);
    assert (y - (a - 1.0)) * x == y * x - (a - 1.0) * x;
    if y < a {
      Positive(a - y, x);
      assert (a - y) * x == a * x - y * x;
    }
  }

  lemma Positive(p: real, x: real)
    requires 0.0 < p && 0.0 < x
    ensures 0.0 < p * x
  {
  }

  /** The derived parameters are the ones described. */
  lemma Derived(chunk: nat, overlap: real)
    requires 0 < chunk && 0.0 <= overlap < 1.0
    ensures 1 <= Stride(chunk, overlap) && StrideFor(chunk, overlap, Stride(chunk, overlap))
    ensures 0 <= Latency(chunk, overlap) && LatencyFor(chunk, overlap, Latency(chunk, overlap))
    ensures TriangleWeights(chunk, Weights(chunk))
  {
    StrideInRange(chunk, overlap);
    LatencyAtLeast(chunk, overlap);
    if overlap != 0.0 {
      var q := Ceiling(1.0 / (1.0 - overlap));
      PositiveQuotient(1.0 - overlap);
      InverseBounds(1.0 - overlap, 1.0 / (1.0 - overlap), q as real);
      assert FewestStrides(overlap, q);
    }
    WeightsShape(chunk);
  }
}
