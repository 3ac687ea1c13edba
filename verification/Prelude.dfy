/** Small shared vocabulary: optional values, flattening, scaling and integer arithmetic. */
module Prelude {

  datatype Option<+T> = None | Some(value: T)

  function Min(a: int, b: int): int {
    if a <= b then a else b
  }

  function Max(a: int, b: int): int {
    if a <= b then b else a
  }

  /** All elements of all inner sequences, in order. */
  function Flatten<T>(q: seq<seq<T>>): seq<T> {
    if q == [] then [] else q[0] + Flatten(q[1..])
  }

  lemma {:induction false} FlattenAppend<T>(a: seq<seq<T>>, b: seq<seq<T>>)
    ensures Flatten(a + b) == Flatten(a) + Flatten(b)
  {
    if a == [] {
      assert a + b == b;
    } else {
      FlattenAppend(a[1..], b);
      assert (a + b)[1..] == a[1..] + b;
      Assoc(a[0], Flatten(a[1..]), Flatten(b));
    }
  }

  lemma Assoc<T>(a: seq<T>, b: seq<T>, c: seq<T>)
    ensures a + (b + c) == (a + b) + c
  {
  }

  /** Where the `x`-th array of a queue lies in the flat sequence. */
  lemma FlattenAt<T>(q: seq<seq<T>>, x: nat)
    requires x < |q|
    ensures var at := |Flatten(q[..x])|;
            && at + |q[x]| == |Flatten(q[..x + 1])| <= |Flatten(q)|
            && Flatten(q)[at..at + |q[x]|] == q[x]
  {
    assert q[..x + 1] == q[..x] + [q[x]];
    FlattenSnoc(q[..x], q[x]);
    FlattenSplit(q, x + 1);
  }

  lemma FlattenNonEmpty<T>(q: seq<seq<T>>)
    requires [] !in q && q != []
    ensures |Flatten(q)| > 0
  {
    assert q[0] in q;
  }

  lemma FlattenSnoc<T>(a: seq<seq<T>>, x: seq<T>)
    ensures Flatten(a + [x]) == Flatten(a) + x
  {
    FlattenAppend(a, [x]);
    assert Flatten([x]) == x;
  }

  /** Splitting a queue of arrays at position `k`. */
  lemma FlattenSplit<T>(q: seq<seq<T>>, k: nat)
    requires k <= |q|
    ensures Flatten(q) == Flatten(q[..k]) + Flatten(q[k..])
  {
    FlattenParts(q, q[..k], q[k..]);
  }

  lemma FlattenParts<T>(q: seq<seq<T>>, a: seq<seq<T>>, b: seq<seq<T>>)
    requires q == a + b
    ensures Flatten(q) == Flatten(a) + Flatten(b)
  {
    FlattenAppend(a, b);
  }

  /** A quotient, named so that proofs can treat it as a whole. */
  function Ratio(a: real, m: real): real
    requires m > 0.0
  {
    a / m
  }

  /** Every element divided by `m`. */
  function Scaled(s: seq<real>, m: real): (r: seq<real>)
    requires m > 0.0
    ensures |r| == |s|
    ensures forall i :: 0 <= i < |s| ==> r[i] == Ratio(s[i], m)
  {
    seq(|s|, i requires 0 <= i < |s| => Ratio(s[i], m))
  }

  lemma MulMono(a: int, b: int, s: int)
    requires a <= b && 0 <= s
    ensures a * s <= b * s
  {
  }

  lemma MulStrict(a: int, b: int, s: int)
    requires a < b && 0 < s
    ensures a * s + s <= b * s
  {
    MulMono(a + 1, b, s);
    assert (a + 1) * s == a * s + s;
  }

  lemma MulNext(a: int, s: int)
    ensures (a + 1) * s == a * s + s
  {
  }

  lemma MulCancel(a: int, b: int, s: int)
    requires a * s < b * s && 0 <= s
    ensures a < b
  {
    if b <= a { MulMono(b, a, s); }
  }

  /** The quotient is pinned by the two multiples around the dividend. */
  lemma DivUnique(x: int, q: int, c: int)
    requires 0 < c && q * c <= x < q * c + c
    ensures x / c == q
  {
    var r := x / c;
    assert r * c <= x < r * c + c;
    if q < r { MulStrict(q, r, c); }
    if r < q { MulStrict(r, q, c); }
  }

  function CeilDiv(x: nat, c: nat): (q: nat)
    requires 0 < c
    ensures x <= q * c < x + c
  {
    (x + c - 1) / c
  }

  lemma CeilDivUnique(x: nat, q: nat, c: nat)
    requires 0 < c && x <= q * c < x + c
    ensures CeilDiv(x, c) == q
  {
    var r := CeilDiv(x, c);
    if q < r { MulStrict(q, r, c); }
    if r < q { MulStrict(r, q, c); }
  }
}
