/**
 What the outputs of the minus-1 mixer mean: sums of all inputs but one, for any order in which the
 inputs are mixed, in both sample formats, and how the cuts of a wide buffer carry them.
 */
module Minus1Sums {
  import opened Prelude
  import opened MixConfig
  import opened MultiMixer
  import S = Splitter

  /** The sum of all streams but `k` at frame `t`. */
  ghost function SumOfOthers(streams: seq<nat>, k: nat, mixed: Mixed, t: nat): real {
    if streams == [] then 0.0
    else
      var n := |streams| - 1;
      SumOfOthers(streams[..n], k, mixed, t) + (if streams[n] == k then 0.0 else mixed(streams[n], t))
  }

  ghost function SumOfAll(streams: seq<nat>, mixed: Mixed, t: nat): real {
    if streams == [] then 0.0
    else SumOfAll(streams[..|streams| - 1], mixed, t) + mixed(streams[|streams| - 1], t)
  }

  lemma {:induction false} OthersSum(streams: seq<nat>, k: nat, mixed: Mixed, t: nat)
    ensures ChannelSum(Others(streams, k), mixed, t) == SumOfOthers(streams, k, mixed, t)
  {
    if streams != [] {
      var n := |streams| - 1;
      OthersSum(streams[..n], k, mixed, t);
      if streams[n] == k {
        assert Others(streams, k) == Others(streams[..n], k);
      } else {
        assert Others(streams, k)[..|Others(streams, k)| - 1] == Others(streams[..n], k);
      }
    }
  }

  /** Mix-minus: what an output gets is the full mix minus its own input. */
  lemma {:induction false} MixMinus(streams: seq<nat>, k: nat, mixed: Mixed, t: nat)
    requires NoDuplicates(streams)
    ensures SumOfOthers(streams, k, mixed, t) == SumOfAll(streams, mixed, t) - if k in streams then mixed(k, t) else 0.0
  {
    if streams != [] {
      var n := |streams| - 1;
      MixMinus(streams[..n], k, mixed, t);
      assert streams == streams[..n] + [streams[n]];
      if streams[n] == k { assert k !in streams[..n]; }
    }
  }

  function IntSumOfOthers(streams: seq<nat>, k: nat, input: (nat, nat) -> int, t: nat): int {
    if streams == [] then 0
    else
      var n := |streams| - 1;
      IntSumOfOthers(streams[..n], k, input, t) + (if streams[n] == k then 0 else input(streams[n], t))
  }

  lemma {:induction false} ScaledSum(streams: seq<nat>, k: nat, mixed: Mixed, input: (nat, nat) -> int, t: nat)
    requires forall n :: n in streams ==> mixed(n, t) == Ratio(input(n, t) as real, 32768.0)
    ensures SumOfOthers(streams, k, mixed, t) * 32768.0 == IntSumOfOthers(streams, k, input, t) as real
  {
    if streams != [] { ScaledSum(streams[..|streams| - 1], k, mixed, input, t); }
  }

  /** With 16-bit inputs and a 16-bit output, the output is the sum of the others clamped to 16 bits. */
  lemma S16MixMinus(streams: seq<nat>, k: nat, mixed: Mixed, input: (nat, nat) -> int, t: nat)
    requires forall n :: n in streams ==> mixed(n, t) == Ratio(input(n, t) as real, 32768.0)
    ensures S.ToI16(SumOfOthers(streams, k, mixed, t) * 32768.0) == S.Clamp16(IntSumOfOthers(streams, k, input, t))
  {
    ScaledSum(streams, k, mixed, input, t);
    var x := IntSumOfOthers(streams, k, input, t);
    assert S.Truncate(x as real) == x;
  }

  /** What has been mixed after every input of `order` was mixed once, as a whole. */
  ghost function MixAll(order: seq<nat>, inputs: nat -> seq<real>): Mixed {
    if order == [] then SILENT
    else
      var n := |order| - 1;
      AfterMix(MixAll(order[..n], inputs), order[n], inputs(order[n]), 0)
  }

  lemma {:induction false} MixAllOnce(order: seq<nat>, inputs: nat -> seq<real>, k: nat, t: nat)
    requires NoDuplicates(order)
    ensures MixAll(order, inputs)(k, t) == if k in order && t < |inputs(k)| then inputs(k)[t] else 0.0
  {
    if order != [] {
      var n := |order| - 1;
      MixAllOnce(order[..n], inputs, k, t);
      assert order == order[..n] + [order[n]];
      if order[n] == k { assert k !in order[..n]; }
    }
  }

  /** The order in which the pads are mixed does not matter. */
  lemma AnyOrder(order: seq<nat>, other: seq<nat>, inputs: nat -> seq<real>, streams: seq<nat>, k: nat, t: nat)
    requires NoDuplicates(order) && NoDuplicates(other) && forall n :: n in order <==> n in other
    ensures SumOfOthers(streams, k, MixAll(order, inputs), t) == SumOfOthers(streams, k, MixAll(other, inputs), t)
  {
    forall n ensures MixAll(order, inputs)(n, t) == MixAll(other, inputs)(n, t) {
      MixAllOnce(order, inputs, n, t);
      MixAllOnce(other, inputs, n, t);
    }
    SameSum(streams, k, MixAll(order, inputs), MixAll(other, inputs), t);
  }

  lemma {:induction false} SameSum(streams: seq<nat>, k: nat, a: Mixed, b: Mixed, t: nat)
    requires forall n :: n in streams ==> a(n, t) == b(n, t)
    ensures SumOfOthers(streams, k, a, t) == SumOfOthers(streams, k, b, t)
  {
    if streams != [] { SameSum(streams[..|streams| - 1], k, a, b, t); }
  }

  /** A mono output: the sum of all streams but `k`, converted. */
  ghost predicate IsMinus1(format: S.Format, samples: S.Samples, frames: nat, streams: seq<nat>, k: nat, mixed: Mixed) {
    match format
    case F32 =>
      samples.F32Samples? && |samples.f| == frames
      && forall t :: 0 <= t < frames ==> samples.f[t] == SumOfOthers(streams, k, mixed, t)
    case S16 =>
      samples.S16Samples? && |samples.s| == frames
      && forall t :: 0 <= t < frames ==> samples.s[t] == S.ToI16(SumOfOthers(streams, k, mixed, t) * 32768.0)
  }

  // ---- What the pads receive ----

  /** The samples of a pad's buffer as the mixer reads them, and what it divides them by. */
  function Raw(input: S.Samples): seq<real> {
    match input
    case F32Samples(f) => f
    case S16Samples(s) => seq(|s|, t requires 0 <= t < |s| => s[t] as real)
  }

  function ScaleOf(input: S.Samples): (scale: real)
    ensures scale > 0.0
  {
    if input.F32Samples? then 1.0 else 32768.0
  }

  function Normal(input: S.Samples): seq<real> {
    Scaled(Raw(input), ScaleOf(input))
  }

  ghost function AllNormal(inputs: nat -> S.Samples): nat -> seq<real> {
    (n: nat) => Normal(inputs(n))
  }

  /** The value of a pad's buffer at frame `t`: floats as they are, 16-bit samples as fractions of full scale. */
  function ValueAt(input: S.Samples, t: nat): real {
    match input
    case F32Samples(f) => if t < |f| then f[t] else 0.0
    case S16Samples(s) => if t < |s| then s[t] as real / 32768.0 else 0.0
  }

  /** The inputs as signals. */
  ghost function Signals(inputs: nat -> S.Samples): Mixed {
    (n: nat, t: nat) => ValueAt(inputs(n), t)
  }

  ghost function FloatSignals(inputs: nat -> S.Samples): Mixed {
    (n: nat, t: nat) => if inputs(n).F32Samples? && t < |inputs(n).f| then inputs(n).f[t] else 0.0
  }

  /** What the mixer adds is the value of the input. */
  lemma NormalIsValue(input: S.Samples, t: nat)
    ensures ValueAt(input, t) == if t < |Normal(input)| then Normal(input)[t] else 0.0
  {
  }

  function IntSignals(inputs: nat -> S.Samples): (nat, nat) -> int {
    (n: nat, t: nat) => if inputs(n).S16Samples? && t < |inputs(n).s| then inputs(n).s[t] else 0
  }

  /** Mixing every stream once, in any order, gives each output the sum of the other streams' inputs. */
  lemma MixedIsSignals(format: S.Format, samples: S.Samples, frames: nat, streams: seq<nat>, k: nat,
                       order: seq<nat>, inputs: nat -> S.Samples)
    requires NoDuplicates(order) && forall n :: n in streams ==> n in order
    requires IsMinus1(format, samples, frames, streams, k, MixAll(order, AllNormal(inputs)))
    ensures IsMinus1(format, samples, frames, streams, k, Signals(inputs))
  {
    var signal := AllNormal(inputs);
    forall t: nat
      ensures SumOfOthers(streams, k, MixAll(order, signal), t) == SumOfOthers(streams, k, Signals(inputs), t)
    {
      forall n | n in streams ensures MixAll(order, signal)(n, t) == Signals(inputs)(n, t) {
        MixAllOnce(order, signal, n, t);
        NormalIsValue(inputs(n), t);
      }
      SameSum(streams, k, MixAll(order, signal), Signals(inputs), t);
    }
  }

  /** A 16-bit output of 16-bit inputs: the integer sum of all streams but `k`, clamped. */
  ghost predicate IsS16Minus1(samples: S.Samples, frames: nat, streams: seq<nat>, k: nat, inputs: nat -> S.Samples) {
    && samples.S16Samples? && |samples.s| == frames
    && forall t :: 0 <= t < frames ==> samples.s[t] == S.Clamp16(IntSumOfOthers(streams, k, IntSignals(inputs), t))
  }

  /** A float output of float inputs: the sum of all streams but `k`. */
  ghost predicate IsF32Minus1(samples: S.Samples, frames: nat, streams: seq<nat>, k: nat, inputs: nat -> S.Samples) {
    && samples.F32Samples? && |samples.f| == frames
    && forall t :: 0 <= t < frames ==> samples.f[t] == SumOfOthers(streams, k, FloatSignals(inputs), t)
  }

  lemma F32IsSum(samples: S.Samples, frames: nat, streams: seq<nat>, k: nat, inputs: nat -> S.Samples)
    requires forall n :: n in streams ==> inputs(n).F32Samples?
    requires IsMinus1(S.F32, samples, frames, streams, k, Signals(inputs))
    ensures IsF32Minus1(samples, frames, streams, k, inputs)
  {
    forall t | 0 <= t < frames ensures samples.f[t] == SumOfOthers(streams, k, FloatSignals(inputs), t) {
      SameSum(streams, k, Signals(inputs), FloatSignals(inputs), t);
    }
  }

  lemma S16IsClamped(samples: S.Samples, frames: nat, streams: seq<nat>, k: nat, inputs: nat -> S.Samples)
    requires forall n :: n in streams ==> inputs(n).S16Samples?
    requires IsMinus1(S.S16, samples, frames, streams, k, Signals(inputs))
    ensures IsS16Minus1(samples, frames, streams, k, inputs)
  {
    forall t | 0 <= t < frames
      ensures samples.s[t] == S.Clamp16(IntSumOfOthers(streams, k, IntSignals(inputs), t))
    {
      S16MixMinus(streams, k, Signals(inputs), IntSignals(inputs), t);
    }
  }

  // ---- What the outputs get ----

  /** Those of the first `n` active streams that have a pad, in order. */
  function ListeningTo(active: seq<nat>, streams: seq<nat>, n: nat): (r: seq<nat>)
    requires n <= |active|
    ensures forall k :: k in r ==> k in streams
  {
    if n == 0 then []
    else ListeningTo(active, streams, n - 1) + (if active[n - 1] in streams then [active[n - 1]] else [])
  }

  function Listening(active: seq<nat>, streams: seq<nat>): (r: seq<nat>)
    ensures forall k :: k in r ==> k in streams
  {
    ListeningTo(active, streams, |active|)
  }

  /** Each active stream with a pad listens, and only once. */
  lemma {:induction false} ListeningMembers(active: seq<nat>, streams: seq<nat>, n: nat)
    requires n <= |active|
    ensures forall k :: k in ListeningTo(active, streams, n) <==> k in active[..n] && k in streams
    ensures NoDuplicates(active) ==> NoDuplicates(ListeningTo(active, streams, n))
  {
    if n > 0 {
      ListeningMembers(active, streams, n - 1);
      assert active[..n] == active[..n - 1] + [active[n - 1]];
      if NoDuplicates(active) { assert active[n - 1] !in active[..n - 1]; }
    }
  }

  /** Each listening stream is sent one buffer: the sum of all other active streams, in its own format. */
  ghost predicate AreMinus1(sent: seq<(nat, S.Samples)>, active: seq<nat>, streams: seq<nat>,
                            outputs: map<nat, Option<S.Format>>, peer: nat -> S.Format, frames: nat, mixed: Mixed)
    requires outputs.Keys == set n | n in streams
  {
    && |sent| == |Listening(active, streams)|
    && forall j :: 0 <= j < |sent| ==>
         && sent[j].0 == Listening(active, streams)[j]
         && IsMinus1(S.FormatOf(outputs, sent[j].0, peer), sent[j].1, frames, active, sent[j].0, mixed)
  }

  /** The entry of stream `k` in the minus-1 layout. */
  ghost predicate EntryFor(active: seq<nat>, s: OutputChannelSplit, k: nat) {
    s.outputNum == k && s.nChannels == 1 && s.channelOffset < |active| && active[s.channelOffset] == k
  }

  /** The entries that are served are those of the listening streams. */
  lemma {:induction false} ServedListening(split: seq<OutputChannelSplit>, active: seq<nat>, streams: seq<nat>,
                                           pads: set<nat>, n: nat)
    requires pads == (set k | k in streams) && n <= |active| == |split|
    requires forall i :: 0 <= i < |split| ==> split[i] == OutputChannelSplit(active[i], i, 1)
    ensures var served, listening := S.ServedTo(split, pads, n), ListeningTo(active, streams, n);
            |served| == |listening| && forall j :: 0 <= j < |served| ==> EntryFor(active, served[j], listening[j])
  {
    if n > 0 { ServedListening(split, active, streams, pads, n - 1); }
  }

  /** The splitter's range check holds for every entry. */
  ghost predicate LayoutWithin(active: seq<nat>, m: nat) {
    forall s :: s in Layout(Minus1(active)) ==> 0 < s.nChannels && s.channelOffset + s.nChannels <= m
  }

  lemma LayoutFits(active: seq<nat>, m: nat)
    requires m == Max(1, |Flat(Minus1(active))|)
    ensures LayoutWithin(active, m)
  {
    Minus1Shape(active);
  }

  lemma CutsAreMinus1(sent: seq<(nat, S.Samples)>, active: seq<nat>, streams: seq<nat>,
                      outputs: map<nat, Option<S.Format>>, peer: nat -> S.Format, data: seq<real>, frames: nat, m: nat,
                      mixed: Mixed)
    requires outputs.Keys == (set n | n in streams)
    requires IsMixOf(data, frames, m, Flat(Minus1(active)), mixed)
    requires LayoutWithin(active, m)
    requires S.AreCuts(sent, S.Served(Layout(Minus1(active)), outputs.Keys), outputs, peer, data, frames, m)
    ensures AreMinus1(sent, active, streams, outputs, peer, frames, mixed)
  {
    Minus1Shape(active);
    var split := Layout(Minus1(active));
    var served := S.Served(split, outputs.Keys);
    ServedListening(split, active, streams, outputs.Keys, |active|);
    forall j | 0 <= j < |sent|
      ensures sent[j].0 == Listening(active, streams)[j]
      ensures IsMinus1(S.FormatOf(outputs, sent[j].0, peer), sent[j].1, frames, active, sent[j].0, mixed)
    {
      assert served[j] in served && EntryFor(active, served[j], Listening(active, streams)[j]);
      var i := served[j].channelOffset;
      CutIsMinus1(S.FormatOf(outputs, sent[j].0, peer), sent[j].1, data, frames, m, active, i, mixed);
    }
  }

  /** Each 16-bit output of 16-bit inputs is the clamped integer sum. */
  ghost predicate AreS16Minus1(sent: seq<(nat, S.Samples)>, active: seq<nat>, streams: seq<nat>,
                               outputs: map<nat, Option<S.Format>>, peer: nat -> S.Format, frames: nat,
                               inputs: nat -> S.Samples)
    requires outputs.Keys == set n | n in streams
  {
    forall j :: 0 <= j < |sent| && sent[j].0 in outputs && S.FormatOf(outputs, sent[j].0, peer) == S.S16 ==>
      IsS16Minus1(sent[j].1, frames, active, sent[j].0, inputs)
  }

  /** Each float output of float inputs is their sum. */
  ghost predicate AreF32Minus1(sent: seq<(nat, S.Samples)>, active: seq<nat>, streams: seq<nat>,
                               outputs: map<nat, Option<S.Format>>, peer: nat -> S.Format, frames: nat,
                               inputs: nat -> S.Samples)
    requires outputs.Keys == set n | n in streams
  {
    forall j :: 0 <= j < |sent| && sent[j].0 in outputs && S.FormatOf(outputs, sent[j].0, peer) == S.F32 ==>
      IsF32Minus1(sent[j].1, frames, active, sent[j].0, inputs)
  }

  /** What a round that mixed every active stream once has sent, in terms of the inputs. */
  lemma RoundMeaning(sent: seq<(nat, S.Samples)>, active: seq<nat>, streams: seq<nat>,
                     outputs: map<nat, Option<S.Format>>, peer: nat -> S.Format, frames: nat,
                     order: seq<nat>, inputs: nat -> S.Samples)
    requires NoDuplicates(order) && (forall n :: n in active ==> n in order) && outputs.Keys == set n | n in streams
    requires AreMinus1(sent, active, streams, outputs, peer, frames, MixAll(order, AllNormal(inputs)))
    ensures AreMinus1(sent, active, streams, outputs, peer, frames, Signals(inputs))
    ensures (forall n :: n in active ==> inputs(n).S16Samples?) ==>
              AreS16Minus1(sent, active, streams, outputs, peer, frames, inputs)
    ensures (forall n :: n in active ==> inputs(n).F32Samples?) ==>
              AreF32Minus1(sent, active, streams, outputs, peer, frames, inputs)
  {
    forall j | 0 <= j < |sent|
      ensures IsMinus1(S.FormatOf(outputs, sent[j].0, peer), sent[j].1, frames, active, sent[j].0, Signals(inputs))
      ensures S.FormatOf(outputs, sent[j].0, peer) == S.S16 && (forall n :: n in active ==> inputs(n).S16Samples?) ==>
                IsS16Minus1(sent[j].1, frames, active, sent[j].0, inputs)
      ensures S.FormatOf(outputs, sent[j].0, peer) == S.F32 && (forall n :: n in active ==> inputs(n).F32Samples?) ==>
                IsF32Minus1(sent[j].1, frames, active, sent[j].0, inputs)
    {
      var format := S.FormatOf(outputs, sent[j].0, peer);
      MixedIsSignals(format, sent[j].1, frames, active, sent[j].0, order, inputs);
      if format == S.S16 && forall n :: n in active ==> inputs(n).S16Samples? {
        S16IsClamped(sent[j].1, frames, active, sent[j].0, inputs);
      }
      if format == S.F32 && forall n :: n in active ==> inputs(n).F32Samples? {
        F32IsSum(sent[j].1, frames, active, sent[j].0, inputs);
      }
    }
  }

  /** Pads that are not sent a buffer belong to streams that are not active. */
  lemma GapsAreInactive(sent: seq<(nat, S.Samples)>, active: seq<nat>, streams: seq<nat>, pads: set<nat>)
    requires pads == (set k | k in streams) && |sent| == |Listening(active, streams)|
    requires forall j :: 0 <= j < |sent| ==> sent[j].0 == Listening(active, streams)[j]
    ensures pads - S.Receivers(sent) == set k | k in streams && k !in active
  {
    ListeningMembers(active, streams, |active|);
    assert active[..|active|] == active;
    forall k | k in active && k in streams ensures k in S.Receivers(sent) {
      var j :| 0 <= j < |Listening(active, streams)| && Listening(active, streams)[j] == k;
      assert sent[j].0 == k;
    }
  }

  lemma CutIsMinus1(format: S.Format, samples: S.Samples, data: seq<real>, frames: nat, m: nat,
                    streams: seq<nat>, i: nat, mixed: Mixed)
    requires i < |streams| && IsMixOf(data, frames, m, Flat(Minus1(streams)), mixed) && i + 1 <= m
    requires S.IsSplit(format, samples, data, frames, m, i, 1)
    ensures IsMinus1(format, samples, frames, streams, streams[i], mixed)
  {
    Minus1Shape(streams);
    forall t: nat | t < frames
      ensures data[Idx(t, i, m)] == SumOfOthers(streams, streams[i], mixed, t)
      ensures Idx(t, 0, 1) == t
    {
      OthersSum(streams, streams[i], mixed, t);
    }
    assert forall t: nat :: t < frames ==> Idx(t, i + 0, m) == Idx(t, i, m);
    match format {
      case F32 =>
        forall t: nat | t < frames ensures samples.f[t] == data[Idx(t, i, m)] {
          assert samples.f[Idx(t, 0, 1)] == data[Idx(t, i + 0, m)];
        }
      case S16 =>
        forall t: nat | t < frames ensures samples.s[t] == S.ToI16(data[Idx(t, i, m)] * 32768.0) {
          assert samples.s[Idx(t, 0, 1)] == S.ToI16(data[Idx(t, i + 0, m)] * 32768.0);
        }
    }
  }
}
