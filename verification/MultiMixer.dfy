/**
 The internal mixer element: it holds a configuration and possibly a pending one, creates wide
 interleaved output buffers that carry the split layout, and adds inputs into them in place.
 The parts of the aggregator base class that matter here are its fields `sinkPads`, `srcChannels` (the
 negotiated caps) and `current` (the output buffer in progress). Samples are reals.
 */
module MultiMixer {
  import opened Prelude
  import opened MixConfig

  /** Position of channel `c` of frame `t` in a buffer with `m` interleaved channels. */
  function Idx(t: nat, c: nat, m: nat): nat {
    t * m + c
  }

  lemma IdxInRange(t: nat, c: nat, frames: nat, m: nat)
    requires t < frames && c < m
    ensures Idx(t, c, m) < frames * m
  {
    MulStrict(t, frames, m);
  }

  lemma IdxDistinct(t: nat, c: nat, u: nat, m: nat)
    requires c < m && t != u
    ensures Idx(t, c, m) < u * m || u * m + m <= Idx(t, c, m)
  {
    if t < u { MulStrict(t, u, m); } else { MulStrict(u, t, m); }
  }

  /** How much of each input has been mixed at each frame. */
  type Mixed = (nat, nat) -> real

  ghost const SILENT: Mixed := (_, _) => 0.0

  /** The sum of what a channel's contributors have added at frame `t`. */
  ghost function ChannelSum(channel: Channel, mixed: Mixed, t: nat): real {
    if channel == [] then 0.0
    else
      var n := |channel| - 1;
      ChannelSum(channel[..n], mixed, t) + (if channel[n].channel == 0 then mixed(channel[n].input, t) else 0.0)
  }

  /** Every sample of the buffer is the sum over its channel's contributors. */
  ghost predicate IsMixOf(data: seq<real>, frames: nat, m: nat, flat: seq<Channel>, mixed: Mixed) {
    && m == Max(1, |flat|) && |data| == frames * m
    && forall t: nat, c: nat :: t < frames && c < m ==>
         Idx(t, c, m) < |data|
         && data[Idx(t, c, m)] == if c < |flat| then ChannelSum(flat[c], mixed, t) else 0.0
  }

  /** What `samples`, placed at frame `offset`, add at frame `t`. */
  function Placed(samples: seq<real>, offset: nat, t: nat): real {
    if offset <= t < offset + |samples| then samples[t - offset] else 0.0
  }

  /** What has been mixed after adding samples of one input at `offset`. */
  ghost function AfterMix(mixed: Mixed, input: nat, samples: seq<real>, offset: nat): Mixed {
    (n: nat, t: nat) => mixed(n, t) + if n == input then Placed(samples, offset, t) else 0.0
  }

  /** Frame `outOffset + i` of input `n` gains sample `inOffset + i`, and nothing else changes. */
  ghost predicate Adds(before: Mixed, after: Mixed, n: nat, input: seq<real>, scale: real, inOffset: nat,
                       outOffset: nat, num: nat)
    requires scale > 0.0 && inOffset + num <= |input|
  {
    forall k: nat, t: nat :: after(k, t) == before(k, t)
      + if k == n && outOffset <= t < outOffset + num then input[inOffset + t - outOffset] / scale else 0.0
  }

  lemma AfterMixAdds(mixed: Mixed, n: nat, input: seq<real>, scale: real, inOffset: nat, outOffset: nat, num: nat)
    requires scale > 0.0 && inOffset + num <= |input|
    ensures Adds(mixed, AfterMix(mixed, n, Scaled(input[inOffset..inOffset + num], scale), outOffset),
                 n, input, scale, inOffset, outOffset, num)
  {
  }

  /** An input that a channel lists once is added to it once. */
  lemma {:induction false} ChannelSumStep(channel: Channel, mixed: Mixed, input: nat, samples: seq<real>,
                                          offset: nat, t: nat)
    requires NoDuplicates(channel)
    ensures ChannelSum(channel, AfterMix(mixed, input, samples, offset), t)
         == ChannelSum(channel, mixed, t)
            + if MixContribution(input, 0) in channel then Placed(samples, offset, t) else 0.0
  {
    if channel != [] {
      var n := |channel| - 1;
      ChannelSumStep(channel[..n], mixed, input, samples, offset, t);
      assert channel == channel[..n] + [channel[n]];
      if channel[n] == MixContribution(input, 0) { assert channel[n] !in channel[..n]; }
    }
  }

  lemma {:induction false} SilenceSum(channel: Channel, t: nat)
    ensures ChannelSum(channel, SILENT, t) == 0.0
  {
    if channel != [] { SilenceSum(channel[..|channel| - 1], t); }
  }

  /** Adds one sample to the channels of one frame that it contributes to. */
  method AddToFrame(out: array<real>, t: nat, m: nat, contribs: seq<bool>, sample: real)
    requires |contribs| == m && t * m + m <= out.Length
    modifies out
    ensures forall c :: 0 <= c < m ==> out[Idx(t, c, m)] == old(out[Idx(t, c, m)]) + if contribs[c] then sample else 0.0
    ensures forall i :: 0 <= i < out.Length && (i < t * m || t * m + m <= i) ==> out[i] == old(out[i])
  {
    var base := t * m;
    for c := 0 to m
      invariant forall k :: base <= k < base + c ==> out[k] == old(out[k]) + if contribs[k - base] then sample else 0.0
      invariant forall i :: 0 <= i < out.Length && (i < base || base + c <= i) ==> out[i] == old(out[i])
    {
      if contribs[c] {
        out[base + c] := out[base + c] + sample;
      }
    }
    forall c | 0 <= c < m
      ensures out[Idx(t, c, m)] == old(out[Idx(t, c, m)]) + if contribs[c] then sample else 0.0
    {
      assert base <= Idx(t, c, m) < base + m;
    }
  }

  /** Adds `num` frames of a mono input, scaled, into the wide buffer. */
  method MixOneBuffer(out: array<real>, frames: nat, m: nat, contribs: seq<bool>, input: seq<real>, scale: real,
                      inOffset: nat, outOffset: nat, num: nat)
    requires 0 < m && out.Length == frames * m && |contribs| == m && scale > 0.0
    requires inOffset + num <= |input| && outOffset + num <= frames
    modifies out
    ensures forall t: nat, c: nat :: t < frames && c < m ==>
              Idx(t, c, m) < out.Length
              && out[Idx(t, c, m)] == old(out[..])[Idx(t, c, m)]
                 + if contribs[c] then Placed(Scaled(input[inOffset..inOffset + num], scale), outOffset, t) else 0.0
  {
    forall t: nat, c: nat | t < frames && c < m ensures Idx(t, c, m) < out.Length { IdxInRange(t, c, frames, m); }
    ghost var samples := Scaled(input[inOffset..inOffset + num], scale);
    for f := 0 to num
      invariant forall t: nat, c: nat :: t < frames && c < m ==>
                  out[Idx(t, c, m)] == old(out[..])[Idx(t, c, m)]
                  + if contribs[c] && t < outOffset + f then Placed(samples, outOffset, t) else 0.0
    {
      var u := outOffset + f;
      MulStrict(u, frames, m);
      forall t: nat, c: nat | t < frames && c < m && t != u
        ensures Idx(t, c, m) < u * m || u * m + m <= Idx(t, c, m)
      {
        IdxDistinct(t, c, u, m);
      }
      AddToFrame(out, u, m, contribs, Ratio(input[inOffset + f], scale));
    }
  }

  datatype OutBuffer = OutBuffer(data: array<real>, frames: nat, split: seq<OutputChannelSplit>)

  class Element {
    var outputConfig: seq<OutputMix>
    var pendingConfig: Option<seq<OutputMix>>
    var configured: bool              // the caps of the first sink pad are known
    var sinkPads: set<nat>
    var srcChannels: Option<nat>
    var current: Option<OutBuffer>
    ghost var mixed: Mixed

    ghost predicate Valid()
      reads this, if current.Some? then {current.value.data} else {}
    {
      && WellFormed(outputConfig)
      && (pendingConfig.Some? ==> WellFormed(pendingConfig.value))
      && (srcChannels.Some? ==> configured && srcChannels.value == Max(1, |Flat(outputConfig)|))
      && (current.Some? ==> srcChannels.Some? && BufferValid())
    }

    /** The buffer in progress carries the layout of, and is mixed by, the configuration in use. */
    ghost predicate BufferValid()
      requires current.Some? && srcChannels.Some?
      reads this, current.value.data
    {
      && current.value.split == Layout(outputConfig)
      && IsMixOf(current.value.data[..], current.value.frames, srcChannels.value, Flat(outputConfig), mixed)
    }

    constructor ()
      ensures Valid() && outputConfig == [] && pendingConfig == None && current == None && srcChannels == None
      ensures sinkPads == {}
    {
      outputConfig, pendingConfig, configured, srcChannels, current := [], None, false, None, None;
      sinkPads := {};
      mixed := SILENT;
    }

    /** Starting and stopping forget the caps; the base class drops its caps and its buffer. */
    method Reset()
      requires Valid()
      modifies this`configured, this`srcChannels, this`current
      ensures Valid() && current == None && srcChannels == None
    {
      configured, srcChannels, current := false, None, None;
    }

    /** A named pad must be free; for an unnamed one the base class picks some number `unused`. */
    method RequestPad(name: Option<nat>, unused: nat) returns (r: Option<nat>)
      requires Valid() && unused !in sinkPads
      modifies this`sinkPads
      ensures Valid()
      ensures r == if name == None then Some(unused) else if name.value in old(sinkPads) then None else name
      ensures sinkPads == old(sinkPads) + if r.Some? then {r.value} else {}
    {
      var n := if name == None then unused else name.value;
      if n in sinkPads {
        return None;
      }
      sinkPads := sinkPads + {n};
      return Some(n);
    }

    method ReleasePad(n: nat)
      requires Valid()
      modifies this`sinkPads
      ensures Valid() && sinkPads == old(sinkPads) - {n}
    {
      sinkPads := sinkPads - {n};
    }

    method SinkCaps()
      requires Valid()
      modifies this`configured
      ensures Valid() && configured
    {
      configured := true;
    }

    method SetOutputConfig(config: seq<OutputMix>)
      requires Valid() && WellFormed(config)
      modifies this`pendingConfig
      ensures Valid() && pendingConfig == Some(config)
    {
      pendingConfig := Some(config);
    }

    /** A pending configuration waits while a buffer is in progress. `caps` are the new source caps, if any. */
    method Negotiate() returns (ok: bool, caps: Option<nat>)
      requires Valid()
      modifies this`outputConfig, this`pendingConfig, this`srcChannels
      ensures Valid() && current == old(current)
      ensures current.Some? ==> unchanged(this) && ok && caps == None
      ensures current == None ==>
                && outputConfig == (if old(pendingConfig).Some? then old(pendingConfig).value else old(outputConfig))
                && pendingConfig == None && ok == configured
                && caps == (if ok then Some(Max(1, |Flat(outputConfig)|)) else None)
                && srcChannels == (if ok then caps else old(srcChannels))
    {
      if current.Some? {
        return true, None;
      }
      if pendingConfig.Some? {
        outputConfig, pendingConfig := pendingConfig.value, None;
      }
      if !configured {
        return false, None;
      }
      // There must be no buffer pending when the caps change
      assert current == None;
      srcChannels := Some(Max(1, |Flat(outputConfig)|));
      return true, srcChannels;
    }

    /** The outputs' channel ranges, one after the other. */
    method OutputSplit() returns (split: seq<OutputChannelSplit>)
      ensures split == Layout(outputConfig)
    {
      split := [];
      var channelOffset := 0;
      for i := 0 to |outputConfig|
        invariant split == Layout(outputConfig[..i]) && channelOffset == |Flat(outputConfig[..i])|
      {
        assert outputConfig[..i + 1][..i] == outputConfig[..i];
        var nChannels := |outputConfig[i].channels|;
        split := split + [OutputChannelSplit(outputConfig[i].outputNum, channelOffset, nChannels)];
        channelOffset := channelOffset + nChannels;
      }
      assert outputConfig[..|outputConfig|] == outputConfig;
    }

    /** A silent buffer for the negotiated caps, with the layout of the configuration attached. */
    method CreateOutputBuffer(frames: nat)
      requires Valid() && current == None && srcChannels.Some?
      modifies this`current, this`mixed
      ensures Valid() && current.Some? && fresh(current.value.data) && current.value.frames == frames
      ensures mixed == SILENT
    {
      var data := new real[frames * srcChannels.value](_ => 0.0);
      var split := OutputSplit();
      mixed := SILENT;
      SilentIsMix(data[..], frames, srcChannels.value, Flat(outputConfig));
      current := Some(OutBuffer(data, frames, split));
    }

    /** Adds `num` frames of the input of pad `n` into the buffer in progress. */
    method AggregateOneBuffer(n: nat, input: seq<real>, scale: real, inOffset: nat, outOffset: nat, num: nat)
      requires Valid() && current.Some? && Flat(outputConfig) != [] && scale > 0.0
      requires inOffset + num <= |input| && outOffset + num <= current.value.frames
      modifies this`mixed, current.value.data
      ensures Valid() && current == old(current)
      ensures mixed == AfterMix(old(mixed), n, Scaled(input[inOffset..inOffset + num], scale), outOffset)
    {
      var contribs := GetContributions(outputConfig, n, 0);
      var m := |Flat(outputConfig)|;
      assert |contribs| == m;
      var out := current.value;
      ghost var before := out.data[..];
      MixOneBuffer(out.data, out.frames, m, contribs, input, scale, inOffset, outOffset, num);
      ghost var samples := Scaled(input[inOffset..inOffset + num], scale);
      MixStep(before, out.data[..], out.frames, Flat(outputConfig), mixed, contribs, n, samples, outOffset);
      mixed := AfterMix(mixed, n, samples, outOffset);
    }

    /** The base class pushes the finished buffer downstream. */
    method TakeBuffer() returns (buffer: OutBuffer)
      requires Valid() && current.Some?
      modifies this`current
      ensures Valid() && current == None && buffer == old(current).value
      ensures srcChannels.Some? && buffer.split == Layout(outputConfig)
      ensures IsMixOf(buffer.data[..], buffer.frames, srcChannels.value, Flat(outputConfig), mixed)
    {
      buffer := current.value;
      current := None;
    }
  }

  lemma SilentIsMix(data: seq<real>, frames: nat, m: nat, flat: seq<Channel>)
    requires m == Max(1, |flat|) && |data| == frames * m && forall i :: 0 <= i < |data| ==> data[i] == 0.0
    ensures IsMixOf(data, frames, m, flat, SILENT)
  {
    forall t: nat, c: nat | t < frames && c < m
      ensures Idx(t, c, m) < |data|
              && data[Idx(t, c, m)] == if c < |flat| then ChannelSum(flat[c], SILENT, t) else 0.0
    {
      IdxInRange(t, c, frames, m);
      if c < |flat| { SilenceSum(flat[c], t); }
    }
  }

  lemma MixStep(before: seq<real>, after: seq<real>, frames: nat, flat: seq<Channel>, mixed: Mixed,
                contribs: seq<bool>, n: nat, samples: seq<real>, offset: nat)
    requires flat != [] && IsMixOf(before, frames, |flat|, flat, mixed) && |after| == |before|
    requires forall c :: 0 <= c < |flat| ==> NoDuplicates(flat[c])
    requires |contribs| == |flat| && forall c :: 0 <= c < |flat| ==> (contribs[c] <==> MixContribution(n, 0) in flat[c])
    requires forall t: nat, c: nat :: t < frames && c < |flat| ==>
               Idx(t, c, |flat|) < |after|
               && after[Idx(t, c, |flat|)] == before[Idx(t, c, |flat|)]
                  + if contribs[c] then Placed(samples, offset, t) else 0.0
    ensures IsMixOf(after, frames, |flat|, flat, AfterMix(mixed, n, samples, offset))
  {
    forall t: nat, c: nat | t < frames && c < |flat|
      ensures after[Idx(t, c, |flat|)] == ChannelSum(flat[c], AfterMix(mixed, n, samples, offset), t)
    {
      ChannelSumStep(flat[c], mixed, n, samples, offset, t);
    }
  }
}
