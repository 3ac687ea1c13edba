/**
 The minus-1 mixer bin: it owns the mixer and the splitter, adds and removes streams at run time,
 and rebuilds the configuration each time. Its promise is that output `k` carries the sum of all
 inputs except input `k`.
 */
module Minus1Mixer {
  import opened Prelude
  import opened MixConfig
  import opened MultiMixer
  import opened Minus1Sums
  import S = Splitter

  /** The streams without `n`, in order. */
  function Without(streams: seq<nat>, n: nat): (r: seq<nat>)
    ensures forall x :: x in r <==> x in streams && x != n
    ensures NoDuplicates(streams) ==> NoDuplicates(r)
  {
    if streams == [] then []
    else
      var last := streams[|streams| - 1];
      assert streams == streams[..|streams| - 1] + [last];
      assert NoDuplicates(streams) ==> last !in streams[..|streams| - 1];
      Without(streams[..|streams| - 1], n) + (if last == n then [] else [last])
  }

  lemma {:induction false} WithoutAt(streams: seq<nat>, i: nat)
    requires NoDuplicates(streams) && i < |streams|
    ensures Without(streams, streams[i]) == streams[..i] + streams[i + 1..]
  {
    var n := |streams| - 1;
    var last := streams[n];
    if i == n {
      assert last !in streams[..n];
      WithoutAbsent(streams[..n], last);
    } else {
      WithoutAt(streams[..n], i);
      assert streams[..n][..i] + streams[..n][i + 1..] + [last] == streams[..i] + streams[i + 1..];
    }
  }

  lemma {:induction false} WithoutAbsent(streams: seq<nat>, n: nat)
    requires n !in streams
    ensures Without(streams, n) == streams
  {
    if streams != [] { WithoutAbsent(streams[..|streams| - 1], n); }
  }

  class Bin {
    const mixer: Element
    const splitter: S.Element
    var streams: seq<nat>
    ghost var active: seq<nat>  // the streams of the configuration in use

    ghost predicate Valid()
      reads this, mixer, splitter, if mixer.current.Some? then {mixer.current.value.data} else {}
    {
      && mixer.Valid()
      && NoDuplicates(streams) && NoDuplicates(active)
      && splitter.outputs.Keys == mixer.sinkPads == (set n | n in streams)
      && mixer.outputConfig == Minus1(active)
      && (mixer.pendingConfig == None ==> active == streams)
      && (mixer.pendingConfig.Some? ==> mixer.pendingConfig.value == Minus1(streams))
      && (mixer.srcChannels.Some? ==> splitter.channelsIn == mixer.srcChannels)
    }

    constructor ()
      ensures Valid() && streams == [] && mixer.current == None && fresh(mixer) && fresh(splitter)
    {
      mixer := new Element();
      splitter := new S.Element();
      streams, active := [], [];
    }

    /**
     A new input on the mixer gets an output of the same number. A name that is taken is refused; without
     a name the mixer picks a number that is not in use. The splitter never refuses.
     */
    method RequestPad(name: Option<nat>, unused: nat) returns (r: Option<nat>)
      requires Valid() && unused !in streams
      modifies this`streams, mixer`sinkPads, mixer`pendingConfig, splitter`outputs, splitter`padSerial
      ensures Valid() && active == old(active) && mixer.current == old(mixer.current)
      ensures r == None <==> name.Some? && name.value in old(streams)
      ensures r == None ==> streams == old(streams) && mixer.pendingConfig == old(mixer.pendingConfig)
      ensures r.Some? ==>
                && r.value !in old(streams) && (name.Some? ==> r == name)
                && streams == old(streams) + [r.value] && mixer.pendingConfig == Some(Minus1(streams))
    {
      r := mixer.RequestPad(name, unused);
      if r == None {
        return;
      }
      var ok := AddStream(r.value);
      if !ok {
        return None;
      }
    }

    /** The output of a new input, and the new configuration. */
    method AddStream(n: nat) returns (ok: bool)
      requires mixer.Valid() && NoDuplicates(streams) && n !in streams
      requires splitter.outputs.Keys == (set n | n in streams)
      modifies this`streams, mixer`pendingConfig, splitter`outputs, splitter`padSerial
      ensures ok && mixer.Valid() && mixer.pendingConfig == Some(Minus1(streams))
      ensures streams == old(streams) + [n] && NoDuplicates(streams)
      ensures splitter.outputs.Keys == old(splitter.outputs).Keys + {n} == (set n | n in streams)
    {
      var pad := splitter.RequestPad(Some(n));
      if pad == None {
        return false;
      }
      streams := streams + [n];
      Reconfigure();
      return true;
    }

    /** Releasing input `n` removes its output and takes it out of every mix. */
    method ReleasePad(n: nat)
      requires Valid() && n in streams
      modifies this`streams, mixer`sinkPads, mixer`pendingConfig, splitter`outputs
      ensures Valid() && active == old(active) && mixer.current == old(mixer.current)
      ensures streams == Without(old(streams), n) && mixer.pendingConfig == Some(Minus1(streams))
      ensures forall i :: 0 <= i < |old(streams)| && old(streams)[i] == n ==>
                streams == old(streams)[..i] + old(streams)[i + 1..]
    {
      mixer.ReleasePad(n);
      splitter.ReleasePad(n);
      forall i | 0 <= i < |streams| && streams[i] == n
        ensures Without(streams, n) == streams[..i] + streams[i + 1..]
      {
        WithoutAt(streams, i);
      }
      streams := Without(streams, n);
      Reconfigure();
    }

    /** Hands the mixer the configuration for the current streams. */
    method Reconfigure()
      requires mixer.Valid() && NoDuplicates(streams)
      modifies mixer`pendingConfig
      ensures mixer.Valid() && mixer.pendingConfig == Some(Minus1(streams))
    {
      Minus1Shape(streams);
      var config := UpdateOutputConfig(streams);
      mixer.SetOutputConfig(config);
    }

    method SinkCaps()
      requires Valid()
      modifies mixer`configured
      ensures Valid() && mixer.configured
    {
      mixer.SinkCaps();
    }

    method Reset()
      requires Valid()
      modifies mixer`configured, mixer`srcChannels, mixer`current
      ensures Valid() && mixer.current == None
    {
      mixer.Reset();
    }

    /** Applies a pending configuration when no buffer is in progress; new caps reach the splitter first. */
    method Negotiate() returns (ok: bool)
      requires Valid()
      modifies this`active, mixer`outputConfig, mixer`pendingConfig, mixer`srcChannels, splitter`channelsIn
      ensures Valid() && mixer.current == old(mixer.current)
      ensures active == if mixer.current.Some? then old(active) else streams
      ensures mixer.current == None ==>
                ok == mixer.configured && (ok ==> mixer.srcChannels == Some(Max(1, |streams|)))
    {
      var caps;
      ok, caps := mixer.Negotiate();
      if caps.Some? {
        splitter.SinkCaps(caps.value);
      }
      if mixer.current == None {
        active := streams;
      }
      Minus1Shape(active);
    }

    method CreateOutputBuffer(frames: nat)
      requires Valid() && mixer.current == None && mixer.srcChannels.Some?
      modifies mixer`current, mixer`mixed
      ensures Valid() && mixer.current.Some? && fresh(mixer.current.value.data)
      ensures mixer.current.value.frames == frames && mixer.mixed == SILENT
    {
      mixer.CreateOutputBuffer(frames);
    }

    /** Mixes part of the data of pad `n`; a pad that is not in the configuration adds nothing. */
    method Mix(n: nat, input: seq<real>, scale: real, inOffset: nat, outOffset: nat, num: nat)
      requires Valid() && mixer.current.Some? && active != [] && scale > 0.0
      requires inOffset + num <= |input| && outOffset + num <= mixer.current.value.frames
      modifies mixer`mixed, mixer.current.value.data
      ensures Valid() && mixer.current == old(mixer.current)
      ensures mixer.mixed == AfterMix(old(mixer.mixed), n, Scaled(input[inOffset..inOffset + num], scale), outOffset)
      ensures Adds(old(mixer.mixed), mixer.mixed, n, input, scale, inOffset, outOffset, num)
    {
      Minus1Shape(active);
      assert Flat(mixer.outputConfig) != [];
      AfterMixAdds(mixer.mixed, n, input, scale, inOffset, outOffset, num);
      mixer.AggregateOneBuffer(n, input, scale, inOffset, outOffset, num);
    }

    /**
     The finished buffer goes through the splitter. Every stream that is in the buffer's configuration
     and still has a pad gets the sum of all the other streams of that configuration, whatever the
     order and the pieces in which they were mixed; every other pad gets a gap.
     */
    method PushBuffer(peer: nat -> S.Format) returns (r: S.ChainResult)
      requires Valid() && mixer.current.Some?
      modifies mixer`current, splitter`outputs
      ensures Valid() && mixer.current == None && r.Flow?
      ensures AreMinus1(r.sent, active, streams, old(splitter.outputs), peer, old(mixer.current).value.frames,
                        mixer.mixed)
      ensures r.gaps == (set k | k in streams && k !in active)
    {
      ghost var m, outputs := mixer.srcChannels.value, splitter.outputs;
      LayoutFits(active, m);
      var buffer := mixer.TakeBuffer();
      var data := buffer.data[..];
      r := splitter.SinkChain(data, buffer.frames, buffer.split, peer);
      CutsAreMinus1(r.sent, active, streams, outputs, peer, data, buffer.frames, m, mixer.mixed);
      GapsAreInactive(r.sent, active, streams, outputs.Keys);
    }

    /**
     One whole buffer: silence, every pad of `order` mixed once and as a whole, and the push. Every active
     stream with a pad gets the sum of the inputs of all other active streams, in whatever order the pads
     were mixed; if all of these are floats, a float output is their sum, and if all are 16-bit, a 16-bit
     output is their integer sum, clamped.
     */
    method MixRound(order: seq<nat>, inputs: nat -> S.Samples, frames: nat, peer: nat -> S.Format)
      returns (r: S.ChainResult)
      requires Valid() && mixer.current == None && mixer.srcChannels.Some? && active != []
      requires NoDuplicates(order) && forall n :: n in active ==> n in order
      requires forall n :: n in order ==> |Raw(inputs(n))| == frames
      modifies mixer`current, mixer`mixed, splitter`outputs
      ensures Valid() && mixer.current == None && r.Flow?
      ensures AreMinus1(r.sent, active, streams, old(splitter.outputs), peer, frames, Signals(inputs))
      ensures (forall n :: n in active ==> inputs(n).S16Samples?) ==>
                AreS16Minus1(r.sent, active, streams, old(splitter.outputs), peer, frames, inputs)
      ensures (forall n :: n in active ==> inputs(n).F32Samples?) ==>
                AreF32Minus1(r.sent, active, streams, old(splitter.outputs), peer, frames, inputs)
      ensures r.gaps == (set k | k in streams && k !in active)
    {
      CreateOutputBuffer(frames);
      MixPads(order, inputs);
      r := PushBuffer(peer);
      RoundMeaning(r.sent, active, streams, old(splitter.outputs), peer, frames, order, inputs);
    }

    /** Mixes the pads of `order` into a silent buffer. */
    method MixPads(order: seq<nat>, inputs: nat -> S.Samples)
      requires Valid() && mixer.current.Some? && mixer.mixed == SILENT && active != []
      requires forall n :: n in order ==> |Raw(inputs(n))| == mixer.current.value.frames
      modifies mixer`mixed, mixer.current.value.data
      ensures Valid() && mixer.current == old(mixer.current)
      ensures mixer.mixed == MixAll(order, AllNormal(inputs))
    {
      ghost var signal := AllNormal(inputs);
      for i := 0 to |order|
        invariant Valid() && mixer.current == old(mixer.current)
        invariant mixer.mixed == MixAll(order[..i], signal)
      {
        var input := inputs(order[i]);
        assert Raw(input)[0..|Raw(input)|] == Raw(input);
        assert order[..i + 1][..i] == order[..i];
        Mix(order[i], Raw(input), ScaleOf(input), 0, 0, |Raw(input)|);
      }
      assert order[..|order|] == order;
    }
  }

  /**
   When all inputs have gone and one is added while a buffer is in progress, that buffer has no output
   channels; mixing the new input into it is outside what `Bin.Mix` supports.
   */
  method LateFirstInput(b: Bin, n: nat, frames: nat)
    requires b.Valid() && b.streams == [] && b.mixer.current == None && b.mixer.configured
    modifies b, b.mixer, b.splitter
    ensures b.Valid() && b.streams == [n] && b.active == [] && b.mixer.current.Some?
  {
    var ok := b.Negotiate();
    b.CreateOutputBuffer(frames);
    var pad := b.RequestPad(Some(n), n);
  }
}
