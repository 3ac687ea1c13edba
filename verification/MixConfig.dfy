/**
 Mix configurations of the multi mixer: which input channels contribute to which channel of which
 output, how the channels of all outputs are laid out side by side in one wide buffer, and the
 minus-1 configuration in which every output mixes all inputs but one.
 */
module MixConfig {
  import opened Prelude

  datatype MixContribution = MixContribution(input: nat, channel: nat)

  type Channel = seq<MixContribution>

  datatype OutputMix = OutputMix(outputNum: nat, channels: seq<Channel>)

  datatype OutputChannelSplit = OutputChannelSplit(outputNum: nat, channelOffset: nat, nChannels: nat)

  // ---- Meaning ----

  /** The channels of all outputs, in the order in which they lie in the wide buffer. */
  function Flat(config: seq<OutputMix>): seq<Channel> {
    if config == [] then [] else Flat(config[..|config| - 1]) + config[|config| - 1].channels
  }

  /** Where each output's channels lie. */
  function Layout(config: seq<OutputMix>): (s: seq<OutputChannelSplit>)
    ensures |s| == |config|
  {
    if config == [] then []
    else
      var n := |config| - 1;
      Layout(config[..n]) + [OutputChannelSplit(config[n].outputNum, |Flat(config[..n])|, |config[n].channels|)]
  }

  predicate NoDuplicates<T(==)>(s: seq<T>) {
    forall i, j :: 0 <= i < j < |s| ==> s[i] != s[j]
  }

  predicate WellFormed(config: seq<OutputMix>) {
    && (forall i, j :: 0 <= i < j < |config| ==> config[i].outputNum != config[j].outputNum)
    && forall c :: 0 <= c < |Flat(config)| ==> NoDuplicates(Flat(config)[c])
  }

  lemma {:induction false} LayoutAt(config: seq<OutputMix>, i: nat)
    requires i < |config|
    ensures Layout(config)[i] == OutputChannelSplit(config[i].outputNum, |Flat(config[..i])|, |config[i].channels|)
  {
    var n := |config| - 1;
    if i < n {
      LayoutAt(config[..n], i);
      assert config[..n][..i] == config[..i];
    }
  }

  /** The split ranges are contiguous and in order, so they are disjoint and cover all channels. */
  lemma LayoutTiles(config: seq<OutputMix>, i: nat)
    requires i < |config|
    ensures i == 0 ==> Layout(config)[i].channelOffset == 0
    ensures Layout(config)[i].channelOffset + Layout(config)[i].nChannels
         == if i + 1 < |config| then Layout(config)[i + 1].channelOffset else |Flat(config)|
  {
    LayoutAt(config, i);
    assert config[..i + 1][..i] == config[..i];
    if i + 1 < |config| {
      LayoutAt(config, i + 1);
    } else {
      assert config[..i + 1] == config;
    }
  }

  /** Each range lies inside the buffer and holds that output's own channels. */
  lemma {:induction false} LayoutInRange(config: seq<OutputMix>, i: nat)
    requires i < |config|
    ensures var s := Layout(config)[i];
            && s.outputNum == config[i].outputNum
            && s.channelOffset + s.nChannels <= |Flat(config)|
            && Flat(config)[s.channelOffset..s.channelOffset + s.nChannels] == config[i].channels
  {
    var n := |config| - 1;
    if i < n {
      var init := config[..n];
      LayoutInRange(init, i);
      var s := Layout(config)[i];
      assert s == Layout(init)[i] && config[i] == init[i];
      SliceOfPrefix(Flat(init), config[n].channels, s.channelOffset, s.channelOffset + s.nChannels);
    }
  }

  lemma SliceOfPrefix<T>(a: seq<T>, b: seq<T>, i: nat, j: nat)
    requires i <= j <= |a|
    ensures (a + b)[i..j] == a[i..j]
  {
  }

  // ---- Building a configuration ----

  /** Adds a contribution unless the channel already has it. */
  method AddContribution(contributions: Channel, input: nat, channel: nat) returns (r: Channel)
    ensures r == if MixContribution(input, channel) in contributions then contributions
                 else contributions + [MixContribution(input, channel)]
  {
    for i := 0 to |contributions|
      invariant MixContribution(input, channel) !in contributions[..i]
    {
      if contributions[i].input == input && contributions[i].channel == channel {
        return contributions;
      }
      assert contributions[..i + 1] == contributions[..i] + [contributions[i]];
    }
    assert contributions[..|contributions|] == contributions;
    return contributions + [MixContribution(input, channel)];
  }

  /** The position of an output's mix, or the length if it has none. */
  function Position(outputs: seq<OutputMix>, outputNum: nat): (p: nat)
    ensures p <= |outputs|
    ensures forall i :: 0 <= i < p ==> outputs[i].outputNum != outputNum
    ensures p < |outputs| ==> outputs[p].outputNum == outputNum
  {
    if outputs == [] then 0 else if outputs[0].outputNum == outputNum then 0 else 1 + Position(outputs[1..], outputNum)
  }

  /** Replaces the mix of the same output, or appends a new one. */
  method AddOutputMix(outputs: seq<OutputMix>, mix: OutputMix) returns (r: seq<OutputMix>)
    ensures var p := Position(outputs, mix.outputNum);
            r == if p < |outputs| then outputs[p := mix] else outputs + [mix]
  {
    for i := 0 to |outputs|
      invariant forall k :: 0 <= k < i ==> outputs[k].outputNum != mix.outputNum
    {
      if outputs[i].outputNum == mix.outputNum {
        return outputs[i := mix];
      }
    }
    return outputs + [mix];
  }

  /** Which wide-buffer channels an input channel contributes to. */
  method GetContributions(config: seq<OutputMix>, input: nat, channel: nat) returns (r: seq<bool>)
    ensures |r| == |Flat(config)|
    ensures forall c :: 0 <= c < |r| ==> (r[c] <==> MixContribution(input, channel) in Flat(config)[c])
  {
    r := [];
    for i := 0 to |config|
      invariant |r| == |Flat(config[..i])|
      invariant forall c :: 0 <= c < |r| ==> (r[c] <==> MixContribution(input, channel) in Flat(config[..i])[c])
    {
      assert config[..i + 1][..i] == config[..i];
      ghost var before := Flat(config[..i]);
      var channels := config[i].channels;
      for k := 0 to |channels|
        invariant |r| == |before| + k
        invariant forall c :: 0 <= c < |r| ==>
                    (r[c] <==> MixContribution(input, channel) in (before + channels)[c])
      {
        var contributes := false;
        for m := 0 to |channels[k]|
          invariant contributes <==> MixContribution(input, channel) in channels[k][..m]
        {
          if channels[k][m].input == input && channels[k][m].channel == channel {
            contributes := true;
          }
          assert channels[k][..m + 1] == channels[k][..m] + [channels[k][m]];
        }
        assert channels[k][..|channels[k]|] == channels[k];
        r := r + [contributes];
      }
    }
    assert config[..|config|] == config;
  }

  // ---- Minus-1 ----

  /** All streams but `k`, as contributions of their only channel. */
  function Others(streams: seq<nat>, k: nat): Channel {
    if streams == [] then []
    else
      var n := |streams| - 1;
      Others(streams[..n], k) + (if streams[n] == k then [] else [MixContribution(streams[n], 0)])
  }

  function Minus1(streams: seq<nat>): (config: seq<OutputMix>)
    ensures |config| == |streams|
  {
    seq(|streams|, i requires 0 <= i < |streams| => OutputMix(streams[i], [Others(streams, streams[i])]))
  }

  lemma {:induction false} OthersMembers(streams: seq<nat>, k: nat)
    ensures forall x :: x in Others(streams, k) <==> x.channel == 0 && x.input != k && x.input in streams
    ensures NoDuplicates(streams) ==> NoDuplicates(Others(streams, k))
  {
    if streams != [] {
      var n := |streams| - 1;
      OthersMembers(streams[..n], k);
      assert streams == streams[..n] + [streams[n]];
      if NoDuplicates(streams) { assert streams[n] !in streams[..n]; }
    }
  }

  /** In the minus-1 layout every stream has one channel, at its own position. */
  lemma {:induction false} SingleChannels(config: seq<OutputMix>)
    requires forall i :: 0 <= i < |config| ==> |config[i].channels| == 1
    ensures |Flat(config)| == |config|
    ensures forall i :: 0 <= i < |config| ==>
              && Flat(config)[i] == config[i].channels[0]
              && Layout(config)[i] == OutputChannelSplit(config[i].outputNum, i, 1)
  {
    if config != [] {
      var n := |config| - 1;
      SingleChannels(config[..n]);
      forall i | 0 <= i < n
        ensures Flat(config)[i] == config[i].channels[0]
        ensures Layout(config)[i] == OutputChannelSplit(config[i].outputNum, i, 1)
      {
        assert config[i] == config[..n][i];
        assert Layout(config)[i] == Layout(config[..n])[i];
      }
    }
  }

  lemma Minus1Shape(streams: seq<nat>)
    ensures |Flat(Minus1(streams))| == |streams|
    ensures forall i :: 0 <= i < |streams| ==>
              && Flat(Minus1(streams))[i] == Others(streams, streams[i])
              && Layout(Minus1(streams))[i] == OutputChannelSplit(streams[i], i, 1)
    ensures NoDuplicates(streams) ==> WellFormed(Minus1(streams))
  {
    SingleChannels(Minus1(streams));
    forall i | 0 <= i < |streams| ensures NoDuplicates(streams) ==> NoDuplicates(Others(streams, streams[i])) {
      OthersMembers(streams, streams[i]);
    }
  }

  /** The mix of one output: every other input. */
  method MixOthers(streams: seq<nat>, outputNum: nat) returns (mix: OutputMix)
    requires NoDuplicates(streams)
    ensures mix == OutputMix(outputNum, [Others(streams, outputNum)])
  {
    mix := OutputMix(outputNum, [[]]);
    for k := 0 to |streams|
      invariant mix == OutputMix(outputNum, [Others(streams[..k], outputNum)])
    {
      assert streams[..k + 1][..k] == streams[..k] && streams[..k + 1][k] == streams[k];
      if streams[k] == outputNum {
        assert Others(streams[..k + 1], outputNum) == Others(streams[..k], outputNum);
      } else {
        OthersMembers(streams[..k], outputNum);
        assert streams[k] !in streams[..k];
        var channel := AddContribution(mix.channels[0], streams[k], 0);
        mix := mix.(channels := mix.channels[0 := channel]);
      }
    }
    assert streams[..|streams|] == streams;
  }

  /** The configuration for a set of streams: every output gets every other input. */
  method UpdateOutputConfig(streams: seq<nat>) returns (config: seq<OutputMix>)
    requires NoDuplicates(streams)
    ensures config == Minus1(streams)
  {
    config := [];
    for i := 0 to |streams|
      invariant config == Minus1(streams)[..i]
    {
      var mix := MixOthers(streams, streams[i]);
      config := AddOutputMix(config, mix);
    }
  }
}
