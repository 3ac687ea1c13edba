/** The internal splitter element: it cuts the wide buffers of the mixer into one buffer per output pad. */
module Splitter {
  import opened Prelude
  import opened MixConfig
  import opened MultiMixer

  datatype Format = F32 | S16

  datatype Samples = F32Samples(f: seq<real>) | S16Samples(s: seq<int>)

  datatype ChainResult = NotNegotiated | Flow(sent: seq<(nat, Samples)>, gaps: set<nat>)

  /** Truncates toward zero. */
  function Truncate(x: real): int {
    if x >= 0.0 then x.Floor else -((-x).Floor)
  }

  function Clamp16(x: int): int {
    if x < -32768 then -32768 else if x > 32767 then 32767 else x
  }

  /** A saturating cast to 16 bits: values in range lose their fraction, toward zero. */
  function ToI16(x: real): (y: int)
    ensures -32768 <= y <= 32767
    ensures 0.0 <= x < 32768.0 ==> y as real <= x < y as real + 1.0
    ensures -32769.0 < x <= 0.0 ==> y as real - 1.0 < x <= y as real
    ensures x >= 32767.0 ==> y == 32767
    ensures x <= -32768.0 ==> y == -32768
  {
    Clamp16(Truncate(x))
  }

  /** `samples` are channels `offset..offset + n` of every frame of `data`, converted. */
  ghost predicate IsSplit(format: Format, samples: Samples, data: seq<real>, frames: nat, m: nat, offset: nat, n: nat)
    requires offset + n <= m && |data| == frames * m
  {
    match format
    case F32 => samples.F32Samples? && IsCut(samples.f, data, frames, m, offset, n, x => x)
    case S16 => samples.S16Samples? && IsCut(samples.s, data, frames, m, offset, n, x => ToI16(x * 32768.0))
  }

  ghost predicate IsCut<T(!new)>(out: seq<T>, data: seq<real>, frames: nat, m: nat, offset: nat, n: nat,
                                 conv: real -> T)
    requires offset + n <= m && |data| == frames * m
  {
    && |out| == frames * n
    && forall t: nat, c: nat :: t < frames && c < n ==>
         Idx(t, c, n) < |out| && Idx(t, offset + c, m) < |data|
         && out[Idx(t, c, n)] == conv(data[Idx(t, offset + c, m)])
  }

  /** Copies and converts `n` samples. */
  method CutRange<T(!new)>(out: array<T>, to: nat, data: seq<real>, from: nat, n: nat, conv: real -> T)
    requires to + n <= out.Length && from + n <= |data|
    modifies out
    ensures forall k :: to <= k < to + n ==> out[k] == conv(data[from + k - to])
    ensures forall i :: 0 <= i < out.Length && (i < to || to + n <= i) ==> out[i] == old(out[i])
  {
    for c := 0 to n
      invariant forall k :: to <= k < to + c ==> out[k] == conv(data[from + k - to])
      invariant forall i :: 0 <= i < out.Length && (i < to || to + c <= i) ==> out[i] == old(out[i])
    {
      out[to + c] := conv(data[from + c]);
    }
  }

  /** Copies and converts one frame. */
  method CutFrame<T(!new)>(out: array<T>, t: nat, data: seq<real>, m: nat, offset: nat, n: nat, conv: real -> T)
    requires offset + n <= m && t * n + n <= out.Length && t * m + m <= |data|
    modifies out
    ensures forall c :: 0 <= c < n ==> out[Idx(t, c, n)] == conv(data[Idx(t, offset + c, m)])
    ensures forall i :: 0 <= i < out.Length && (i < t * n || t * n + n <= i) ==> out[i] == old(out[i])
  {
    var to, from := t * n, t * m + offset;
    CutRange(out, to, data, from, n, conv);
    forall c | 0 <= c < n ensures out[Idx(t, c, n)] == conv(data[Idx(t, offset + c, m)]) {
      assert Idx(t, c, n) == to + c && Idx(t, offset + c, m) == from + c;
    }
  }

  method SplitOutputBuf<T(0, !new)>(data: seq<real>, frames: nat, m: nat, offset: nat, n: nat, conv: real -> T)
    returns (r: seq<T>)
    requires 0 < n && offset + n <= m && |data| == frames * m
    ensures IsCut(r, data, frames, m, offset, n, conv)
  {
    var out := new T[frames * n];
    forall t: nat, c: nat | t < frames && c < n ensures Idx(t, c, n) < out.Length { IdxInRange(t, c, frames, n); }
    forall t: nat, c: nat | t < frames && c < m ensures Idx(t, c, m) < |data| { IdxInRange(t, c, frames, m); }
    for f := 0 to frames
      invariant forall t: nat, c: nat :: t < f && c < n ==> out[Idx(t, c, n)] == conv(data[Idx(t, offset + c, m)])
    {
      MulStrict(f, frames, n);
      MulStrict(f, frames, m);
      forall t: nat, c: nat | t < frames && c < n && t != f ensures Idx(t, c, n) < f * n || f * n + n <= Idx(t, c, n) {
        IdxDistinct(t, c, f, n);
      }
      CutFrame(out, f, data, m, offset, n, conv);
    }
    r := out[..];
  }

  ghost function Above(keys: set<nat>, n: nat): set<nat> {
    set k | k in keys && k >= n
  }

  class Element {
    var channelsIn: Option<nat>
    var padSerial: nat
    var outputs: map<nat, Option<Format>>  // pads in use, with their negotiated format

    constructor ()
      ensures channelsIn == None && outputs == map[] && padSerial == 0
    {
      channelsIn, padSerial, outputs := None, 0, map[];
    }

    /** A named pad must be free; an unnamed one gets the next free number. */
    method RequestPad(name: Option<nat>) returns (r: Option<nat>)
      modifies this`outputs, this`padSerial
      ensures name.Some? && name.value in old(outputs) ==> r == None && unchanged(this)
      ensures name.Some? && name.value !in old(outputs) ==> r == name && padSerial == old(padSerial)
      ensures name == None ==>
                && r.Some? && old(padSerial) <= r.value && padSerial == r.value + 1
                && forall k :: old(padSerial) <= k < r.value ==> k in old(outputs)
      ensures r.Some? ==> r.value !in old(outputs) && outputs == old(outputs)[r.value := None]
    {
      var n;
      if name == None {
        n := padSerial;
        padSerial := padSerial + 1;
        while n in outputs
          invariant old(padSerial) <= n && padSerial == n + 1 && outputs == old(outputs)
          invariant forall k :: old(padSerial) <= k < n ==> k in outputs
          decreases Above(outputs.Keys, n)
        {
          assert n in Above(outputs.Keys, n) && n !in Above(outputs.Keys, n + 1);
          n := padSerial;
          padSerial := padSerial + 1;
        }
      } else {
        n := name.value;
        if n in outputs {
          return None;
        }
      }
      outputs := outputs[n := None];
      return Some(n);
    }

    method ReleasePad(n: nat)
      modifies this`outputs
      ensures outputs == old(outputs) - {n}
    {
      outputs := map k | k in outputs && k != n :: outputs[k];
    }

    method SinkCaps(channels: nat)
      modifies this`channelsIn
      ensures channelsIn == Some(channels)
    {
      channelsIn := Some(channels);
    }

    /** The format of an output, asking its peer the first time. */
    method SetUp(n: nat, peer: nat -> Format) returns (format: Format)
      requires n in outputs
      modifies this`outputs
      ensures outputs == old(outputs)[n := Some(format)]
      ensures format == if old(outputs)[n].Some? then old(outputs)[n].value else peer(n)
    {
      if outputs[n] == None {
        outputs := outputs[n := Some(peer(n))];
      }
      format := outputs[n].value;
    }

    method Cut(format: Format, data: seq<real>, frames: nat, m: nat, s: OutputChannelSplit) returns (samples: Samples)
      requires 0 < s.nChannels && s.channelOffset + s.nChannels <= m && |data| == frames * m
      ensures IsSplit(format, samples, data, frames, m, s.channelOffset, s.nChannels)
    {
      match format {
        case F32 =>
          var f := SplitOutputBuf(data, frames, m, s.channelOffset, s.nChannels, x => x);
          samples := F32Samples(f);
        case S16 =>
          var i := SplitOutputBuf(data, frames, m, s.channelOffset, s.nChannels, x => ToI16(x * 32768.0));
          samples := S16Samples(i);
      }
    }

    /**
     Cuts a buffer by the layout attached to it. Outputs that have no pad are skipped; pads that
     get no data get a gap.
     */
    method SinkChain(data: seq<real>, frames: nat, split: seq<OutputChannelSplit>, peer: nat -> Format)
      returns (r: ChainResult)
      requires channelsIn.Some? ==> |data| == frames * channelsIn.value
      requires channelsIn.Some? ==> forall s :: s in split ==>
                 0 < s.nChannels && s.channelOffset + s.nChannels <= channelsIn.value
      modifies this`outputs
      ensures channelsIn == None ==> r == NotNegotiated && unchanged(this)
      ensures channelsIn.Some? ==>
                && r.Flow? && outputs.Keys == old(outputs).Keys
                && AreCuts(r.sent, Served(split, old(outputs).Keys), old(outputs), peer, data, frames, channelsIn.value)
                && r.gaps == old(outputs).Keys - Receivers(r.sent)
                // a pad keeps the format it has; a new one asks its peer
                && AllNegotiated(old(outputs), outputs, peer)
                && forall n :: n in outputs ==> outputs[n] == Some(FormatOf(old(outputs), n, peer))
    {
      if channelsIn == None {
        return NotNegotiated;
      }
      var sent := Serve(data, frames, split, channelsIn.value, peer);
      var gaps := outputs.Keys - set j | 0 <= j < |sent| :: sent[j].0;
      SetUpRest(gaps, peer);
      return Flow(sent, gaps);
    }

    /** Sends every entry whose output has a pad, in the order of the layout. */
    method Serve(data: seq<real>, frames: nat, split: seq<OutputChannelSplit>, m: nat, peer: nat -> Format)
      returns (sent: seq<(nat, Samples)>)
      requires |data| == frames * m
      requires forall s :: s in split ==> 0 < s.nChannels && s.channelOffset + s.nChannels <= m
      modifies this`outputs
      ensures outputs.Keys == old(outputs).Keys && Negotiating(old(outputs), outputs, peer)
      ensures AreCuts(sent, Served(split, old(outputs).Keys), old(outputs), peer, data, frames, m)
      ensures forall n :: n in Receivers(sent) ==> n in outputs && outputs[n].Some?
    {
      sent := [];
      for i := 0 to |split|
        invariant outputs.Keys == old(outputs).Keys && Negotiating(old(outputs), outputs, peer)
        invariant forall n :: n in Receivers(sent) ==> n in outputs && outputs[n].Some?
        invariant AreCuts(sent, ServedTo(split, old(outputs).Keys, i), old(outputs), peer, data, frames, m)
      {
        var s := split[i];
        assert s.channelOffset + s.nChannels <= m;
        if s.outputNum in outputs {
          var format := SetUp(s.outputNum, peer);
          var samples := Cut(format, data, frames, m, s);
          sent := sent + [(s.outputNum, samples)];
        }
      }
    }

    /** The pads that get a gap are set up as well. */
    method SetUpRest(gaps: set<nat>, peer: nat -> Format)
      requires forall n :: n in outputs && n !in gaps ==> outputs[n].Some?
      modifies this`outputs
      ensures outputs.Keys == old(outputs).Keys && AllNegotiated(old(outputs), outputs, peer)
    {
      outputs := map n | n in outputs :: if n in gaps && outputs[n] == None then Some(peer(n)) else outputs[n];
    }
  }

  /** Each pad has the format it had, or one that its peer chose because it had none. */
  ghost predicate Negotiating(before: map<nat, Option<Format>>, after: map<nat, Option<Format>>, peer: nat -> Format)
    requires before.Keys == after.Keys
  {
    forall n :: n in after ==> after[n] == before[n] || (before[n] == None && after[n] == Some(peer(n)))
  }

  /** Each pad has the format it had, and every other one the format that its peer chose. */
  ghost predicate AllNegotiated(before: map<nat, Option<Format>>, after: map<nat, Option<Format>>, peer: nat -> Format)
    requires before.Keys == after.Keys
  {
    forall n :: n in after ==> after[n] == if before[n].Some? then before[n] else Some(peer(n))
  }

  /** The first `n` entries of a layout, without those whose output has no pad. */
  ghost function ServedTo(split: seq<OutputChannelSplit>, pads: set<nat>, n: nat): (r: seq<OutputChannelSplit>)
    requires n <= |split|
    ensures forall s :: s in r ==> s in split && s.outputNum in pads
  {
    if n == 0 then []
    else ServedTo(split, pads, n - 1) + (if split[n - 1].outputNum in pads then [split[n - 1]] else [])
  }

  ghost function Served(split: seq<OutputChannelSplit>, pads: set<nat>): (r: seq<OutputChannelSplit>)
    ensures forall s :: s in r ==> s in split && s.outputNum in pads
  {
    ServedTo(split, pads, |split|)
  }

  /** Where the entries whose output has a pad lie. */
  ghost function PositionsTo(split: seq<OutputChannelSplit>, pads: set<nat>, n: nat): (at: seq<nat>)
    requires n <= |split|
    ensures forall j :: 0 <= j < |at| ==> at[j] < n && split[at[j]].outputNum in pads
    ensures forall i, j :: 0 <= i < j < |at| ==> at[i] < at[j]
  {
    if n == 0 then []
    else PositionsTo(split, pads, n - 1) + (if split[n - 1].outputNum in pads then [n - 1] else [])
  }

  lemma {:induction false} AllPositions(split: seq<OutputChannelSplit>, pads: set<nat>, n: nat, i: nat)
    requires i < n <= |split| && split[i].outputNum in pads
    ensures i in PositionsTo(split, pads, n)
  {
    if i < n - 1 { AllPositions(split, pads, n - 1, i); }
  }

  lemma {:induction false} ServedCount(split: seq<OutputChannelSplit>, pads: set<nat>, n: nat)
    requires n <= |split|
    ensures |ServedTo(split, pads, n)| == |PositionsTo(split, pads, n)|
  {
    if n > 0 { ServedCount(split, pads, n - 1); }
  }

  /** The served entries are, in order, exactly the entries whose output has a pad. */
  lemma {:induction false} ServedAt(split: seq<OutputChannelSplit>, pads: set<nat>, n: nat, j: nat)
    requires n <= |split| && j < |PositionsTo(split, pads, n)|
    ensures |ServedTo(split, pads, n)| == |PositionsTo(split, pads, n)|
    ensures ServedTo(split, pads, n)[j] == split[PositionsTo(split, pads, n)[j]]
  {
    ServedCount(split, pads, n - 1);
    if j < |PositionsTo(split, pads, n - 1)| { ServedAt(split, pads, n - 1, j); }
  }

  /** The pads that were sent something. */
  ghost function Receivers(sent: seq<(nat, Samples)>): set<nat> {
    set j | 0 <= j < |sent| :: sent[j].0
  }

  /** Buffer `j` sent goes to the output of entry `j` and holds its channels in that output's format. */
  ghost predicate AreCuts(sent: seq<(nat, Samples)>, entries: seq<OutputChannelSplit>,
                          outputs: map<nat, Option<Format>>, peer: nat -> Format, data: seq<real>, frames: nat, m: nat)
    requires |data| == frames * m
    requires forall s :: s in entries ==> s.outputNum in outputs && s.channelOffset + s.nChannels <= m
  {
    && |sent| == |entries|
    && forall j :: 0 <= j < |sent| ==>
         && sent[j].0 == entries[j].outputNum
         && IsSplit(FormatOf(outputs, entries[j].outputNum, peer), sent[j].1, data, frames, m,
                    entries[j].channelOffset, entries[j].nChannels)
  }

  function FormatOf(outputs: map<nat, Option<Format>>, n: nat, peer: nat -> Format): Format
    requires n in outputs
  {
    if outputs[n].Some? then outputs[n].value else peer(n)
  }
}
