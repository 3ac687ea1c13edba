/** Run-length compression of the DASH segment timeline (section 5.3.9.6 of ISO/IEC 23009-1). */
module DashTimeline {
  import opened Prelude

  datatype Segment = Segment(start: nat, duration: nat)  // nanoseconds

  /** One `S` element: start, duration, and the number of further repeats if any. */
  datatype Entry = Entry(t: nat, d: nat, r: Option<nat>)

  function Milliseconds(ns: nat): nat {
    ns / 1_000_000
  }

  function Times(e: Entry): nat {
    if e.r.Some? then e.r.value + 1 else 1
  }

  function Repeat(d: nat, n: nat): (s: seq<nat>)
    ensures |s| == n && forall i :: 0 <= i < n ==> s[i] == d
  {
    seq(n, _ => d)
  }

  /** The durations a client reads from the first `n` entries. */
  function ExpandTo(entries: seq<Entry>, n: nat): seq<nat>
    requires n <= |entries|
  {
    if n == 0 then [] else ExpandTo(entries, n - 1) + Repeat(entries[n - 1].d, Times(entries[n - 1]))
  }

  function Expand(entries: seq<Entry>): seq<nat> {
    ExpandTo(entries, |entries|)
  }

  /** How many segments the first `n` entries stand for. */
  function Offset(entries: seq<Entry>, n: nat): nat
    requires n <= |entries|
  {
    if n == 0 then 0 else Offset(entries, n - 1) + Times(entries[n - 1])
  }

  function Durations(segments: seq<Segment>): (s: seq<nat>)
    ensures |s| == |segments|
    ensures forall i :: 0 <= i < |s| ==> s[i] == Milliseconds(segments[i].duration)
  {
    seq(|segments|, i requires 0 <= i < |segments| => Milliseconds(segments[i].duration))
  }

  predicate AdjacentDiffer(entries: seq<Entry>) {
    forall i :: 0 <= i < |entries| - 1 ==> entries[i].d != entries[i + 1].d
  }

  /** Entry `i` starts where the first segment of its run starts. */
  ghost predicate StartsAt(entries: seq<Entry>, segments: seq<Segment>, i: nat)
    requires i < |entries|
  {
    Offset(entries, i) < |segments| && entries[i].t == Milliseconds(segments[Offset(entries, i)].start)
  }

  ghost predicate StartsRight(entries: seq<Entry>, segments: seq<Segment>) {
    forall i :: 0 <= i < |entries| ==> StartsAt(entries, segments, i)
  }

  function MakeEntry(start: nat, duration: nat, repeat: nat): Entry {
    Entry(Milliseconds(start), duration, if repeat > 0 then Some(repeat) else None)
  }

  lemma {:induction false} SamePrefix(a: seq<Entry>, b: seq<Entry>, n: nat)
    requires n <= |a| && n <= |b| && forall i :: 0 <= i < n ==> a[i] == b[i]
    ensures ExpandTo(a, n) == ExpandTo(b, n) && Offset(a, n) == Offset(b, n) == |ExpandTo(a, n)|
  {
    if n > 0 { SamePrefix(a, b, n - 1); }
  }

  lemma AppendEntry(entries: seq<Entry>, segments: seq<Segment>, e: Entry)
    requires StartsRight(entries, segments) && |Expand(entries)| < |segments|
    requires e.t == Milliseconds(segments[|Expand(entries)|].start)
    ensures Expand(entries + [e]) == Expand(entries) + Repeat(e.d, Times(e))
    ensures StartsRight(entries + [e], segments)
  {
    var all := entries + [e];
    SamePrefix(all, entries, |entries|);
    forall i | 0 <= i < |all| ensures StartsAt(all, segments, i) {
      SamePrefix(all, entries, i);
      if i < |entries| { assert StartsAt(entries, segments, i); }
    }
  }

  method Compress(segments: seq<Segment>) returns (entries: seq<Entry>)
    ensures Expand(entries) == Durations(segments)
    ensures AdjacentDiffer(entries)
    ensures StartsRight(entries, segments)
    ensures forall i :: 0 <= i < |entries| && entries[i].r.Some? ==> entries[i].r.value > 0
  {
    entries := [];
    var start: Option<nat> := None;
    var numSegments := 0;
    var lastDuration: Option<nat> := None;
    for i := 0 to |segments|
      invariant start.Some? == lastDuration.Some? == (i > 0) && (i > 0 <==> numSegments > 0)
      invariant i == 0 ==> entries == []
      invariant i > 0 ==> Pending(entries, segments, i, start.value, lastDuration.value, numSegments)
    {
      var segment := segments[i];
      if start == None {
        start := Some(segment.start);
      }
      if lastDuration == None {
        lastDuration := Some(Milliseconds(segment.duration));
      }
      if lastDuration != Some(Milliseconds(segment.duration)) {
        CloseRun(entries, segments, i, start.value, lastDuration.value, numSegments);
        entries := entries + [MakeEntry(start.value, lastDuration.value, numSegments - 1)];
        start := Some(segment.start);
        lastDuration := Some(Milliseconds(segment.duration));
        numSegments := 1;
        OpenRun(entries, segments, i);
      } else {
        if i == 0 {
          OpenRun(entries, segments, i);
        } else {
          GrowRun(entries, segments, i, start.value, lastDuration.value, numSegments);
        }
        numSegments := numSegments + 1;
      }
    }
    if numSegments > 0 {
      CloseRun(entries, segments, |segments|, start.value, lastDuration.value, numSegments);
      entries := entries + [MakeEntry(start.value, lastDuration.value, numSegments - 1)];
    }
    assert Durations(segments)[..|segments|] == Durations(segments);
  }

  /** `entries` is a correct timeline of the first `i` segments. */
  ghost predicate Complete(entries: seq<Entry>, segments: seq<Segment>, i: nat)
    requires i <= |segments|
  {
    && Expand(entries) == Durations(segments)[..i]
    && AdjacentDiffer(entries) && StartsRight(entries, segments)
    && forall k :: 0 <= k < |entries| && entries[k].r.Some? ==> entries[k].r.value > 0
  }

  /** All but the last `n` of the first `i` segments are in `entries`; those `n` form an open run. */
  ghost predicate Pending(entries: seq<Entry>, segments: seq<Segment>, i: nat, start: nat, d: nat, n: nat)
    requires i <= |segments|
  {
    && 0 < n <= i
    && Complete(entries, segments, i - n)
    && start == segments[i - n].start
    && (forall k :: i - n <= k < i ==> Durations(segments)[k] == d)
    && (entries != [] ==> entries[|entries| - 1].d != d)
  }

  lemma CloseRun(entries: seq<Entry>, segments: seq<Segment>, i: nat, start: nat, d: nat, n: nat)
    requires i <= |segments| && Pending(entries, segments, i, start, d, n)
    ensures var all := entries + [MakeEntry(start, d, n - 1)];
            Complete(all, segments, i) && all[|all| - 1].d == d
  {
    AppendEntry(entries, segments, MakeEntry(start, d, n - 1));
    RunOf(Durations(segments), i, d, n);
  }

  lemma OpenRun(entries: seq<Entry>, segments: seq<Segment>, i: nat)
    requires i < |segments| && Complete(entries, segments, i)
    requires entries != [] ==> entries[|entries| - 1].d != Milliseconds(segments[i].duration)
    ensures Pending(entries, segments, i + 1, segments[i].start, Milliseconds(segments[i].duration), 1)
  {
  }

  lemma GrowRun(entries: seq<Entry>, segments: seq<Segment>, i: nat, start: nat, d: nat, n: nat)
    requires i < |segments| && Pending(entries, segments, i, start, d, n) && d == Milliseconds(segments[i].duration)
    ensures Pending(entries, segments, i + 1, start, d, n + 1)
  {
  }

  lemma RunOf(s: seq<nat>, i: nat, d: nat, n: nat)
    requires n <= i <= |s| && forall k :: i - n <= k < i ==> s[k] == d
    ensures s[..i] == s[..i - n] + Repeat(d, n)
  {
  }

  // ---- What a client reads ----

  lemma {:induction false} ExpandAt(entries: seq<Entry>, n: nat, i: nat, k: nat)
    requires i < n <= |entries| && k < Times(entries[i])
    ensures Offset(entries, i) + k < |ExpandTo(entries, n)| == Offset(entries, n)
    ensures ExpandTo(entries, n)[Offset(entries, i) + k] == entries[i].d
  {
    SamePrefix(entries, entries, n - 1);
    if i < n - 1 { ExpandAt(entries, n - 1, i, k); }
  }

  /**
   Entry `i` describes its first segment and as many further ones as its repeat count says; the next entry
   goes on behind them. Times are whole milliseconds, rounded down.
   */
  lemma EntryMeans(entries: seq<Entry>, segments: seq<Segment>, i: nat, k: nat)
    requires Expand(entries) == Durations(segments) && StartsRight(entries, segments)
    requires i < |entries| && k <= if entries[i].r.Some? then entries[i].r.value else 0
    ensures Offset(entries, 0) == 0
    ensures Offset(entries, i + 1) == Offset(entries, i) + 1 + if entries[i].r.Some? then entries[i].r.value else 0
    ensures Offset(entries, |entries|) == |segments|
    ensures var s := Offset(entries, i) + k;
            && s < |segments|
            && entries[i].d * 1_000_000 <= segments[s].duration < (entries[i].d + 1) * 1_000_000
            && (k == 0 ==> entries[i].t * 1_000_000 <= segments[s].start < (entries[i].t + 1) * 1_000_000)
  {
    ExpandAt(entries, |entries|, i, k);
    assert StartsAt(entries, segments, i);
  }

  // ---- Compression is optimal ----

  /** How many maximal runs of equal values the first `n` values have. */
  function RunsTo(s: seq<nat>, n: nat): nat
    requires n <= |s|
  {
    if n == 0 then 0 else RunsTo(s, n - 1) + (if n == 1 || s[n - 2] != s[n - 1] then 1 else 0)
  }

  lemma {:induction false} RunsGrow(a: seq<nat>, s: seq<nat>, d: nat, n: nat)
    requires 0 < n && s == a + Repeat(d, n)
    ensures RunsTo(s, |s|) == RunsTo(a, |a|) + if a == [] || a[|a| - 1] != d then 1 else 0
  {
    RunsSame(s, a, |a|);
    var k := 1;
    while k < n
      invariant 1 <= k <= n
      invariant RunsTo(s, |a| + k) == RunsTo(a, |a|) + if a == [] || a[|a| - 1] != d then 1 else 0
    {
      k := k + 1;
    }
  }

  lemma {:induction false} RunsSame(s: seq<nat>, t: seq<nat>, n: nat)
    requires n <= |s| && n <= |t| && forall i :: 0 <= i < n ==> s[i] == t[i]
    ensures RunsTo(s, n) == RunsTo(t, n)
  {
    if n > 0 { RunsSame(s, t, n - 1); }
  }

  lemma {:induction false} EntriesAndRuns(entries: seq<Entry>, n: nat)
    requires n <= |entries|
    ensures var s := ExpandTo(entries, n);
            && RunsTo(s, |s|) <= n
            && (AdjacentDiffer(entries) ==> RunsTo(s, |s|) == n)
            && (n > 0 ==> s != [] && s[|s| - 1] == entries[n - 1].d)
  {
    if n > 0 {
      EntriesAndRuns(entries, n - 1);
      RunsGrow(ExpandTo(entries, n - 1), ExpandTo(entries, n), entries[n - 1].d, Times(entries[n - 1]));
      if n > 1 { assert AdjacentDiffer(entries) ==> entries[n - 2].d != entries[n - 2 + 1].d; }
    }
  }

  /** No timeline with the same durations has fewer entries than one whose neighbours differ. */
  lemma ShortestTimeline(entries: seq<Entry>, other: seq<Entry>)
    requires AdjacentDiffer(entries) && Expand(other) == Expand(entries)
    ensures |entries| <= |other|
  {
    EntriesAndRuns(entries, |entries|);
    EntriesAndRuns(other, |other|);
  }
}
