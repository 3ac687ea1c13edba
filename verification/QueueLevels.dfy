/**
 The content of the thread-sharing data queue as values: levels found by scanning, the effect of each leak
 policy, and the history of what was enqueued, delivered and dropped.
 */
module QueueLevels {
  import opened Prelude

  datatype LeakyMode = NotLeaky | Upstream | Downstream

  datatype Buffer = Buffer(id: nat, size: nat, ts: Option<nat>)

  datatype Item = BufferItem(buffer: Buffer) | ListItem(list: seq<Buffer>) | EventItem(id: nat)

  datatype Status = FirstBuffer | GotBuffers | PendingBuffers

  datatype PushResult = Accepted(status: Status) | Rejected(item: Item)

  datatype Poll = Ready(item: Option<Item>) | Pending

  const U32_MAX := 0xFFFF_FFFF

  // ---- One item ----

  /** The size of the first `n` buffers. */
  function BytesUpTo(list: seq<Buffer>, n: nat): nat
    requires n <= |list|
  {
    if n == 0 then 0 else BytesUpTo(list, n - 1) + list[n - 1].size
  }

  function ListBytes(list: seq<Buffer>): nat {
    BytesUpTo(list, |list|)
  }

  /** The first timestamp from buffer `i` on. */
  function FirstTsFrom(list: seq<Buffer>, i: nat): Option<nat>
    requires i <= |list|
    decreases |list| - i
  {
    if i == |list| then None else if list[i].ts.Some? then list[i].ts else FirstTsFrom(list, i + 1)
  }

  function FirstTs(list: seq<Buffer>): Option<nat> {
    FirstTsFrom(list, 0)
  }

  /** The last timestamp among the first `n` buffers. */
  function LastTsTo(list: seq<Buffer>, n: nat): Option<nat>
    requires n <= |list|
  {
    if n == 0 then None else if list[n - 1].ts.Some? then list[n - 1].ts else LastTsTo(list, n - 1)
  }

  function LastTs(list: seq<Buffer>): Option<nat> {
    LastTsTo(list, |list|)
  }

  function Count(item: Item): nat {
    match item case BufferItem(_) => 1 case ListItem(list) => |list| case EventItem(_) => 0
  }

  function Bytes(item: Item): nat {
    match item case BufferItem(b) => b.size case ListItem(list) => ListBytes(list) case EventItem(_) => 0
  }

  function Timestamp(item: Item): Option<nat> {
    match item case BufferItem(b) => b.ts case ListItem(list) => FirstTs(list) case EventItem(_) => None
  }

  function LastTimestamp(item: Item): Option<nat> {
    match item case BufferItem(b) => b.ts case ListItem(list) => LastTs(list) case EventItem(_) => None
  }

  /** No buffer from `lo` up to `hi` has a timestamp. */
  ghost predicate Unstamped(list: seq<Buffer>, lo: nat, hi: nat)
    requires hi <= |list|
  {
    forall k :: lo <= k < hi ==> list[k].ts == None
  }

  /** The timestamp of the first buffer of a list that has one. */
  lemma FirstTsFinds(list: seq<Buffer>)
    ensures FirstTs(list) == None <==> Unstamped(list, 0, |list|)
    ensures FirstTs(list).Some? ==>
              exists i :: 0 <= i < |list| && list[i].ts == FirstTs(list) && Unstamped(list, 0, i)
  {
    FirstTsFindsFrom(list, 0);
  }

  lemma {:induction false} FirstTsFindsFrom(list: seq<Buffer>, n: nat)
    requires n <= |list|
    ensures FirstTsFrom(list, n) == None <==> Unstamped(list, n, |list|)
    ensures FirstTsFrom(list, n).Some? ==>
              exists i :: n <= i < |list| && list[i].ts == FirstTsFrom(list, n) && Unstamped(list, n, i)
    decreases |list| - n
  {
    if n < |list| {
      if list[n].ts.Some? {
        assert Unstamped(list, n, n);
      } else {
        FirstTsFindsFrom(list, n + 1);
        if FirstTsFrom(list, n).Some? {
          var i :| n + 1 <= i < |list| && list[i].ts == FirstTsFrom(list, n) && Unstamped(list, n + 1, i);
          assert Unstamped(list, n, i);
        }
      }
    }
  }

  /** The timestamp of the last buffer of a list that has one. */
  lemma LastTsFinds(list: seq<Buffer>)
    ensures LastTs(list) == None <==> Unstamped(list, 0, |list|)
    ensures LastTs(list).Some? ==>
              exists i :: 0 <= i < |list| && list[i].ts == LastTs(list) && Unstamped(list, i + 1, |list|)
  {
    LastTsFindsTo(list, |list|);
  }

  lemma {:induction false} LastTsFindsTo(list: seq<Buffer>, n: nat)
    requires n <= |list|
    ensures LastTsTo(list, n) == None <==> Unstamped(list, 0, n)
    ensures LastTsTo(list, n).Some? ==>
              exists i :: 0 <= i < n && list[i].ts == LastTsTo(list, n) && Unstamped(list, i + 1, n)
  {
    if n > 0 {
      if list[n - 1].ts.Some? {
        assert Unstamped(list, n - 1 + 1, n);
      } else {
        LastTsFindsTo(list, n - 1);
        if LastTsTo(list, n).Some? {
          var i :| 0 <= i < n - 1 && list[i].ts == LastTsTo(list, n) && Unstamped(list, i + 1, n - 1);
          assert Unstamped(list, i + 1, n);
        }
      }
    }
  }

  /** Only data with a timestamp has a first and a last one. */
  lemma StampsAgree(item: Item)
    ensures Timestamp(item) == None <==> LastTimestamp(item) == None
  {
    if item.ListItem? {
      FirstTsFinds(item.list);
      LastTsFinds(item.list);
    }
  }

  // ---- Scans of the whole queue ----

  /** Buffers among the first `n` items. */
  function CountTo(q: seq<Item>, n: nat): nat
    requires n <= |q|
  {
    if n == 0 then 0 else CountTo(q, n - 1) + Count(q[n - 1])
  }

  function BytesTo(q: seq<Item>, n: nat): nat
    requires n <= |q|
  {
    if n == 0 then 0 else BytesTo(q, n - 1) + Bytes(q[n - 1])
  }

  /** The first timestamp among the items from `i` on. */
  function FirstFrom(q: seq<Item>, i: nat): Option<nat>
    requires i <= |q|
    decreases |q| - i
  {
    if i == |q| then None else if Timestamp(q[i]).Some? then Timestamp(q[i]) else FirstFrom(q, i + 1)
  }

  /** The last timestamp among the first `n` items. */
  function LastTo(q: seq<Item>, n: nat): Option<nat>
    requires n <= |q|
  {
    if n == 0 then None else if LastTimestamp(q[n - 1]).Some? then LastTimestamp(q[n - 1]) else LastTo(q, n - 1)
  }

  function TotalCount(q: seq<Item>): nat {
    CountTo(q, |q|)
  }

  function TotalBytes(q: seq<Item>): nat {
    BytesTo(q, |q|)
  }

  /** The distance between the first and the last timestamp in the queue. */
  function TimeLevel(q: seq<Item>): nat {
    match (FirstFrom(q, 0), LastTo(q, |q|))
    case (Some(first), Some(last)) => if last >= first then last - first else first - last
    case _ => 0
  }

  // ---- What the scans mean ----

  function BuffersOf(item: Item): seq<Buffer> {
    match item case BufferItem(b) => [b] case ListItem(list) => list case EventItem(_) => []
  }

  /** All buffers of the first `n` items, in order, lists taken apart. */
  function BuffersTo(q: seq<Item>, n: nat): seq<Buffer>
    requires n <= |q|
  {
    if n == 0 then [] else BuffersTo(q, n - 1) + BuffersOf(q[n - 1])
  }

  function AllBuffers(q: seq<Item>): seq<Buffer> {
    BuffersTo(q, |q|)
  }

  /** Each item adds its own buffers behind those before it; events add none. */
  lemma BuffersSnoc(q: seq<Item>, n: nat)
    requires n < |q|
    ensures q[n].BufferItem? ==> BuffersTo(q, n + 1) == BuffersTo(q, n) + [q[n].buffer]
    ensures q[n].ListItem? ==> BuffersTo(q, n + 1) == BuffersTo(q, n) + q[n].list
    ensures q[n].EventItem? ==> BuffersTo(q, n + 1) == BuffersTo(q, n)
  {
  }

  /** The distance between the first and the last timestamp of a sequence of buffers. */
  function Span(list: seq<Buffer>): nat {
    match (FirstTs(list), LastTs(list))
    case (Some(first), Some(last)) => if last >= first then last - first else first - last
    case _ => 0
  }

  lemma {:induction false} BytesSame(a: seq<Buffer>, b: seq<Buffer>, n: nat)
    requires n <= |a|
    ensures BytesUpTo(a + b, n) == BytesUpTo(a, n) && LastTsTo(a + b, n) == LastTsTo(a, n)
  {
    if n > 0 { BytesSame(a, b, n - 1); }
  }

  /** Sizes and last timestamps of a sequence in two parts, up to `n` buffers into the second one. */
  lemma {:induction false} AppendTo(a: seq<Buffer>, b: seq<Buffer>, n: nat)
    requires n <= |b|
    ensures BytesUpTo(a + b, |a| + n) == ListBytes(a) + BytesUpTo(b, n)
    ensures LastTsTo(a + b, |a| + n) == if LastTsTo(b, n).Some? then LastTsTo(b, n) else LastTs(a)
  {
    if n == 0 {
      BytesSame(a, b, |a|);
    } else {
      AppendTo(a, b, n - 1);
      assert (a + b)[|a| + n - 1] == b[n - 1];
    }
  }

  lemma {:induction false} FirstTsInSecond(a: seq<Buffer>, b: seq<Buffer>, i: nat)
    requires i <= |b|
    ensures FirstTsFrom(a + b, |a| + i) == FirstTsFrom(b, i)
    decreases |b| - i
  {
    if i < |b| {
      assert (a + b)[|a| + i] == b[i];
      FirstTsInSecond(a, b, i + 1);
    }
  }

  lemma {:induction false} FirstTsAppend(a: seq<Buffer>, b: seq<Buffer>, i: nat)
    requires i <= |a|
    ensures FirstTsFrom(a + b, i) == if FirstTsFrom(a, i).Some? then FirstTsFrom(a, i) else FirstTs(b)
    decreases |a| - i
  {
    if i == |a| {
      FirstTsInSecond(a, b, 0);
    } else {
      assert (a + b)[i] == a[i];
      FirstTsAppend(a, b, i + 1);
    }
  }

  lemma BytesAppend(a: seq<Buffer>, b: seq<Buffer>)
    ensures ListBytes(a + b) == ListBytes(a) + ListBytes(b)
  {
    AppendTo(a, b, |b|);
  }

  lemma LastTsAppend(a: seq<Buffer>, b: seq<Buffer>)
    ensures LastTs(a + b) == if LastTs(b).Some? then LastTs(b) else LastTs(a)
  {
    AppendTo(a, b, |b|);
  }

  lemma OneItem(item: Item)
    ensures Count(item) == |BuffersOf(item)| && Bytes(item) == ListBytes(BuffersOf(item))
    ensures Timestamp(item) == FirstTs(BuffersOf(item)) && LastTimestamp(item) == LastTs(BuffersOf(item))
  {
    if item.BufferItem? {
      var s := [item.buffer];
      assert BytesUpTo(s, 0) == 0 && LastTsTo(s, 0) == None && FirstTsFrom(s, 1) == None;
      assert BytesUpTo(s, 1) == BytesUpTo(s, 0) + s[0].size;
      match s[0].ts {
        case None => assert LastTsTo(s, 1) == LastTsTo(s, 0) && FirstTsFrom(s, 0) == FirstTsFrom(s, 1);
        case Some(_) => assert LastTsTo(s, 1) == s[0].ts && FirstTsFrom(s, 0) == s[0].ts;
      }
    }
  }

  /** The scans over the first `n` items are those over their buffers. */
  lemma {:induction false} ScansTo(q: seq<Item>, n: nat)
    requires n <= |q|
    ensures CountTo(q, n) == |BuffersTo(q, n)| && BytesTo(q, n) == ListBytes(BuffersTo(q, n))
  {
    if n > 0 {
      ScansTo(q, n - 1);
      OneItem(q[n - 1]);
      BytesAppend(BuffersTo(q, n - 1), BuffersOf(q[n - 1]));
    }
  }

  lemma {:induction false} LastScan(q: seq<Item>, n: nat)
    requires n <= |q|
    ensures LastTo(q, n) == LastTs(BuffersTo(q, n))
  {
    if n > 0 {
      LastScan(q, n - 1);
      OneItem(q[n - 1]);
      LastTsAppend(BuffersTo(q, n - 1), BuffersOf(q[n - 1]));
    }
  }

  lemma {:induction false} FirstScan(q: seq<Item>, n: nat)
    requires n <= |q|
    ensures FirstFrom(q, 0) == if FirstTs(BuffersTo(q, n)).Some? then FirstTs(BuffersTo(q, n)) else FirstFrom(q, n)
  {
    if n > 0 {
      FirstScan(q, n - 1);
      OneItem(q[n - 1]);
      FirstTsAppend(BuffersTo(q, n - 1), BuffersOf(q[n - 1]), 0);
    }
  }

  /** The levels of a queue are those of all its buffers, however they are grouped into lists. */
  lemma ScansOfBuffers(q: seq<Item>)
    ensures TotalCount(q) == |AllBuffers(q)| && TotalBytes(q) == ListBytes(AllBuffers(q))
    ensures TimeLevel(q) == Span(AllBuffers(q))
  {
    ScansTo(q, |q|);
    FirstScan(q, |q|);
    LastScan(q, |q|);
  }

  // ---- How the scans change ----

  /** Scans that agree item by item agree. */
  lemma {:induction false} PrefixScans(q: seq<Item>, r: seq<Item>, n: nat)
    requires n <= |q| && n <= |r| && q[..n] == r[..n]
    ensures CountTo(q, n) == CountTo(r, n) && BytesTo(q, n) == BytesTo(r, n) && LastTo(q, n) == LastTo(r, n)
  {
    if n > 0 {
      assert q[..n][n - 1] == r[..n][n - 1];
      assert q[..n - 1] == q[..n][..n - 1] && r[..n - 1] == r[..n][..n - 1];
      PrefixScans(q, r, n - 1);
    }
  }

  /** Past one extra item of `q` at position `x`, the scans of `q` and `r` stay in step. */
  lemma {:induction false} ShiftedScans(q: seq<Item>, r: seq<Item>, x: nat, n: nat)
    requires x <= n <= |r| && |q| == |r| + 1 && q[..x] == r[..x]
    requires forall i :: x <= i < |r| ==> q[i + 1] == r[i]
    ensures CountTo(q, n + 1) == CountTo(r, n) + Count(q[x])
    ensures BytesTo(q, n + 1) == BytesTo(r, n) + Bytes(q[x])
    ensures LastTimestamp(q[x]) == None ==> LastTo(q, n + 1) == LastTo(r, n)
    decreases n
  {
    if n == x {
      PrefixScans(q, r, x);
    } else {
      ShiftedScans(q, r, x, n - 1);
      assert q[n - 1 + 1] == r[n - 1];
    }
  }

  lemma {:induction false} ShiftedFirst(q: seq<Item>, r: seq<Item>, x: nat, i: nat)
    requires x <= i <= |r| && |q| == |r| + 1
    requires forall i :: x <= i < |r| ==> q[i + 1] == r[i]
    ensures FirstFrom(q, i + 1) == FirstFrom(r, i)
    decreases |r| - i
  {
    if i < |r| { ShiftedFirst(q, r, x, i + 1); }
  }

  lemma {:induction false} FirstSkips(q: seq<Item>, r: seq<Item>, x: nat, i: nat)
    requires i <= x <= |r| && |q| == |r| + 1 && q[..x] == r[..x]
    requires forall i :: x <= i < |r| ==> q[i + 1] == r[i]
    requires Timestamp(q[x]) == None
    ensures FirstFrom(q, i) == FirstFrom(r, i)
    decreases x - i
  {
    if i == x {
      ShiftedFirst(q, r, x, x);
    } else {
      assert q[..x][i] == r[..x][i];
      FirstSkips(q, r, x, i + 1);
    }
  }

  /** Taking one item out changes every level by that item's share, and time only if it has a timestamp. */
  lemma RemoveItem(q: seq<Item>, x: nat)
    requires x < |q|
    ensures var r := q[..x] + q[x + 1..];
            && TotalCount(q) == TotalCount(r) + Count(q[x])
            && TotalBytes(q) == TotalBytes(r) + Bytes(q[x])
            && (Timestamp(q[x]) == None ==> TimeLevel(q) == TimeLevel(r))
  {
    var r := q[..x] + q[x + 1..];
    assert r[..x] == q[..x];
    StampsAgree(q[x]);
    ShiftedScans(q, r, x, |r|);
    if Timestamp(q[x]) == None { FirstSkips(q, r, x, 0); }
  }

  lemma AppendItem(q: seq<Item>, item: Item)
    ensures TotalCount(q + [item]) == TotalCount(q) + Count(item)
    ensures TotalBytes(q + [item]) == TotalBytes(q) + Bytes(item)
    ensures Timestamp(item) == None ==> TimeLevel(q + [item]) == TimeLevel(q)
  {
    RemoveItem(q + [item], |q|);
    assert (q + [item])[..|q|] + (q + [item])[|q| + 1..] == q;
  }

  predicate Fits(q: seq<Item>) {
    TotalCount(q) <= U32_MAX && TotalBytes(q) <= U32_MAX
  }

  // ---- Leaking ----

  /** The position of the oldest buffer or list, or the length if there are only events. */
  function FirstData(q: seq<Item>): (x: nat)
    ensures x <= |q|
    ensures forall i :: 0 <= i < x ==> q[i].EventItem?
    ensures x < |q| ==> !q[x].EventItem?
  {
    FirstDataFrom(q, 0)
  }

  function FirstDataFrom(q: seq<Item>, i: nat): (x: nat)
    requires i <= |q|
    ensures i <= x <= |q|
    ensures forall k :: i <= k < x ==> q[k].EventItem?
    ensures x < |q| ==> !q[x].EventItem?
    decreases |q| - i
  {
    if i == |q| || !q[i].EventItem? then i else FirstDataFrom(q, i + 1)
  }

  /** The queue without its oldest buffer or list; all events stay. */
  function DropOldest(q: seq<Item>): seq<Item> {
    var x := FirstData(q);
    if x < |q| then q[..x] + q[x + 1..] else q
  }

  lemma {:induction false} EventsHaveNoLevel(q: seq<Item>, n: nat)
    requires n <= |q| && forall i :: 0 <= i < |q| ==> q[i].EventItem?
    ensures CountTo(q, n) == 0 && BytesTo(q, n) == 0 && LastTo(q, n) == None
  {
    if n > 0 { EventsHaveNoLevel(q, n - 1); }
  }

  /** A queue with any level above zero holds data that can be dropped. */
  lemma LevelMeansData(q: seq<Item>)
    requires TotalCount(q) > 0 || TotalBytes(q) > 0 || TimeLevel(q) > 0
    ensures FirstData(q) < |q|
  {
    if FirstData(q) == |q| { EventsHaveNoLevel(q, |q|); }
  }

  datatype Limits = Limits(buffers: Option<nat>, bytes: Option<nat>, time: Option<nat>) {
    /** The builder maps a limit of zero to no limit. */
    predicate Valid() {
      && (buffers.Some? ==> buffers.value > 0)
      && (bytes.Some? ==> bytes.value > 0)
      && (time.Some? ==> time.value > 0)
    }
  }

  predicate Reached(limit: Option<nat>, level: nat) {
    limit.Some? && limit.value <= level
  }

  /** Some limit is reached, judged by scanning the queue. */
  predicate Full(l: Limits, q: seq<Item>, item: Item) {
    && Count(item) > 0
    && (Reached(l.buffers, TotalCount(q)) || Reached(l.bytes, TotalBytes(q))
        || (Timestamp(item).Some? && Reached(l.time, TimeLevel(q))))
  }

  function LeakIf(full: bool, q: seq<Item>): seq<Item> {
    if full then DropOldest(q) else q
  }

  /** What the downstream policy leaves: at most one item dropped per limit, checked in sequence by scanning. */
  function AfterLeaks(l: Limits, q: seq<Item>, item: Item): seq<Item> {
    if Count(item) == 0 then q
    else LeakForTime(l, LeakForBytes(l, LeakForBuffers(l, q)), item)
  }

  function LeakForBuffers(l: Limits, q: seq<Item>): seq<Item> {
    LeakIf(Reached(l.buffers, TotalCount(q)), q)
  }

  function LeakForBytes(l: Limits, q: seq<Item>): seq<Item> {
    LeakIf(Reached(l.bytes, TotalBytes(q)), q)
  }

  function LeakForTime(l: Limits, q: seq<Item>, item: Item): seq<Item> {
    LeakIf(Timestamp(item).Some? && Reached(l.time, TimeLevel(q)), q)
  }

  /** `r` is `q` without its `k` oldest buffers or lists: all events stay, and the levels fall by what is gone. */
  ghost predicate Shed(q: seq<Item>, k: nat, r: seq<Item>) {
    && k <= |DataOf(q)| && DataOf(r) == DataOf(q)[k..]
    && EventsOf(r) == EventsOf(q)
    && TotalCount(q) == TotalCount(r) + CountTo(DataOf(q), k)
    && TotalBytes(q) == TotalBytes(r) + BytesTo(DataOf(q), k)
  }

  lemma ShedNone(q: seq<Item>)
    ensures Shed(q, 0, q)
  {
  }

  lemma ShedStep(q: seq<Item>, k: nat, p: seq<Item>, oldest: Item, r: seq<Item>)
    requires Shed(q, k, p) && DataOf(p) == [oldest] + DataOf(r) && EventsOf(r) == EventsOf(p)
    requires TotalCount(p) == TotalCount(r) + Count(oldest) && TotalBytes(p) == TotalBytes(r) + Bytes(oldest)
    ensures Shed(q, k + 1, r)
  {
    var data := DataOf(q);
    assert data[k] == data[k..][0] == oldest;
    assert data[k..][1..] == data[k + 1..] && ([oldest] + DataOf(r))[1..] == DataOf(r);
  }

  /** Dropping takes the data that was enqueued first and leaves all events. */
  lemma DropOldestEffect(q: seq<Item>) returns (oldest: Item)
    requires DataOf(q) != []
    ensures DataOf(q) == [oldest] + DataOf(DropOldest(q)) && EventsOf(DropOldest(q)) == EventsOf(q)
    ensures TotalCount(q) == TotalCount(DropOldest(q)) + Count(oldest)
    ensures TotalBytes(q) == TotalBytes(DropOldest(q)) + Bytes(oldest)
  {
    DataIsThere(q);
    var x := FirstData(q);
    oldest := q[x];
    RemoveItem(q, x);
    DropOldestSplits(q);
  }

  lemma LevelsMeanData(q: seq<Item>)
    ensures TotalCount(q) > 0 || TotalBytes(q) > 0 || TimeLevel(q) > 0 ==> DataOf(q) != []
  {
    if TotalCount(q) > 0 || TotalBytes(q) > 0 || TimeLevel(q) > 0 {
      LevelMeansData(q);
      DataIsThere(q);
    }
  }

  /** One limit's turn, after `k` items were dropped: if the limit is reached it drops one more. */
  lemma LeakOnce(q: seq<Item>, k: nat, p: seq<Item>, full: bool)
    requires Shed(q, k, p) && (full ==> DataOf(p) != [])
    ensures Shed(q, k + (if full then 1 else 0), LeakIf(full, p))
  {
    if full {
      var oldest := DropOldestEffect(p);
      ShedStep(q, k, p, oldest, DropOldest(p));
    }
  }

  lemma BuffersTurn(l: Limits, q: seq<Item>, k: nat, p: seq<Item>) returns (d: nat)
    requires l.Valid() && Shed(q, k, p)
    ensures d == if l.buffers.Some? && l.buffers.value <= TotalCount(p) then 1 else 0
    ensures Shed(q, k + d, LeakForBuffers(l, p))
  {
    d := if Reached(l.buffers, TotalCount(p)) then 1 else 0;
    LevelsMeanData(p);
    LeakOnce(q, k, p, Reached(l.buffers, TotalCount(p)));
  }

  lemma BytesTurn(l: Limits, q: seq<Item>, k: nat, p: seq<Item>) returns (d: nat)
    requires l.Valid() && Shed(q, k, p)
    ensures d == if l.bytes.Some? && l.bytes.value <= TotalBytes(p) then 1 else 0
    ensures Shed(q, k + d, LeakForBytes(l, p))
  {
    d := if Reached(l.bytes, TotalBytes(p)) then 1 else 0;
    LevelsMeanData(p);
    LeakOnce(q, k, p, Reached(l.bytes, TotalBytes(p)));
  }

  lemma TimeTurn(l: Limits, q: seq<Item>, k: nat, p: seq<Item>, item: Item) returns (d: nat)
    requires l.Valid() && Shed(q, k, p)
    ensures d == if l.time.Some? && Timestamp(item).Some? && l.time.value <= TimeLevel(p) then 1 else 0
    ensures Shed(q, k + d, LeakForTime(l, p, item))
  {
    d := if Timestamp(item).Some? && Reached(l.time, TimeLevel(p)) then 1 else 0;
    LevelsMeanData(p);
    LeakOnce(q, k, p, Timestamp(item).Some? && Reached(l.time, TimeLevel(p)));
  }

  /**
   The leaks drop the oldest data, one item for each limit that is reached when its turn comes: `q1` and `q2`
   are the queue after the first and the second turn.
   */
  lemma LeaksInSequence(l: Limits, q: seq<Item>, item: Item)
    returns (b: nat, q1: seq<Item>, y: nat, q2: seq<Item>, t: nat)
    requires l.Valid() && Count(item) > 0
    ensures b == (if l.buffers.Some? && l.buffers.value <= TotalCount(q) then 1 else 0) && Shed(q, b, q1)
    ensures y == (if l.bytes.Some? && l.bytes.value <= TotalBytes(q1) then 1 else 0) && Shed(q, b + y, q2)
    ensures t == if l.time.Some? && Timestamp(item).Some? && l.time.value <= TimeLevel(q2) then 1 else 0
    ensures Shed(q, b + y + t, AfterLeaks(l, q, item))
  {
    ShedNone(q);
    b := BuffersTurn(l, q, 0, q);
    q1 := LeakForBuffers(l, q);
    y := BytesTurn(l, q, b, q1);
    q2 := LeakForBytes(l, q1);
    t := TimeTurn(l, q, b + y, q2, item);
  }

  lemma DropOldestSplits(q: seq<Item>)
    requires FirstData(q) < |q|
    ensures DataOf(q) == [q[FirstData(q)]] + DataOf(DropOldest(q)) && EventsOf(DropOldest(q)) == EventsOf(q)
  {
    var x := FirstData(q);
    var a, b := q[..x], q[x + 1..];
    assert q == a + [q[x]] + b;
    NoData(a, |a|);
    TakeOut(a, q[x], b);
  }

  lemma TakeOut(a: seq<Item>, item: Item, b: seq<Item>)
    requires DataOf(a) == [] && !item.EventItem?
    ensures DataOf(a + [item] + b) == [item] + DataOf(a + b) && EventsOf(a + [item] + b) == EventsOf(a + b)
  {
    DataSnoc(a, item);
    EventsSnoc(a, item);
    DataAppend(a + [item], b);
    DataAppend(a, b);
    EventsAppend(a + [item], b);
    EventsAppend(a, b);
  }

  lemma DataSnoc(a: seq<Item>, x: Item)
    ensures DataOf(a + [x]) == DataOf(a) + (if x.EventItem? then [] else [x])
  {
    DataSame(a + [x], a, |a|);
  }

  lemma {:induction false} DataAppend(a: seq<Item>, b: seq<Item>)
    ensures DataOf(a + b) == DataOf(a) + DataOf(b)
  {
    if b == [] {
      assert a + b == a;
    } else {
      var n := |b| - 1;
      DataAppend(a, b[..n]);
      assert a + b == (a + b[..n]) + [b[n]] && b == b[..n] + [b[n]];
      DataSnoc(a + b[..n], b[n]);
      DataSnoc(b[..n], b[n]);
      Assoc(DataOf(a), DataOf(b[..n]), if b[n].EventItem? then [] else [b[n]]);
    }
  }

  lemma {:induction false} EventsAppend(a: seq<Item>, b: seq<Item>)
    ensures EventsOf(a + b) == EventsOf(a) + EventsOf(b)
  {
    if b == [] {
      assert a + b == a;
    } else {
      var n := |b| - 1;
      EventsAppend(a, b[..n]);
      assert a + b == (a + b[..n]) + [b[n]] && b == b[..n] + [b[n]];
      EventsSnoc(a + b[..n], b[n]);
      EventsSnoc(b[..n], b[n]);
      Assoc(EventsOf(a), EventsOf(b[..n]), if b[n].EventItem? then [b[n]] else []);
    }
  }

  /** The data among the first `n` items of `s`, in order. */
  function DataTo(s: seq<Item>, n: nat): seq<Item>
    requires n <= |s|
  {
    if n == 0 then [] else DataTo(s, n - 1) + (if s[n - 1].EventItem? then [] else [s[n - 1]])
  }

  function DataOf(s: seq<Item>): seq<Item> {
    DataTo(s, |s|)
  }

  lemma {:induction false} NoData(q: seq<Item>, n: nat)
    requires n <= |q| && forall i :: 0 <= i < n ==> q[i].EventItem?
    ensures DataTo(q, n) == []
  {
    if n > 0 { NoData(q, n - 1); }
  }

  lemma {:induction false} DataFrom(q: seq<Item>, n: nat)
    requires FirstData(q) < n <= |q|
    ensures DataTo(q, n) != [] && DataTo(q, n)[0] == q[FirstData(q)]
  {
    if n - 1 == FirstData(q) { NoData(q, n - 1); } else { DataFrom(q, n - 1); }
  }

  lemma DataIsThere(q: seq<Item>)
    ensures FirstData(q) < |q| <==> DataOf(q) != []
  {
    if FirstData(q) < |q| { DataFrom(q, |q|); } else { NoData(q, |q|); }
  }

  lemma {:induction false} DataSame(s: seq<Item>, t: seq<Item>, n: nat)
    requires n <= |s| && n <= |t| && forall i :: 0 <= i < n ==> s[i] == t[i]
    ensures DataTo(s, n) == DataTo(t, n)
  {
    if n > 0 { DataSame(s, t, n - 1); }
  }

  /** One drop need not make room: a limit of two buffers, a buffer and a list of two, and one more buffer. */
  lemma OneDropNotEnough(b: Buffer)
    ensures var l, q := Limits(Some(2), None, None), [BufferItem(b), ListItem([b, b])];
            && AfterLeaks(l, q, BufferItem(b)) == [ListItem([b, b])]
            && TotalCount(AfterLeaks(l, q, BufferItem(b))) == 2
  {
    var q := [BufferItem(b), ListItem([b, b])];
    assert CountTo(q, 1) == 1 && CountTo(q, 2) == 3;
    assert FirstData(q) == 0 && q[..0] + q[1..] == [ListItem([b, b])];
    assert CountTo([ListItem([b, b])], 1) == 2;
  }

  lemma {:induction false} SinglesCount(s: seq<Item>, n: nat)
    requires n <= |s| && forall i :: 0 <= i < |s| ==> Count(s[i]) == 1
    ensures CountTo(s, n) == n
  {
    if n > 0 { SinglesCount(s, n - 1); }
  }

  lemma {:induction false} DataAreItems(q: seq<Item>, n: nat)
    requires n <= |q|
    ensures forall x :: x in DataTo(q, n) ==> x in q && !x.EventItem?
  {
    if n > 0 { DataAreItems(q, n - 1); }
  }

  // ---- History ----

  /** The first `n` items of `s` without those whose index is in `dropped`, in order. */
  function KeptTo(s: seq<Item>, dropped: set<nat>, n: nat): seq<Item>
    requires n <= |s|
  {
    if n == 0 then [] else KeptTo(s, dropped, n - 1) + (if n - 1 in dropped then [] else [s[n - 1]])
  }

  function Kept(s: seq<Item>, dropped: set<nat>): seq<Item> {
    KeptTo(s, dropped, |s|)
  }

  /** The events among the first `n` items of `s`, in order. */
  function EventsTo(s: seq<Item>, n: nat): seq<Item>
    requires n <= |s|
  {
    if n == 0 then [] else EventsTo(s, n - 1) + (if s[n - 1].EventItem? then [s[n - 1]] else [])
  }

  function EventsOf(s: seq<Item>): seq<Item> {
    EventsTo(s, |s|)
  }

  lemma {:induction false} KeptSame(s: seq<Item>, t: seq<Item>, d: set<nat>, e: set<nat>, n: nat)
    requires n <= |s| && n <= |t|
    requires forall i :: 0 <= i < n ==> s[i] == t[i] && (i in d <==> i in e)
    ensures KeptTo(s, d, n) == KeptTo(t, e, n)
  {
    if n > 0 { KeptSame(s, t, d, e, n - 1); }
  }

  lemma KeptSnoc(s: seq<Item>, dropped: set<nat>, x: Item)
    requires |s| !in dropped
    ensures Kept(s + [x], dropped) == Kept(s, dropped) + [x]
  {
    KeptSame(s + [x], s, dropped, dropped, |s|);
  }

  /** Taking the `p`-th kept item out is dropping one more index. */
  lemma {:induction false} KeptRemove(s: seq<Item>, dropped: set<nat>, n: nat, p: nat) returns (i: nat)
    requires n <= |s| && p < |KeptTo(s, dropped, n)|
    ensures i < n && i !in dropped && s[i] == KeptTo(s, dropped, n)[p]
    ensures KeptTo(s, dropped + {i}, n) == KeptTo(s, dropped, n)[..p] + KeptTo(s, dropped, n)[p + 1..]
  {
    var before := KeptTo(s, dropped, n - 1);
    if p < |before| {
      i := KeptRemove(s, dropped, n - 1, p);
      RemoveEarly(before, if n - 1 in dropped then [] else [s[n - 1]], p);
    } else {
      i := n - 1;
      KeptSame(s, s, dropped, dropped + {i}, n - 1);
      RemoveLast(before, s[i]);
    }
  }

  lemma RemoveEarly<T>(a: seq<T>, b: seq<T>, p: nat)
    requires p < |a|
    ensures (a + b)[..p] + (a + b)[p + 1..] == a[..p] + a[p + 1..] + b
  {
  }

  lemma RemoveLast<T>(a: seq<T>, x: T)
    ensures (a + [x])[..|a|] + (a + [x])[|a| + 1..] == a
  {
  }

  lemma EventsSnoc(a: seq<Item>, x: Item)
    ensures EventsOf(a + [x]) == EventsOf(a) + (if x.EventItem? then [x] else [])
  {
    EventsSame(a + [x], a, |a|);
  }

  lemma {:induction false} EventsSame(s: seq<Item>, t: seq<Item>, n: nat)
    requires n <= |s| && n <= |t| && forall i :: 0 <= i < n ==> s[i] == t[i]
    ensures EventsTo(s, n) == EventsTo(t, n)
  {
    if n > 0 { EventsSame(s, t, n - 1); }
  }

  /** If only data is dropped, the events that are kept are all the events, in order. */
  lemma {:induction false} EventsSurvive(s: seq<Item>, dropped: set<nat>, n: nat)
    requires n <= |s| && forall i :: i in dropped && i < |s| ==> !s[i].EventItem?
    ensures EventsOf(KeptTo(s, dropped, n)) == EventsTo(s, n)
  {
    if n > 0 {
      EventsSurvive(s, dropped, n - 1);
      if n - 1 in dropped {
        assert KeptTo(s, dropped, n) == KeptTo(s, dropped, n - 1);
      } else {
        EventsSnoc(KeptTo(s, dropped, n - 1), s[n - 1]);
      }
    }
  }

  lemma {:induction false} KeptAll(s: seq<Item>, n: nat)
    requires n <= |s|
    ensures KeptTo(s, {}, n) == s[..n]
  {
    if n > 0 { KeptAll(s, n - 1); }
  }

  // ---- Invariants, on values ----

  /** The cached levels are what a scan gives. */
  ghost predicate LevelsOk(q: seq<Item>, buffers: nat, bytes: nat, time: nat) {
    buffers == TotalCount(q) && bytes == TotalBytes(q) && time == TimeLevel(q) && Fits(q)
  }

  /** Delivered and queued items are the enqueued ones in order, except for dropped data. */
  ghost predicate HistoryOk(leaky: LeakyMode, enqueued: seq<Item>, delivered: seq<Item>, q: seq<Item>,
                            dropped: set<nat>)
  {
    && delivered + q == Kept(enqueued, dropped)
    && (forall i :: i in dropped ==> i < |enqueued| && !enqueued[i].EventItem?)
    && (leaky != Downstream ==> dropped == {})
  }

  /** The status tells how the first data enqueued lies in the history. */
  ghost predicate StatusOk(enqueued: seq<Item>, status: Status) {
    match status
    case PendingBuffers => FirstData(enqueued) == |enqueued|
    case FirstBuffer => FirstData(enqueued) == |enqueued| - 1
    case GotBuffers => FirstData(enqueued) < |enqueued| - 1
  }

  lemma StatusAppend(enqueued: seq<Item>, status: Status, item: Item)
    requires StatusOk(enqueued, status)
    ensures StatusOk(enqueued + [item], NextStatus(status, item))
  {
    var x, all := FirstData(enqueued), enqueued + [item];
    var y := FirstData(all);
    assert y < |enqueued| ==> all[y] == enqueued[y];
    assert x < y ==> all[x].EventItem?;
    assert x < |enqueued| ==> all[x] == enqueued[x];
    assert all[|enqueued|] == item;
  }

  /** A consumer parked on a live handle is known to the queue. */
  ghost predicate HandlesOk(pending: Option<nat>, parked: Option<nat>, aborted: set<nat>, next: nat) {
    && (forall h :: h in aborted ==> h < next)
    && (pending.Some? ==> pending.value < next && pending.value !in aborted)
    && (parked.Some? ==> parked.value < next)
    && (parked.Some? && parked.value !in aborted ==> pending == parked)
  }

  lemma LevelsDrop(q: seq<Item>, x: nat, buffers: nat, bytes: nat, time: nat)
    requires LevelsOk(q, buffers, bytes, time) && x < |q|
    ensures var r := q[..x] + q[x + 1..];
            && Count(q[x]) <= buffers && Bytes(q[x]) <= bytes
            && LevelsOk(r, buffers - Count(q[x]), bytes - Bytes(q[x]), TimeLevel(r))
            && (Timestamp(q[x]) == None ==> TimeLevel(r) == time)
  {
    RemoveItem(q, x);
  }

  /** Taking the front item; one without buffers leaves all levels alone. */
  lemma LevelsPop(q: seq<Item>, buffers: nat, bytes: nat, time: nat)
    requires LevelsOk(q, buffers, bytes, time) && q != []
    ensures Count(q[0]) <= buffers && Bytes(q[0]) <= bytes
    ensures LevelsOk(q[1..], buffers - Count(q[0]), bytes - Bytes(q[0]), TimeLevel(q[1..]))
    ensures Timestamp(q[0]) == None ==> TimeLevel(q[1..]) == time
    ensures Count(q[0]) == 0 ==> Bytes(q[0]) == 0 && Timestamp(q[0]) == None
  {
    LevelsDrop(q, 0, buffers, bytes, time);
    assert q[..0] + q[1..] == q[1..];
  }

  lemma LevelsAppend(q: seq<Item>, item: Item, buffers: nat, bytes: nat, time: nat)
    requires LevelsOk(q, buffers, bytes, time) && Fits(q + [item])
    ensures var r := q + [item];
            && LevelsOk(r, buffers + Count(item), bytes + Bytes(item), TimeLevel(r))
            && (Timestamp(item) == None ==> TimeLevel(r) == time)
  {
    AppendItem(q, item);
  }

  lemma HistoryDrop(leaky: LeakyMode, enqueued: seq<Item>, delivered: seq<Item>, q: seq<Item>, dropped: set<nat>,
                    x: nat) returns (k: nat)
    requires HistoryOk(leaky, enqueued, delivered, q, dropped) && leaky == Downstream
    requires x < |q| && !q[x].EventItem?
    ensures HistoryOk(leaky, enqueued, delivered, q[..x] + q[x + 1..], dropped + {k})
  {
    var all, p := delivered + q, |delivered| + x;
    k := KeptRemove(enqueued, dropped, |enqueued|, p);
    assert all[..p] == delivered + q[..x];
    assert all[p + 1..] == q[x + 1..];
    assert delivered + (q[..x] + q[x + 1..]) == all[..p] + all[p + 1..];
  }

  lemma HistoryAppend(leaky: LeakyMode, enqueued: seq<Item>, delivered: seq<Item>, q: seq<Item>, dropped: set<nat>,
                      item: Item)
    requires HistoryOk(leaky, enqueued, delivered, q, dropped)
    ensures HistoryOk(leaky, enqueued + [item], delivered, q + [item], dropped)
  {
    KeptSnoc(enqueued, dropped, item);
    assert delivered + (q + [item]) == delivered + q + [item];
  }

  lemma HistoryPop(leaky: LeakyMode, enqueued: seq<Item>, delivered: seq<Item>, q: seq<Item>, dropped: set<nat>)
    requires HistoryOk(leaky, enqueued, delivered, q, dropped) && q != []
    ensures HistoryOk(leaky, enqueued, delivered + [q[0]], q[1..], dropped)
  {
    assert delivered + [q[0]] + q[1..] == delivered + q;
  }

  lemma EmptyHistory(leaky: LeakyMode)
    ensures LevelsOk([], 0, 0, 0) && HistoryOk(leaky, [], [], [], {}) && StatusOk([], PendingBuffers)
  {
  }

  /** The status reported after an item is enqueued. */
  function NextStatus(status: Status, item: Item): Status {
    match status
    case PendingBuffers => if item.EventItem? then PendingBuffers else FirstBuffer
    case _ => GotBuffers
  }
}
