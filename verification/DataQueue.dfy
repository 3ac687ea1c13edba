/**
 The thread-sharing data queue: a queue of buffers, buffer lists and events with cached levels,
 three limits, three leak policies, and a consumer that parks on an abortable future.
 Each method is one critical section. There is a single consumer.
 */
module DataQueue {
  import opened Prelude
  import opened QueueLevels

  class Queue {
    const leakyMode: LeakyMode
    const limits: Limits

    var started: bool
    var queue: seq<Item>
    var status: Status
    var curLevelBuffers: nat
    var curLevelBytes: nat
    var curLevelTime: nat

    var pendingHandle: Option<nat>
    var nextHandle: nat
    var aborted: set<nat>
    var parked: Option<nat>  // the handle whose future the consumer awaits

    // Since the last clear
    ghost var enqueued: seq<Item>
    ghost var delivered: seq<Item>
    ghost var dropped: set<nat>

    /** Everything but the consumer. */
    ghost predicate ContentValid()
      reads this
    {
      && limits.Valid()
      && LevelsOk(queue, curLevelBuffers, curLevelBytes, curLevelTime)
      && HistoryOk(leakyMode, enqueued, delivered, queue, dropped)
    }

    /** A consumer parked on a handle that has not been aborted has nothing to do. */
    ghost predicate WakeValid()
      reads this
    {
      && HandlesOk(pendingHandle, parked, aborted, nextHandle)
      && (parked.Some? && parked.value !in aborted ==> started && queue == [])
    }

    ghost predicate Valid()
      reads this
    {
      ContentValid() && WakeValid() && StatusOk(enqueued, status)
    }

    constructor (leakyMode: LeakyMode, maxBuffers: nat, maxBytes: nat, maxTime: nat)
      ensures Valid() && !started && queue == [] && enqueued == [] && this.leakyMode == leakyMode
      ensures forall x :: Reached(limits.buffers, x) <==> 0 < maxBuffers <= x
      ensures forall x :: Reached(limits.bytes, x) <==> 0 < maxBytes <= x
      ensures forall x :: Reached(limits.time, x) <==> 0 < maxTime <= x
    {
      this.leakyMode := leakyMode;
      limits := Limits(if maxBuffers > 0 then Some(maxBuffers) else None,
                       if maxBytes > 0 then Some(maxBytes) else None,
                       if maxTime > 0 then Some(maxTime) else None);
      started, queue, status := false, [], PendingBuffers;
      curLevelBuffers, curLevelBytes, curLevelTime := 0, 0, 0;
      pendingHandle, nextHandle, aborted, parked := None, 0, {}, None;
      enqueued, delivered, dropped := [], [], {};
    }

    method Wake()
      modifies this`pendingHandle, this`aborted
      ensures pendingHandle == None
      ensures aborted == old(aborted) + (if old(pendingHandle).Some? then {old(pendingHandle).value} else {})
    {
      if pendingHandle.Some? {
        aborted := aborted + {pendingHandle.value};
        pendingHandle := None;
      }
    }

    /** The distance between the first and the last timestamp among all queued buffers. */
    method UpdateCurTimeLevel()
      modifies this`curLevelTime
      ensures curLevelTime == TimeLevel(queue) == Span(AllBuffers(queue))
    {
      ScansOfBuffers(queue);
      var first := FindFirst();
      var last := FindLast();
      if first.Some? && last.Some? {
        curLevelTime := if last.value >= first.value then last.value - first.value else first.value - last.value;
      } else {
        curLevelTime := 0;
      }
    }

    method FindFirst() returns (first: Option<nat>)
      ensures first == FirstFrom(queue, 0)
    {
      for i := 0 to |queue|
        invariant FirstFrom(queue, 0) == FirstFrom(queue, i)
      {
        if Timestamp(queue[i]).Some? {
          return Timestamp(queue[i]);
        }
      }
      return None;
    }

    method FindLast() returns (last: Option<nat>)
      ensures last == LastTo(queue, |queue|)
    {
      for i := |queue| downto 0
        invariant LastTo(queue, |queue|) == LastTo(queue, i)
      {
        if LastTimestamp(queue[i]).Some? {
          return LastTimestamp(queue[i]);
        }
      }
      return None;
    }

    /** Takes out the oldest buffer or list and puts the events before it back. */
    method TakeOldest() returns (oldest: Item)
      requires FirstData(queue) < |queue|
      modifies this`queue
      ensures queue == DropOldest(old(queue)) && oldest == old(queue)[FirstData(old(queue))]
    {
      ghost var x := FirstData(queue);
      var toRestore: seq<Item> := [];
      while queue[0].EventItem?
        invariant |toRestore| <= x && toRestore == old(queue)[..|toRestore|] && queue == old(queue)[|toRestore|..]
        decreases |queue|
      {
        toRestore := toRestore + [queue[0]];
        queue := queue[1..];
      }
      assert |toRestore| == x;
      oldest := queue[0];
      queue := queue[1..];
      Restore(toRestore);
    }

    /** Pushes items back to the front, last one first. */
    method Restore(items: seq<Item>)
      modifies this`queue
      ensures queue == items + old(queue)
    {
      var i := |items|;
      while i > 0
        invariant 0 <= i <= |items| && queue == items[i..] + old(queue)
      {
        i := i - 1;
        queue := [items[i]] + queue;
      }
    }

    /** Leaking: drops the oldest buffer or list. A level above zero guarantees that there is one. */
    method DequeueOldest()
      requires ContentValid() && leakyMode == Downstream
      requires curLevelBuffers > 0 || curLevelBytes > 0 || curLevelTime > 0
      modifies this`queue, this`curLevelBuffers, this`curLevelBytes, this`curLevelTime, this`dropped
      ensures ContentValid() && queue == DropOldest(old(queue)) && old(dropped) <= dropped
    {
      LevelMeansData(queue);
      ghost var x := FirstData(queue);
      LevelsDrop(queue, x, curLevelBuffers, curLevelBytes, curLevelTime);
      ghost var k := HistoryDrop(leakyMode, enqueued, delivered, queue, dropped, x);
      var oldest := TakeOldest();
      curLevelBuffers := Max(0, curLevelBuffers - Count(oldest));
      curLevelBytes := Max(0, curLevelBytes - Bytes(oldest));
      if Timestamp(oldest).Some? {
        UpdateCurTimeLevel();
      }
      dropped := dropped + {k};
    }

    method Start()
      requires Valid()
      modifies this`started, this`pendingHandle, this`aborted
      ensures Valid() && started
      ensures parked.Some? && !old(started) ==> parked.value in aborted
    {
      if started {
        return;
      }
      started := true;
      Wake();
    }

    method Stop()
      requires Valid()
      modifies this`started, this`pendingHandle, this`aborted
      ensures Valid() && !started
      ensures parked.Some? ==> parked.value in aborted
    {
      if !started {
        return;
      }
      started := false;
      Wake();
    }

    method Clear()
      requires Valid()
      modifies this`queue, this`status, this`curLevelBuffers, this`curLevelBytes, this`curLevelTime,
               this`enqueued, this`delivered, this`dropped
      ensures Valid() && queue == [] && status == PendingBuffers
      ensures enqueued == [] && delivered == [] && dropped == {}
    {
      Drain();
      status := PendingBuffers;
    }

    /** Forgets all items and starts a new history. */
    method Drain()
      requires limits.Valid()
      modifies this`queue, this`curLevelBuffers, this`curLevelBytes, this`curLevelTime,
               this`enqueued, this`delivered, this`dropped
      ensures ContentValid() && queue == [] && enqueued == [] && delivered == [] && dropped == {}
    {
      EmptyHistory(leakyMode);
      queue := [];
      curLevelBuffers, curLevelBytes, curLevelTime := 0, 0, 0;
      enqueued, delivered, dropped := [], [], {};
    }

    /** One limit: what to do with an item when the cached level has reached it. */
    method ApplyPolicy(full: bool, item: Item) returns (verdict: Option<PushResult>)
      requires ContentValid()
      requires full ==> curLevelBuffers > 0 || curLevelBytes > 0 || curLevelTime > 0
      modifies this`queue, this`curLevelBuffers, this`curLevelBytes, this`curLevelTime, this`dropped
      ensures ContentValid() && old(dropped) <= dropped
      ensures leakyMode == Downstream ==> verdict == None && queue == LeakIf(full, old(queue))
      ensures leakyMode != Downstream ==> unchanged(this) && (verdict.Some? <==> full)
      ensures full && leakyMode == NotLeaky ==> verdict == Some(Rejected(item))
      ensures full && leakyMode == Upstream ==> verdict == Some(Accepted(status))
    {
      if full {
        match leakyMode
        case NotLeaky => return Some(Rejected(item));
        case Upstream => return Some(Accepted(status));
        case Downstream => DequeueOldest();
      }
      return None;
    }

    /** Applies the limits in sequence by the cached levels: the verdict is the one scans of the queue give. */
    method MakeRoom(item: Item) returns (verdict: Option<PushResult>)
      requires ContentValid() && Count(item) > 0
      modifies this`queue, this`curLevelBuffers, this`curLevelBytes, this`curLevelTime, this`dropped
      ensures ContentValid() && old(dropped) <= dropped
      ensures leakyMode == Downstream ==> verdict == None && queue == AfterLeaks(limits, old(queue), item)
      ensures leakyMode != Downstream ==> unchanged(this) && (verdict.Some? <==> Full(limits, queue, item))
      ensures verdict.Some? ==> verdict.value == if leakyMode == NotLeaky then Rejected(item) else Accepted(status)
    {
      verdict := ApplyPolicy(Reached(limits.buffers, curLevelBuffers), item);
      if verdict.Some? {
        return;
      }
      verdict := ApplyPolicy(Reached(limits.bytes, curLevelBytes), item);
      if verdict.Some? {
        return;
      }
      if Timestamp(item).Some? {
        verdict := ApplyPolicy(Reached(limits.time, curLevelTime), item);
      }
    }

    ghost predicate Accepts(item: Item)
      reads this
    {
      started && (leakyMode == Downstream || !Full(limits, queue, item))
    }

    /** The queue after making room for an item that is accepted. */
    ghost function Room(item: Item): seq<Item>
      reads this
    {
      if leakyMode == Downstream then AfterLeaks(limits, queue, item) else queue
    }

    method Push(item: Item) returns (r: PushResult)
      requires Valid()
      // The 32-bit level counters do not overflow
      requires Accepts(item) ==> Fits(Room(item) + [item])
      modifies this
      ensures Valid()
      // An item that is refused, or dropped because the queue leaks upstream, changes nothing
      ensures !old(Accepts(item)) ==> unchanged(this)
      ensures !old(Accepts(item)) && (!started || leakyMode == NotLeaky) ==> r == Rejected(item)
      ensures !old(Accepts(item)) && started && leakyMode == Upstream ==> r == Accepted(old(status))
      // Accepted items are appended, and a parked consumer is woken
      ensures old(Accepts(item)) ==>
                && r == Accepted(status) && status == NextStatus(old(status), item)
                && queue == old(Room(item)) + [item] && enqueued == old(enqueued) + [item]
                && delivered == old(delivered) && old(dropped) <= dropped
                && parked == old(parked) && (parked.Some? ==> parked.value in aborted)
      ensures started == old(started)
    {
      if !started {
        return Rejected(item);
      }
      var verdict := Admit(item);
      if verdict.Some? {
        return verdict.value;
      }
      Append(item);
      r := Accepted(status);
    }

    /** Makes room for an item that holds buffers; other items always pass. */
    method Admit(item: Item) returns (verdict: Option<PushResult>)
      requires ContentValid() && started
      modifies this`queue, this`curLevelBuffers, this`curLevelBytes, this`curLevelTime, this`dropped
      ensures ContentValid() && old(dropped) <= dropped
      ensures verdict.Some? <==> !old(Accepts(item))
      ensures verdict == None ==> queue == old(Room(item))
      ensures verdict.Some? ==>
                unchanged(this) && verdict.value == if leakyMode == NotLeaky then Rejected(item) else Accepted(status)
    {
      verdict := None;
      if Count(item) > 0 {
        verdict := MakeRoom(item);
      }
    }

    /** Enqueues an item for which there is room. */
    method Append(item: Item)
      requires ContentValid() && HandlesOk(pendingHandle, parked, aborted, nextHandle) && Fits(queue + [item])
      requires StatusOk(enqueued, status)
      modifies this`queue, this`status, this`curLevelBuffers, this`curLevelBytes, this`curLevelTime,
               this`pendingHandle, this`aborted, this`enqueued
      ensures Valid() && queue == old(queue) + [item] && enqueued == old(enqueued) + [item]
      ensures parked.Some? ==> parked.value in aborted
      ensures status == NextStatus(old(status), item)
    {
      StatusAppend(enqueued, status, item);
      match status {
        case GotBuffers =>
        case FirstBuffer => status := GotBuffers;
        case PendingBuffers =>
          if !item.EventItem? {
            status := FirstBuffer;
          }
      }
      PushBack(item);
      Wake();
    }

    method PushBack(item: Item)
      requires ContentValid() && Fits(queue + [item])
      modifies this`queue, this`curLevelBuffers, this`curLevelBytes, this`curLevelTime, this`enqueued
      ensures ContentValid() && queue == old(queue) + [item] && enqueued == old(enqueued) + [item]
    {
      LevelsAppend(queue, item, curLevelBuffers, curLevelBytes, curLevelTime);
      HistoryAppend(leakyMode, enqueued, delivered, queue, dropped, item);
      queue := queue + [item];
      enqueued := enqueued + [item];
      curLevelBuffers := curLevelBuffers + Count(item);
      curLevelBytes := curLevelBytes + Bytes(item);
      if Timestamp(item).Some? {
        UpdateCurTimeLevel();
      }
    }

    /** Takes the front item; the level subtractions cannot underflow. */
    method Pop() returns (item: Item)
      requires ContentValid() && queue != []
      modifies this`queue, this`curLevelBuffers, this`curLevelBytes, this`curLevelTime, this`delivered
      ensures ContentValid() && item == old(queue)[0] && queue == old(queue)[1..]
      ensures delivered == old(delivered) + [item]
    {
      LevelsPop(queue, curLevelBuffers, curLevelBytes, curLevelTime);
      HistoryPop(leakyMode, enqueued, delivered, queue, dropped);
      item := queue[0];
      queue := queue[1..];
      delivered := delivered + [item];
      if Count(item) > 0 {
        curLevelBuffers := curLevelBuffers - Count(item);
        curLevelBytes := curLevelBytes - Bytes(item);
        if Timestamp(item).Some? {
          UpdateCurTimeLevel();
        }
      }
    }

    /** One turn of the consumer's loop: it runs when it is not parked or its handle has been aborted. */
    method Next() returns (r: Poll)
      requires Valid() && (parked.Some? ==> parked.value in aborted)
      modifies this`queue, this`curLevelBuffers, this`curLevelBytes, this`curLevelTime,
               this`pendingHandle, this`nextHandle, this`parked, this`delivered
      ensures Valid()
      ensures !started ==> r == Ready(None) && queue == old(queue) && delivered == old(delivered) && parked == None
      ensures started && old(queue) != [] ==>
                && r == Ready(Some(old(queue)[0])) && queue == old(queue)[1..]
                && delivered == old(delivered) + [old(queue)[0]] && parked == None
      ensures started && old(queue) == [] ==>
                && r == Pending && queue == [] && delivered == old(delivered)
                && parked == pendingHandle == Some(old(nextHandle))
    {
      parked := None;
      if !started {
        return Ready(None);
      }
      if queue != [] {
        var item := Pop();
        return Ready(Some(item));
      }
      pendingHandle := Some(nextHandle);
      parked := pendingHandle;
      nextHandle := nextHandle + 1;
      return Pending;
    }

    /** The cached levels are the number, the size and the time span of all queued buffers. */
    lemma LevelsOfBuffers()
      requires Valid()
      ensures curLevelBuffers == |AllBuffers(queue)| && curLevelBytes == ListBytes(AllBuffers(queue))
      ensures curLevelBuffers <= 0xFFFF_FFFF && curLevelBytes <= 0xFFFF_FFFF
      ensures var first, last := FirstTs(AllBuffers(queue)), LastTs(AllBuffers(queue));
              && (first == None <==> last == None)
              && (first == None ==> curLevelTime == 0)
              && (first.Some? ==> curLevelTime == Max(first.value - last.value, last.value - first.value))
    {
      ScansOfBuffers(queue);
      FirstTsFinds(AllBuffers(queue));
      LastTsFinds(AllBuffers(queue));
    }

    /**
     What the status says: no data has been enqueued since the last clear, the item enqueued last was
     the first data, or data was enqueued before it.
     */
    lemma StatusMeans()
      requires Valid()
      ensures status == PendingBuffers <==> forall i :: 0 <= i < |enqueued| ==> enqueued[i].EventItem?
      ensures status == FirstBuffer <==>
                && enqueued != [] && !enqueued[|enqueued| - 1].EventItem?
                && forall i :: 0 <= i < |enqueued| - 1 ==> enqueued[i].EventItem?
    {
    }

    /** Without downstream leaking, a started queue takes an item exactly if every level is below its limit. */
    lemma AcceptsIff(item: Item)
      requires Valid() && leakyMode != Downstream
      ensures Accepts(item) <==>
                && started
                && (Count(item) > 0 ==>
                      && (limits.buffers.Some? ==> curLevelBuffers < limits.buffers.value)
                      && (limits.bytes.Some? ==> curLevelBytes < limits.bytes.value)
                      && (limits.time.Some? && Timestamp(item).Some? ==> curLevelTime < limits.time.value))
    {
    }

    /**
     With downstream leaking it takes every item once started, and first drops the oldest data, one item
     for each limit that is reached when its turn comes; `q1` and `q2` are the queue after the first two turns.
     */
    lemma RoomIs(item: Item) returns (b: nat, q1: seq<Item>, y: nat, q2: seq<Item>, t: nat)
      requires Valid() && leakyMode == Downstream && Count(item) > 0
      ensures Accepts(item) <==> started
      ensures b == if limits.buffers.Some? && limits.buffers.value <= curLevelBuffers then 1 else 0
      ensures y == if limits.bytes.Some? && limits.bytes.value <= TotalBytes(q1) then 1 else 0
      ensures t == if limits.time.Some? && Timestamp(item).Some? && limits.time.value <= TimeLevel(q2) then 1 else 0
      ensures Shed(queue, b, q1) && Shed(queue, b + y, q2) && Shed(queue, b + y + t, Room(item))
      // the buffer level that is left
      ensures b + y + t <= |DataOf(queue)|
      ensures TotalCount(Room(item)) == curLevelBuffers - CountTo(DataOf(queue), b + y + t)
    {
      b, q1, y, q2, t := LeaksInSequence(limits, queue, item);
    }

    /** As long as every buffer is queued singly, the number of buffers never exceeds its limit. */
    lemma SinglesFit(item: Item)
      requires Valid() && leakyMode == Downstream && Count(item) > 0 && limits.buffers.Some?
      requires curLevelBuffers <= limits.buffers.value
      requires forall i :: 0 <= i < |queue| && !queue[i].EventItem? ==> Count(queue[i]) == 1
      ensures TotalCount(Room(item)) < limits.buffers.value
    {
      var b, q1, y, q2, t := RoomIs(item);
      DataAreItems(queue, |queue|);
      assert forall i :: 0 <= i < |DataOf(queue)| ==> DataOf(queue)[i] in DataOf(queue);
      SinglesCount(DataOf(queue), b + y + t);
    }

    /** Every event enqueued since the last clear has been delivered or is still queued, in order. */
    lemma EventsNeverLost()
      requires Valid()
      ensures EventsOf(delivered + queue) == EventsOf(enqueued)
    {
      EventsSurvive(enqueued, dropped, |enqueued|);
    }

    /** Without downstream leaking, nothing enqueued is lost. */
    lemma NothingLost()
      requires Valid() && leakyMode != Downstream
      ensures delivered + queue == enqueued
    {
      KeptAll(enqueued, |enqueued|);
    }

    /** No lost wake-up: while work is available the consumer is running or has been woken. */
    lemma NoLostWakeUp()
      requires Valid() && parked.Some? && (queue != [] || !started)
      ensures parked.value in aborted
    {
    }
  }
}
