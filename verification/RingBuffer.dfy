/** The log ring buffer: a circular array of lines, a partial-line accumulator
    and the channels of its subscribers. A method body is one critical section
    of the buffer's lock. */
module RingBuffer {
  import opened Text
  import opened LogLines
  import opened RingSlots
  import opened Delivery

  /** A subscriber's channel, with the trace of what happened to it. */
  class Subscriber {
    var queue: seq<Bytes>
    var closed: bool
    ghost var received: seq<Bytes>
    ghost var trace: seq<Event>
    ghost const since: nat

    ghost predicate Valid()
      reads this
    {
      Run(trace) == Channel(queue, received)
    }

    constructor (ghost since: nat)
      ensures Valid() && trace == [] && !closed && this.since == since
    {
      queue, closed := [], false;
      received, trace, this.since := [], [], since;
    }

    /** A send that gives up when the channel is full. */
    method TrySend(line: Bytes)
      requires Valid() && !closed
      modifies this
      ensures Valid() && !closed && received == old(received)
      ensures trace == old(trace) + [Stored(line)]
      ensures queue == if |old(queue)| < CAPACITY then old(queue) + [line] else old(queue)
    {
      assert (trace + [Stored(line)])[..|trace|] == trace;
      if |queue| < CAPACITY {
        queue := queue + [line];
      }
      trace := trace + [Stored(line)];
    }

    /** A receive; no line when the channel is empty. */
    method Receive() returns (line: Option<Bytes>)
      requires Valid()
      modifies this
      ensures Valid() && closed == old(closed)
      ensures trace == old(trace) + [Received]
      ensures line == (if old(queue) == [] then None else Some(old(queue)[0]))
      ensures received + queue == old(received) + old(queue)
      ensures |queue| == if old(queue) == [] then 0 else |old(queue)| - 1
    {
      assert (trace + [Received])[..|trace|] == trace;
      trace := trace + [Received];
      if queue == [] {
        return None;
      }
      line := Some(queue[0]);
      received := received + [queue[0]];
      queue := queue[1..];
    }

    method Close()
      requires !closed
      modifies this`closed
      ensures closed
    {
      closed := true;
    }
  }

  class RingBuffer {
    var lines: array<Bytes>
    var head: nat
    var count: nat
    const size: nat
    var partial: Bytes
    var subs: set<Subscriber>
    ghost var history: seq<Bytes>

    /** The array, head and count are functions of all lines ever stored; without
        slots no line ever is. */
    ghost predicate RingValid()
      reads this, lines
    {
      && lines.Length == size
      && if size == 0 then history == [] && head == 0 && count == 0
         else
           && lines[..] == Slots(history, size)
           && head == |history| % size
           && count == (if |history| < size then |history| else size)
    }

    /** A live subscriber has been offered every line since it subscribed. */
    ghost predicate SubsValid()
      reads this, subs
    {
      forall ch :: ch in subs ==>
        && ch.Valid() && !ch.closed
        && ch.since <= |history|
        && StoredIn(ch.trace) == history[ch.since..]
    }

    ghost predicate Valid()
      reads this, lines, subs
    {
      RingValid() && SubsValid() && '\n' !in partial
    }

    ghost function Contents(): Log
      reads this
    {
      Log(history, partial)
    }

    constructor (size: nat)
      ensures Valid() && fresh(lines) && this.size == size
      ensures Contents() == EMPTY_LOG && subs == {}
    {
      this.size := size;
      lines := new Bytes[size](_ => "");
      head, count, partial, subs, history := 0, 0, "", {}, [];
      new;
      assert size > 0 ==> lines[..] == Slots([], size);
    }

    /** Overwrites the oldest slot; there has to be one. */
    method StoreLocked(line: Bytes)
      requires size > 0 && RingValid() && SubsValid()
      modifies this`head, this`count, this`history, lines, subs
      ensures RingValid() && SubsValid()
      ensures history == old(history) + [line]
      ensures forall ch :: ch in subs ==>
        ch.received == old(ch.received) && ch.trace == old(ch.trace) + [Stored(line)]
    {
      SlotsStore(history, size, line);
      ModShift(|history|, 1, size);
      lines[head] := line;
      head := (head + 1) % size;
      if count < size {
        count := count + 1;
      }
      history := history + [line];
      Broadcast(line);
    }

    /** Offer the line just stored to every subscriber, in any order. */
    method Broadcast(line: Bytes)
      requires history != [] && history[|history| - 1] == line
      requires forall ch :: ch in subs ==>
        && ch.Valid() && !ch.closed
        && ch.since < |history|
        && StoredIn(ch.trace) == history[ch.since..|history| - 1]
      modifies subs
      ensures SubsValid()
      ensures forall ch :: ch in subs ==>
        ch.received == old(ch.received) && ch.trace == old(ch.trace) + [Stored(line)]
    {
      var todo := subs;
      while todo != {}
        invariant todo <= subs
        invariant forall ch :: ch in todo ==>
          && ch.Valid() && !ch.closed
          && ch.trace == old(ch.trace) && ch.received == old(ch.received)
        invariant forall ch :: ch in subs - todo ==>
          && ch.Valid() && !ch.closed
          && ch.received == old(ch.received) && ch.trace == old(ch.trace) + [Stored(line)]
        modifies subs
      {
        var ch :| ch in todo;
        ch.TrySend(line);
        todo := todo - {ch};
      }
      forall ch | ch in subs
        ensures StoredIn(ch.trace) == history[ch.since..]
      {
        assert ch.trace[..|ch.trace| - 1] == old(ch.trace);
        assert history[ch.since..] == history[ch.since..|history| - 1] + [line];
      }
    }

    /** Takes the line that ends at `idx` off the pending bytes and, unless it is
        empty, stores it. */
    method TakeLine(idx: nat)
      requires RingValid() && SubsValid()
      requires size > 0 || Feed(Log(history, ""), partial).history == []
      requires idx < |partial| && partial[idx] == '\n' && '\n' !in partial[..idx]
      modifies this`head, this`count, this`history, this`partial, lines, subs
      ensures RingValid() && SubsValid() && |partial| < |old(partial)|
      ensures Feed(Log(history, ""), partial) == Feed(Log(old(history), ""), old(partial))
      ensures old(history) <= history
      ensures forall ch :: ch in subs ==>
        ch.received == old(ch.received) && ch.trace == old(ch.trace) + StoresOf(history[|old(history)|..])
    {
      var line, remaining := partial[..idx], partial[idx + 1..];
      assert partial == line + "\n" + remaining;
      FeedLine(history, line, remaining);
      partial := remaining;
      if line == "" {
        assert StoresOf(history[|history|..]) == [];
      } else {
        FeedGrows(Log(history + [line], ""), remaining);
        StoreLocked(line);
        assert history[|old(history)|..] == [line];
        assert StoresOf([line]) == [Stored(line)];
      }
    }

    /** The extraction loop: stores every complete line of the pending bytes. */
    method TakeLines()
      requires RingValid() && SubsValid()
      requires size > 0 || Feed(Log(history, ""), partial).history == []
      modifies this`head, this`count, this`history, this`partial, lines, subs
      ensures RingValid() && SubsValid() && '\n' !in partial
      ensures Feed(Log(history, ""), partial) == Feed(Log(old(history), ""), old(partial))
      ensures old(history) <= history
      ensures forall ch :: ch in subs ==>
        ch.received == old(ch.received) && ch.trace == old(ch.trace) + StoresOf(history[|old(history)|..])
    {
      while true
        invariant RingValid() && SubsValid()
        invariant Feed(Log(history, ""), partial) == Feed(Log(old(history), ""), old(partial))
        invariant old(history) <= history
        invariant forall ch :: ch in subs ==>
          ch.received == old(ch.received) && ch.trace == old(ch.trace) + StoresOf(history[|old(history)|..])
        decreases |partial|
      {
        var idx := Index(partial, '\n');
        if idx < 0 {
          break;
        }
        ghost var between := history;
        TakeLine(idx);
        StoresOfMore(old(history), between, history);
      }
    }

    /** Appends bytes; every line they complete is stored and broadcast. Without slots
        there must be no line to store. */
    method Write(p: Bytes) returns (n: nat)
      requires Valid() && (size > 0 || Feed(Contents(), p).history == [])
      modifies this`head, this`count, this`history, this`partial, lines, subs
      ensures Valid() && n == |p|
      ensures Contents() == Feed(old(Contents()), p) && old(history) <= history
      ensures forall ch :: ch in subs ==>
        ch.received == old(ch.received) && ch.trace == old(ch.trace) + StoresOf(history[|old(history)|..])
    {
      Pending(history, partial, p);
      partial := partial + p;
      TakeLines();
      Pending(history, partial, "");
      assert partial + "" == partial;
      return |p|;
    }

    /** The last `n` stored lines in order, fewer when fewer are held. */
    method Lines(n: nat) returns (out: seq<Bytes>)
      requires RingValid()
      ensures |out| == if n < count then n else count
      ensures out == history[|history| - |out|..]
    {
      var k := if n > count then count else n;
      if k == 0 {
        return [];
      }
      out := ReadLast(k);
    }

    method ReadLast(k: nat) returns (out: seq<Bytes>)
      requires RingValid() && 0 < k <= count
      ensures out == history[|history| - k..]
    {
      out := [];
      var start := StartSlot(head, k, size);
      for i := 0 to k
        invariant out == history[|history| - k..|history| - k + i]
      {
        ReadBack(history, size, k, i);
        var line := ReadSlot(NextSlot(start, i, size));
        out := out + [line];
      }
    }

    method ReadSlot(at: nat) returns (line: Bytes)
      requires RingValid() && at < size
      ensures line == Slots(history, size)[at]
    {
      assert lines[at] == lines[..][at];
      line := lines[at];
    }

    method Subscribe() returns (ch: Subscriber)
      requires Valid()
      modifies this`subs
      ensures Valid() && fresh(ch) && subs == old(subs) + {ch}
      ensures ch.trace == [] && ch.since == |history|
    {
      ch := new Subscriber(|history|);
      subs := subs + {ch};
    }

    /** Removes the channel, then closes it; no channel is unsubscribed twice. */
    method Unsubscribe(ch: Subscriber)
      requires Valid() && !ch.closed
      modifies this`subs, ch`closed
      ensures Valid() && subs == old(subs) - {ch} && ch.closed
    {
      subs := subs - {ch};
      ch.Close();
    }
  }

  /** What a live subscriber has got, received or still queued, are lines stored since
      it subscribed, at strictly increasing positions; it is all of them exactly when
      none came while its queue was full. */
  lemma SubscriberView(ring: RingBuffer, ch: Subscriber)
    requires ring.Valid() && ch in ring.subs
    ensures var got, stored, kept := ch.received + ch.queue, ring.history[ch.since..], Kept(ch.trace);
      && |got| == |kept| == |stored| - Dropped(ch.trace)
      && (forall i :: 0 <= i < |kept| ==> kept[i] < |stored| && got[i] == stored[kept[i]])
      && (forall i, j :: 0 <= i < j < |kept| ==> kept[i] < kept[j])
      && (got == stored <==> Dropped(ch.trace) == 0)
  {
    DeliveredInOrder(ch.trace);
    StoredIsDeliveredOrDropped(ch.trace);
    LosslessIffNeverFull(ch.trace);
  }
}
