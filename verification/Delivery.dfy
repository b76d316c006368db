/** What one subscriber sees. A subscriber's life is a sequence of two kinds of
    events, a line stored in the ring while it is subscribed and a receive from
    its channel; a stored line is dropped when the channel is full. */
module Delivery {
  import opened Text
  import opened LogLines

  const CAPACITY := 64

  datatype Event = Stored(line: Bytes) | Received

  /** The lines in the channel and the lines already taken out of it. */
  datatype Channel = Channel(queue: seq<Bytes>, received: seq<Bytes>)

  /** `select { case ch <- line: default: }` on a buffered channel. */
  function Offer(ch: Channel, line: Bytes): Channel {
    if |ch.queue| < CAPACITY then ch.(queue := ch.queue + [line]) else ch
  }

  function Take(ch: Channel): Channel {
    if ch.queue == [] then ch else Channel(ch.queue[1..], ch.received + [ch.queue[0]])
  }

  function Run(trace: seq<Event>): Channel {
    if trace == [] then Channel([], [])
    else
      var ch := Run(trace[..|trace| - 1]);
      match trace[|trace| - 1]
      case Stored(line) => Offer(ch, line)
      case Received => Take(ch)
  }

  /** The lines stored during the trace. */
  function StoredIn(trace: seq<Event>): seq<Bytes> {
    if trace == [] then []
    else StoredIn(trace[..|trace| - 1])
         + match trace[|trace| - 1] case Stored(line) => [line] case Received => []
  }

  /** The events of storing some lines one after another. */
  function StoresOf(lines: seq<Bytes>): seq<Event> {
    seq(|lines|, i requires 0 <= i < |lines| => Stored(lines[i]))
  }

  lemma StoresOfMore(before: seq<Bytes>, between: seq<Bytes>, now: seq<Bytes>)
    requires before <= between <= now
    ensures StoresOf(now[|before|..]) == StoresOf(between[|before|..]) + StoresOf(now[|between|..])
  {
    assert now[|before|..] == between[|before|..] + now[|between|..];
  }

  predicate DropsLast(trace: seq<Event>)
    requires trace != []
  {
    trace[|trace| - 1].Stored? && |Run(trace[..|trace| - 1]).queue| == CAPACITY
  }

  /** How many lines were stored while the channel was full. */
  function Dropped(trace: seq<Event>): nat {
    if trace == [] then 0
    else Dropped(trace[..|trace| - 1]) + if DropsLast(trace) then 1 else 0
  }

  /** The positions, among the stored lines, of those that found room. */
  function Kept(trace: seq<Event>): seq<nat> {
    if trace == [] then []
    else
      var front := trace[..|trace| - 1];
      Kept(front) + if trace[|trace| - 1].Stored? && !DropsLast(trace) then [|StoredIn(front)|] else []
  }

  /** Lines delivered so far: taken out, then still queued. */
  function Delivered(trace: seq<Event>): seq<Bytes> {
    Run(trace).received + Run(trace).queue
  }

  /** One event adds the stored line to the delivered ones, or nothing. */
  lemma DeliveredStep(trace: seq<Event>)
    requires trace != []
    ensures var front, last := trace[..|trace| - 1], trace[|trace| - 1];
      Delivered(trace) == Delivered(front) + if last.Stored? && |Run(front).queue| < CAPACITY then [last.line] else []
  {
    var ch := Run(trace[..|trace| - 1]);
    if trace[|trace| - 1].Received? && ch.queue != [] {
      assert ch.received + [ch.queue[0]] + ch.queue[1..] == ch.received + ch.queue;
    }
  }

  /** The delivered lines are the stored lines at strictly increasing positions,
      so they are in order and without repeats. */
  lemma {:induction false} DeliveredInOrder(trace: seq<Event>)
    ensures var kept, stored, got := Kept(trace), StoredIn(trace), Delivered(trace);
      && |Run(trace).queue| <= CAPACITY
      && |got| == |kept|
      && (forall i :: 0 <= i < |kept| ==> kept[i] < |stored| && got[i] == stored[kept[i]])
      && (forall i, j :: 0 <= i < j < |kept| ==> kept[i] < kept[j])
  {
    if trace != [] {
      DeliveredInOrder(trace[..|trace| - 1]);
      DeliveredStep(trace);
    }
  }

  lemma {:induction false} QueueBounded(trace: seq<Event>)
    ensures |Run(trace).queue| <= CAPACITY
  {
    if trace != [] {
      QueueBounded(trace[..|trace| - 1]);
    }
  }

  /** Every stored line is delivered or dropped, never both. */
  lemma {:induction false} StoredIsDeliveredOrDropped(trace: seq<Event>)
    ensures |StoredIn(trace)| == |Delivered(trace)| + Dropped(trace)
  {
    if trace != [] {
      StoredIsDeliveredOrDropped(trace[..|trace| - 1]);
      QueueBounded(trace[..|trace| - 1]);
      DeliveredStep(trace);
    }
  }

  /** Nothing is lost exactly when no line was stored while the channel was full. */
  lemma {:induction false} LosslessIffNeverFull(trace: seq<Event>)
    ensures Delivered(trace) == StoredIn(trace) <==> Dropped(trace) == 0
  {
    StoredIsDeliveredOrDropped(trace);
    if trace != [] && Dropped(trace) == 0 {
      LosslessIffNeverFull(trace[..|trace| - 1]);
      QueueBounded(trace[..|trace| - 1]);
      DeliveredStep(trace);
    }
  }

  function Least(a: nat, b: nat): nat {
    if a < b then a else b
  }

  /** A subscriber that receives nothing holds the first 64 lines; the others are
      dropped. */
  lemma {:induction false} FirstSixtyFour(lines: seq<Bytes>)
    ensures Run(StoresOf(lines)) == Channel(lines[..Least(64, |lines|)], [])
    ensures Dropped(StoresOf(lines)) == |lines| - Least(64, |lines|)
  {
    if lines != [] {
      var front := lines[..|lines| - 1];
      FirstSixtyFour(front);
      assert StoresOf(lines)[..|lines| - 1] == StoresOf(front);
      assert front[..Least(64, |front|)] == lines[..Least(64, |front|)];
    }
  }
}
