/** The keyboard event ring: sixteen slots written in turn and read by timestamp, with no
    read index (system/kernel/Input.c). */
module EventQueue {

  const INPUT_EVENT_RINGBUFFER_SIZE: nat := 16
  const SCANCODE_KEY_NONE: nat := 0
  const USIZE: nat := 0x1_0000_0000_0000_0000

  datatype Event = Event(TickCount: nat, ScanCode: nat, ASCII: char, Shift: bool, Alt: bool, Control: bool)

  const NO_EVENT: Event := Event(0, SCANCODE_KEY_NONE, '\0', false, false, false)

  /** What is still in the ring: the latest sixteen pushes. */
  function Recent(log: seq<Event>): seq<Event> {
    if |log| <= INPUT_EVENT_RINGBUFFER_SIZE then log else log[|log| - INPUT_EVENT_RINGBUFFER_SIZE..]
  }

  /** Slot j holds the last push whose number is j modulo 16, or nothing yet. */
  ghost predicate Ring(queue: seq<Event>, log: seq<Event>) {
    && |queue| == INPUT_EVENT_RINGBUFFER_SIZE
    && (forall i :: 0 <= i < |log| && |log| - INPUT_EVENT_RINGBUFFER_SIZE <= i ==>
          queue[i % INPUT_EVENT_RINGBUFFER_SIZE] == log[i])
    && (forall j :: |log| <= j < INPUT_EVENT_RINGBUFFER_SIZE ==> queue[j] == NO_EVENT)
  }

  lemma RingPush(queue: seq<Event>, log: seq<Event>, e: Event)
    requires Ring(queue, log)
    ensures Ring(queue[|log| % INPUT_EVENT_RINGBUFFER_SIZE := e], log + [e])
  {
  }

  /** The sixteen slots hold the latest sixteen pushes, each in the slot of its number modulo 16. */
  lemma RingHoldsLatest(queue: seq<Event>, log: seq<Event>, i: nat)
    requires Ring(queue, log) && i < |log|
    ensures |queue| == 16
    ensures |log| <= i + 16 ==> queue[i % 16] == log[i]
    ensures forall j :: |log| <= j < 16 ==> queue[j] == Event(0, 0, '\0', false, false, false)
  {
  }

  /** The number of the push that slot j holds, once the ring is full. */
  function PushOf(n: nat, j: nat): (i: nat)
    requires j < INPUT_EVENT_RINGBUFFER_SIZE <= n
    ensures n - INPUT_EVENT_RINGBUFFER_SIZE <= i < n && i % INPUT_EVENT_RINGBUFFER_SIZE == j
  {
    var round := n / INPUT_EVENT_RINGBUFFER_SIZE;
    (if j < n % INPUT_EVENT_RINGBUFFER_SIZE then round else round - 1) * INPUT_EVENT_RINGBUFFER_SIZE + j
  }

  lemma RecentAt(log: seq<Event>, i: nat)
    requires i < |log| && |log| - INPUT_EVENT_RINGBUFFER_SIZE <= i
    ensures log[i] in Recent(log)
  {
    var lo := if |log| <= INPUT_EVENT_RINGBUFFER_SIZE then 0 else |log| - INPUT_EVENT_RINGBUFFER_SIZE;
    assert Recent(log)[i - lo] == log[i];
  }

  /** The events in the slots are the recent ones and the empty ones. */
  lemma RingContents(queue: seq<Event>, log: seq<Event>, e: Event)
    requires Ring(queue, log) && e.ScanCode != SCANCODE_KEY_NONE
    ensures e in queue <==> e in Recent(log)
  {
    if e in queue {
      var j :| 0 <= j < INPUT_EVENT_RINGBUFFER_SIZE && queue[j] == e;
      var i := if |log| < INPUT_EVENT_RINGBUFFER_SIZE then j else PushOf(|log|, j);
      assert queue[i % INPUT_EVENT_RINGBUFFER_SIZE] == log[i];
      RecentAt(log, i);
    }
    if e in Recent(log) { RecentIsQueued(queue, log, e); }
  }

  lemma RecentIsQueued(queue: seq<Event>, log: seq<Event>, e: Event)
    requires Ring(queue, log) && e in Recent(log)
    ensures e in queue
  {
    var i := RecentIndex(log, e);
    QueuedPush(queue, log, i);
  }

  lemma RecentIndex(log: seq<Event>, e: Event) returns (i: nat)
    requires e in Recent(log)
    ensures i < |log| && |log| - i <= INPUT_EVENT_RINGBUFFER_SIZE && log[i] == e
  {
    i :| 0 <= i < |Recent(log)| && Recent(log)[i] == e;
    i := i + |log| - |Recent(log)|;
  }

  /** Every pushed event is a real key. */
  ghost predicate RealKeys(log: seq<Event>) {
    forall i :: 0 <= i < |log| ==> log[i].ScanCode != SCANCODE_KEY_NONE && log[i].TickCount < USIZE
  }

  // ----- Polling -----

  datatype Subscriber = Subscriber(LastTickCount: nat, LastEvent: Event)

  predicate Eligible(e: Event, last: nat) {
    e.ScanCode != SCANCODE_KEY_NONE && e.TickCount > last
  }

  /** Slot j holds an event with the smallest tick newer than the last one, and no later slot does. */
  ghost predicate Chosen(events: seq<Event>, last: nat, j: nat) {
    && j < |events| && Eligible(events[j], last)
    && (forall i :: 0 <= i < |events| && Eligible(events[i], last) ==>
          if i <= j then events[j].TickCount <= events[i].TickCount else events[j].TickCount < events[i].TickCount)
  }

  /** A poll delivers an event with the smallest tick newer than the last one, the one in the highest slot. */
  ghost predicate Polled(events: seq<Event>, sub: Subscriber, found: bool, sub': Subscriber) {
    if found then
      && sub'.LastEvent in events && Eligible(sub'.LastEvent, sub.LastTickCount)
      && sub'.LastTickCount == sub'.LastEvent.TickCount
      && (forall e :: e in events && Eligible(e, sub.LastTickCount) ==> sub'.LastTickCount <= e.TickCount)
      && exists j: nat :: Chosen(events, sub.LastTickCount, j) && sub'.LastEvent == events[j]
    else
      && sub' == sub
      && forall e :: e in events ==> !Eligible(e, sub.LastTickCount)
  }

  method InputPollCharacterEvent(sub: Subscriber, queue: array<Event>) returns (Found: bool, sub': Subscriber)
    requires queue.Length == INPUT_EVENT_RINGBUFFER_SIZE
    requires forall j :: 0 <= j < queue.Length ==> queue[j].TickCount < 0x1_0000_0000_0000_0000
    ensures Polled(queue[..], sub, Found, sub')
  {
    var SmallestTickCount := USIZE - 1;
    var FoundIndex := 0;
    Found := false;
    for Index := 0 to INPUT_EVENT_RINGBUFFER_SIZE
      invariant FoundIndex < INPUT_EVENT_RINGBUFFER_SIZE && (Found ==> FoundIndex < Index)
      invariant forall j :: 0 <= j < Index && Eligible(queue[j], sub.LastTickCount) ==>
        Found && SmallestTickCount <= queue[j].TickCount
      invariant forall j :: FoundIndex < j < Index && Eligible(queue[j], sub.LastTickCount) ==>
        SmallestTickCount < queue[j].TickCount
      invariant Found ==>
        Eligible(queue[FoundIndex], sub.LastTickCount) && SmallestTickCount == queue[FoundIndex].TickCount
      invariant !Found ==> SmallestTickCount == USIZE - 1
    {
      var Event := queue[Index];
      if Event.ScanCode == SCANCODE_KEY_NONE { continue; }
      if !(Event.TickCount > sub.LastTickCount) { continue; }
      if !(Event.TickCount <= SmallestTickCount) { continue; }
      FoundIndex := Index;
      SmallestTickCount := Event.TickCount;
      Found := true;
    }
    if !Found { return false, sub; }
    assert queue[FoundIndex] in queue[..];
    assert Chosen(queue[..], sub.LastTickCount, FoundIndex);
    return true, Subscriber(SmallestTickCount, queue[FoundIndex]);
  }

  // ----- Draining a subscriber -----

  /** A run of successful polls of the same ring contents. */
  ghost predicate IsDrain(events: seq<Event>, start: Subscriber, t: seq<Subscriber>) {
    && (t != [] ==> Polled(events, start, true, t[0]))
    && (forall i :: 0 <= i < |t| - 1 ==> Polled(events, t[i], true, t[i + 1]))
  }

  ghost predicate Exhausted(events: seq<Event>, sub: Subscriber) {
    forall e :: e in events ==> !Eligible(e, sub.LastTickCount)
  }

  function LastOf(start: Subscriber, t: seq<Subscriber>): Subscriber {
    if t == [] then start else t[|t| - 1]
  }

  /** Delivered ticks strictly increase. */
  lemma {:induction false} DrainIncreases(events: seq<Event>, start: Subscriber, t: seq<Subscriber>, i: nat, j: nat)
    requires IsDrain(events, start, t) && i < j < |t|
    ensures t[i].LastTickCount < t[j].LastTickCount
    ensures start.LastTickCount < t[i].LastTickCount
    decreases j
  {
    assert Polled(events, t[j - 1], true, t[j - 1 + 1]);
    if i < j - 1 { DrainIncreases(events, start, t, i, j - 1); }
    if i > 0 {
      DrainIncreases(events, start, t, i - 1, i);
      assert Polled(events, t[i - 1], true, t[i - 1 + 1]);
    }
  }

  /** A drain passes over no tick: every eligible tick up to the last one delivered was delivered. */
  lemma {:induction false} DrainSkipsNothing(events: seq<Event>, start: Subscriber, t: seq<Subscriber>, e: Event)
    requires IsDrain(events, start, t) && e in events && Eligible(e, start.LastTickCount)
    requires e.TickCount <= LastOf(start, t).LastTickCount
    ensures exists i :: 0 <= i < |t| && t[i].LastTickCount == e.TickCount
    decreases |t|
  {
    var n := |t| - 1;
    var before := t[..n];
    assert forall i :: 0 <= i < |before| - 1 ==> Polled(events, t[i], true, t[i + 1]);
    if e.TickCount <= LastOf(start, before).LastTickCount {
      DrainSkipsNothing(events, start, before, e);
      var i :| 0 <= i < |before| && before[i].LastTickCount == e.TickCount;
      assert t[i].LastTickCount == e.TickCount;
    } else {
      assert Polled(events, LastOf(start, before), true, t[n]) by {
        if n > 0 { assert Polled(events, t[n - 1], true, t[n - 1 + 1]); }
      }
      assert t[n].LastTickCount == e.TickCount;
    }
  }

  /** An exhausted drain delivers each distinct tick newer than the start exactly once. */
  lemma DrainIsComplete(events: seq<Event>, start: Subscriber, t: seq<Subscriber>, tick: nat)
    requires IsDrain(events, start, t) && Exhausted(events, LastOf(start, t))
    ensures (exists i :: 0 <= i < |t| && t[i].LastTickCount == tick) <==>
            (exists e :: e in events && Eligible(e, start.LastTickCount) && e.TickCount == tick)
  {
    if i :| 0 <= i < |t| && t[i].LastTickCount == tick {
      assert i > 0 ==> Polled(events, t[i - 1], true, t[i - 1 + 1]);
      if i > 0 { DrainIncreases(events, start, t, i - 1, i); }
      assert t[i].LastEvent in events && Eligible(t[i].LastEvent, start.LastTickCount);
    }
    if e :| e in events && Eligible(e, start.LastTickCount) && e.TickCount == tick {
      DrainSkipsNothing(events, start, t, e);
    }
  }

  lemma {:induction false} TicksBound(events: seq<Event>, ticks: set<nat>)
    requires forall k :: k in ticks ==> exists e :: e in events && e.TickCount == k
    ensures |ticks| <= |events|
  {
    if events == [] {
      assert ticks == {};
    } else {
      var rest := ticks - {events[0].TickCount};
      forall k | k in rest ensures exists e :: e in events[1..] && e.TickCount == k {
        var e :| e in events && e.TickCount == k;
        assert e in events[1..];
      }
      TicksBound(events[1..], rest);
      assert |ticks| <= |rest| + 1;
    }
  }

  lemma {:induction false} DrainTicks(events: seq<Event>, start: Subscriber, t: seq<Subscriber>)
    returns (ticks: set<nat>)
    requires IsDrain(events, start, t)
    ensures |ticks| == |t|
    ensures forall k :: k in ticks ==>
      (exists e :: e in events && e.TickCount == k) && k <= LastOf(start, t).LastTickCount
  {
    if t == [] {
      ticks := {};
    } else {
      var n := |t| - 1;
      assert forall i :: 0 <= i < |t[..n]| - 1 ==> Polled(events, t[i], true, t[i + 1]);
      ticks := DrainTicks(events, start, t[..n]);
      if n > 0 { assert Polled(events, t[n - 1], true, t[n - 1 + 1]); }
      assert t[n].LastEvent in events;
      ticks := ticks + {t[n].LastTickCount};
    }
  }

  /** Draining terminates: a ring yields at most one event per slot. */
  lemma DrainTerminates(events: seq<Event>, start: Subscriber, t: seq<Subscriber>)
    requires IsDrain(events, start, t)
    ensures |t| <= |events|
  {
    var ticks := DrainTicks(events, start, t);
    TicksBound(events, ticks);
  }

  /** Two presses in one report share a tick, and a drain delivers at most one of them. */
  lemma SameTickDeliversOne(events: seq<Event>, start: Subscriber, t: seq<Subscriber>, i: nat, j: nat)
    requires IsDrain(events, start, t) && i < |t| && j < |t| && t[i].LastEvent.TickCount == t[j].LastEvent.TickCount
    ensures i == j
  {
    if i < j { DrainIncreases(events, start, t, i, j); }
    if j < i { DrainIncreases(events, start, t, j, i); }
    assert i > 0 ==> Polled(events, t[i - 1], true, t[i - 1 + 1]);
    assert j > 0 ==> Polled(events, t[j - 1], true, t[j - 1 + 1]);
  }

  ghost predicate DeliveredIn(t: seq<Subscriber>, e: Event) {
    exists i :: 0 <= i < |t| && t[i].LastEvent == e
  }

  /** No two eligible events share a tick. */
  ghost predicate TicksDiffer(events: seq<Event>, last: nat) {
    forall e, f ::
      e in events && f in events && Eligible(e, last) && Eligible(f, last) && e.TickCount == f.TickCount ==> e == f
  }

  lemma DrainedIsQueued(events: seq<Event>, start: Subscriber, t: seq<Subscriber>, i: nat)
    requires IsDrain(events, start, t) && i < |t|
    ensures t[i].LastEvent in events && Eligible(t[i].LastEvent, start.LastTickCount)
    ensures t[i].LastTickCount == t[i].LastEvent.TickCount
  {
    if i > 0 {
      assert Polled(events, t[i - 1], true, t[i - 1 + 1]);
      DrainIncreases(events, start, t, i - 1, i);
    }
  }

  /** A drained subscriber has received every event exactly when no two of them share a tick. */
  lemma AllDeliveredIff(events: seq<Event>, start: Subscriber, t: seq<Subscriber>)
    requires IsDrain(events, start, t) && Exhausted(events, LastOf(start, t))
    ensures (forall e :: e in events && Eligible(e, start.LastTickCount) ==> DeliveredIn(t, e))
       <==> TicksDiffer(events, start.LastTickCount)
  {
    if TicksDiffer(events, start.LastTickCount) {
      forall e | e in events && Eligible(e, start.LastTickCount) ensures DeliveredIn(t, e) {
        DrainIsComplete(events, start, t, e.TickCount);
        var i :| 0 <= i < |t| && t[i].LastTickCount == e.TickCount;
        DrainedIsQueued(events, start, t, i);
      }
    }
    if forall e :: e in events && Eligible(e, start.LastTickCount) ==> DeliveredIn(t, e) {
      forall e, f | e in events && f in events && Eligible(e, start.LastTickCount) && Eligible(f, start.LastTickCount)
                 && e.TickCount == f.TickCount
        ensures e == f
      {
        var i :| 0 <= i < |t| && t[i].LastEvent == e;
        var j :| 0 <= j < |t| && t[j].LastEvent == f;
        SameTickDeliversOne(events, start, t, i, j);
      }
    }
  }

  // ----- When the ring is a queue -----

  ghost predicate StrictTicks(log: seq<Event>) {
    && (forall i :: 0 <= i < |log| ==> log[i].TickCount > 0)
    && (forall i, j :: 0 <= i < j < |log| ==> log[i].TickCount < log[j].TickCount)
  }

  /** The subscriber has received exactly the first k pushes. */
  ghost predicate HasReceived(log: seq<Event>, sub: Subscriber, k: nat) {
    k <= |log| && sub.LastTickCount == if k == 0 then 0 else log[k - 1].TickCount
  }

  lemma QueuedPush(queue: seq<Event>, log: seq<Event>, k: nat)
    requires Ring(queue, log) && k < |log| && |log| - k <= INPUT_EVENT_RINGBUFFER_SIZE
    ensures log[k] in queue
  {
    assert queue[k % INPUT_EVENT_RINGBUFFER_SIZE] == log[k];
  }

  lemma PushNumber(queue: seq<Event>, log: seq<Event>, e: Event) returns (i: nat)
    requires Ring(queue, log) && e in queue && e.ScanCode != SCANCODE_KEY_NONE
    ensures i < |log| && log[i] == e
  {
    RingContents(queue, log, e);
    i := RecentIndex(log, e);
  }

  /** With strictly increasing ticks and at most sixteen pushes outstanding, a poll takes the
      oldest outstanding push and nothing else. */
  lemma PollIsDequeue(queue: seq<Event>, log: seq<Event>, sub: Subscriber, k: nat, found: bool, sub': Subscriber)
    requires Ring(queue, log) && RealKeys(log) && StrictTicks(log)
    requires HasReceived(log, sub, k) && |log| - k <= INPUT_EVENT_RINGBUFFER_SIZE
    requires Polled(queue, sub, found, sub')
    ensures found <==> k < |log|
    ensures found ==> sub'.LastEvent == log[k] && HasReceived(log, sub', k + 1)
  {
    if k < |log| { QueuedPush(queue, log, k); }
    if found {
      var i := PushNumber(queue, log, sub'.LastEvent);
      assert k <= i;
    }
  }

  // ----- Runs of pushes and polls -----

  datatype Op = Push(event: Event) | Poll(found: bool, received: Event)

  /** The ring, the slot the next push goes to, and one subscriber. */
  datatype Reader = Reader(queue: seq<Event>, index: nat, sub: Subscriber)

  ghost predicate ReaderStep(r: Reader, op: Op, r': Reader) {
    match op
    case Push(e) =>
      && r.index < |r.queue|
      && r' == r.(queue := r.queue[r.index := e], index := (r.index + 1) % INPUT_EVENT_RINGBUFFER_SIZE)
    case Poll(found, e) =>
      && r' == r.(sub := r'.sub) && Polled(r.queue, r.sub, found, r'.sub) && (found ==> e == r'.sub.LastEvent)
  }

  /** A run from an empty ring. */
  ghost predicate IsRun(ops: seq<Op>, t: seq<Reader>) {
    && |t| == |ops| + 1
    && t[0].queue == seq(INPUT_EVENT_RINGBUFFER_SIZE, _ => NO_EVENT) && t[0].index == 0 && t[0].sub.LastTickCount == 0
    && forall i :: 0 <= i < |ops| ==> ReaderStep(t[i], ops[i], t[i + 1])
  }

  /** What the first n operations pushed, and what they delivered. */
  function Pushed(ops: seq<Op>, n: nat): (log: seq<Event>)
    requires n <= |ops|
  {
    if n == 0 then [] else Pushed(ops, n - 1) + if ops[n - 1].Push? then [ops[n - 1].event] else []
  }

  function Received(ops: seq<Op>, n: nat): seq<Event>
    requires n <= |ops|
  {
    if n == 0 then []
    else Received(ops, n - 1) + if ops[n - 1].Poll? && ops[n - 1].found then [ops[n - 1].received] else []
  }

  lemma {:induction false} PushedPrefix(ops: seq<Op>, m: nat, n: nat)
    requires m <= n <= |ops|
    ensures Pushed(ops, m) <= Pushed(ops, n)
    decreases n
  {
    if m < n { PushedPrefix(ops, m, n - 1); }
  }

  /** Positive increasing ticks, and never more than sixteen events on the way. */
  ghost predicate Orderly(ops: seq<Op>) {
    && StrictTicks(Pushed(ops, |ops|)) && RealKeys(Pushed(ops, |ops|))
    && forall n :: 0 <= n <= |ops| ==> |Pushed(ops, n)| - |Received(ops, n)| <= INPUT_EVENT_RINGBUFFER_SIZE
  }

  lemma OrderlyPrefix(log: seq<Event>, all: seq<Event>)
    requires StrictTicks(all) && RealKeys(all) && log <= all
    ensures StrictTicks(log) && RealKeys(log)
  {
    assert forall i :: 0 <= i < |log| ==> log[i] == all[i];
  }

  /** The ring holds what was pushed, and the subscriber has received the first of it. */
  ghost predicate InStep(r: Reader, log: seq<Event>, got: seq<Event>) {
    && got <= log && Ring(r.queue, log) && r.index == |log| % INPUT_EVENT_RINGBUFFER_SIZE
    && HasReceived(log, r.sub, |got|)
  }

  lemma FifoStep(r: Reader, op: Op, r': Reader, log: seq<Event>, got: seq<Event>)
    requires ReaderStep(r, op, r') && StrictTicks(log) && RealKeys(log) && InStep(r, log, got)
    requires |log| - |got| <= INPUT_EVENT_RINGBUFFER_SIZE
    ensures InStep(r', log + (if op.Push? then [op.event] else []),
                   got + (if op.Poll? && op.found then [op.received] else []))
    ensures op.Poll? ==> (op.found <==> got != log) && (op.found ==> op.received == log[|got|])
  {
    match op
    case Push(e) =>
      RingPush(r.queue, log, e);
      NextSlot(|log|);
    case Poll(found, e) =>
      PollIsDequeue(r.queue, log, r.sub, |got|, found, r'.sub);
      assert log + [] == log && got + [] == got;
  }

  lemma {:induction false} RunInStep(ops: seq<Op>, t: seq<Reader>, n: nat)
    requires IsRun(ops, t) && Orderly(ops) && n <= |ops|
    ensures InStep(t[n], Pushed(ops, n), Received(ops, n))
  {
    if n > 0 {
      RunInStep(ops, t, n - 1);
      StepInStep(ops, t, n - 1);
    }
  }

  lemma StepInStep(ops: seq<Op>, t: seq<Reader>, n: nat)
    requires IsRun(ops, t) && Orderly(ops) && n < |ops| && InStep(t[n], Pushed(ops, n), Received(ops, n))
    ensures InStep(t[n + 1], Pushed(ops, n + 1), Received(ops, n + 1))
    ensures ops[n].Poll? ==> (ops[n].found <==> Received(ops, n) != Pushed(ops, n))
    ensures ops[n].Poll? && ops[n].found ==> ops[n].received == Pushed(ops, n)[|Received(ops, n)|]
  {
    assert ReaderStep(t[n], ops[n], t[n + 1]);
    PushedPrefix(ops, n, |ops|);
    OrderlyPrefix(Pushed(ops, n), Pushed(ops, |ops|));
    FifoStep(t[n], ops[n], t[n + 1], Pushed(ops, n), Received(ops, n));
  }

  /** The ring is a queue: in an orderly run the events received are the first of those pushed, in
      order, and a poll finds nothing only when all of them have been received. */
  lemma RingIsFifo(ops: seq<Op>, t: seq<Reader>, n: nat)
    requires IsRun(ops, t) && Orderly(ops) && n <= |ops|
    ensures Received(ops, n) <= Pushed(ops, n)
    ensures n < |ops| && ops[n].Poll? ==> (ops[n].found <==> Received(ops, n) != Pushed(ops, n))
    ensures n < |ops| && ops[n].Poll? && ops[n].found ==>
      |Received(ops, n)| < |Pushed(ops, n)| && ops[n].received == Pushed(ops, n)[|Received(ops, n)|]
  {
    RunInStep(ops, t, n);
    if n < |ops| { StepInStep(ops, t, n); }
  }

  lemma NextSlot(n: nat)
    ensures (n % INPUT_EVENT_RINGBUFFER_SIZE + 1) % INPUT_EVENT_RINGBUFFER_SIZE == (n + 1) % INPUT_EVENT_RINGBUFFER_SIZE
  {
  }
}
