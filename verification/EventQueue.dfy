/** The bounded event queue both the driver and the bridge plug-in keep: the newest 256 events, oldest first. */
module EventQueue {

  const CAPACITY: nat := 256

  datatype Event = Event(processId: nat, detail: seq<nat>)

  /** What becomes of an event that leaves the queue. */
  datatype Fate = Overwritten(event: Event) | Delivered(event: Event) | Skipped(event: Event)

  function Push<T>(q: seq<T>, e: T): seq<T> {
    if |q| == CAPACITY then q[1..] + [e] else q + [e]
  }

  predicate Matches(e: Event, processId: nat) {
    processId == 0 || e.processId == processId
  }

  /** The events a drain for `processId` is after, in order. */
  function Matching(q: seq<Event>, processId: nat): seq<Event> {
    if q == [] then []
    else (if Matches(q[0], processId) then [q[0]] else []) + Matching(q[1..], processId)
  }

  /** How many events a drain takes off: it stops at `max` matches or at the end. */
  function Taken(q: seq<Event>, processId: nat, max: nat): (k: nat)
    ensures k <= |q|
    decreases |q|
  {
    if max == 0 || q == [] then 0
    else 1 + Taken(q[1..], processId, if Matches(q[0], processId) then max - 1 else max)
  }

  lemma {:induction false} TakenStep(q: seq<Event>, k: nat, processId: nat, max: nat)
    requires k < |q| && max > 0
    ensures Taken(q[k..], processId, max)
            == 1 + Taken(q[k + 1..], processId, if Matches(q[k], processId) then max - 1 else max)
  {
    assert q[k..][0] == q[k] && q[k..][1..] == q[k + 1..];
  }

  lemma {:induction false} MatchingSplits(a: seq<Event>, b: seq<Event>, processId: nat)
    ensures Matching(a + b, processId) == Matching(a, processId) + Matching(b, processId)
    decreases |a|
  {
    if a == [] {
      assert a + b == b;
    } else {
      MatchingSplits(a[1..], b, processId);
      assert (a + b)[1..] == a[1..] + b && (a + b)[0] == a[0];
      var first := if Matches(a[0], processId) then [a[0]] else [];
      assert first + (Matching(a[1..], processId) + Matching(b, processId))
             == (first + Matching(a[1..], processId)) + Matching(b, processId);
    }
  }

  /** The prefix taken off is the shortest one holding `max` matches, or the whole queue when there are fewer. */
  lemma {:induction false} DrainsShortestPrefix(q: seq<Event>, processId: nat, max: nat)
    ensures var k := Taken(q, processId, max);
            && |Matching(q[..k], processId)| <= max
            && (|Matching(q[..k], processId)| < max ==> k == |q|)
            && forall j :: 0 <= j < k ==> |Matching(q[..j], processId)| < max
    decreases |q|
  {
    if max > 0 && q != [] {
      var left := if Matches(q[0], processId) then max - 1 else max;
      DrainsShortestPrefix(q[1..], processId, left);
      var k := Taken(q, processId, max);
      assert q[..k][1..] == q[1..][..k - 1];
      forall j | 0 <= j < k
        ensures |Matching(q[..j], processId)| < max
      {
        if j > 0 { assert q[..j][1..] == q[1..][..j - 1]; }
      }
    }
  }

  // Whole runs.

  datatype Op = Queue(event: Event) | Drain(processId: nat, max: nat)

  function Fates(q: seq<Event>, processId: nat): seq<Fate> {
    if q == [] then []
    else [if Matches(q[0], processId) then Delivered(q[0]) else Skipped(q[0])] + Fates(q[1..], processId)
  }

  function Step(q: seq<Event>, op: Op): (r: (seq<Event>, seq<Fate>)) {
    match op
    case Queue(e) => (Push(q, e), if |q| == CAPACITY then [Overwritten(q[0])] else [])
    case Drain(processId, max) =>
      var k := Taken(q, processId, max);
      (q[k..], Fates(q[..k], processId))
  }

  function Run(q: seq<Event>, ops: seq<Op>): (seq<Event>, seq<Fate>)
    decreases |ops|
  {
    if ops == [] then (q, [])
    else
      var s := Step(q, ops[0]);
      var r := Run(s.0, ops[1..]);
      (r.0, s.1 + r.1)
  }

  /** The events an operation list puts in, and the replies its drains give. */
  function Queued(ops: seq<Op>): seq<Event> {
    if ops == [] then [] else (if ops[0].Queue? then [ops[0].event] else []) + Queued(ops[1..])
  }

  function Events(fates: seq<Fate>): seq<Event> {
    if fates == [] then [] else [fates[0].event] + Events(fates[1..])
  }

  function DeliveredOf(fates: seq<Fate>): seq<Event> {
    if fates == [] then []
    else (if fates[0].Delivered? then [fates[0].event] else []) + DeliveredOf(fates[1..])
  }

  lemma {:induction false} EventsSplit(a: seq<Fate>, b: seq<Fate>)
    ensures Events(a + b) == Events(a) + Events(b)
    decreases |a|
  {
    if a == [] {
      assert a + b == b;
    } else {
      EventsSplit(a[1..], b);
      assert (a + b)[1..] == a[1..] + b;
    }
  }

  lemma {:induction false} FatesMeaning(q: seq<Event>, processId: nat)
    ensures Events(Fates(q, processId)) == q
    ensures DeliveredOf(Fates(q, processId)) == Matching(q, processId)
    decreases |q|
  {
    if q != [] { FatesMeaning(q[1..], processId); }
  }

  /** A drain delivers exactly the events of the process asked for, or all when none is, among those it takes off. */
  lemma {:induction false} DeliversOwn(q: seq<Event>, processId: nat, max: nat)
    ensures forall f :: f in Step(q, Drain(processId, max)).1 ==>
              if processId == 0 || f.event.processId == processId then f.Delivered? else f.Skipped?
    ensures forall e :: multiset(DeliveredOf(Step(q, Drain(processId, max)).1))[e] ==
              if processId == 0 || e.processId == processId then multiset(q[..|q| - |Step(q, Drain(processId, max)).0|])[e] else 0
  {
    FatesOwn(q[..Taken(q, processId, max)], processId);
  }

  lemma {:induction false} FatesOwn(q: seq<Event>, processId: nat)
    ensures forall f :: f in Fates(q, processId) ==>
              if processId == 0 || f.event.processId == processId then f.Delivered? else f.Skipped?
    ensures forall e :: multiset(DeliveredOf(Fates(q, processId)))[e] ==
              if processId == 0 || e.processId == processId then multiset(q)[e] else 0
    decreases |q|
  {
    if q != [] {
      FatesOwn(q[1..], processId);
      assert q == [q[0]] + q[1..];
    }
  }

  lemma {:induction false} StepConserves(q: seq<Event>, op: Op)
    requires |q| <= CAPACITY
    ensures var (after, fates) := Step(q, op);
            && |after| <= CAPACITY
            && q + Queued([op]) == Events(fates) + after
  {
    match op
    case Queue(e) =>
      assert Queued([op]) == [e];
      if |q| == CAPACITY {
        assert Events([Overwritten(q[0])]) == [q[0]];
      }
    case Drain(processId, max) =>
      var k := Taken(q, processId, max);
      FatesMeaning(q[..k], processId);
      assert Queued([op]) == [];
      assert q == q[..k] + q[k..];
  }

  lemma {:induction false} Chain(q: seq<Event>, in1: seq<Event>, in2: seq<Event>,
                                 out1: seq<Event>, middle: seq<Event>, out2: seq<Event>, last: seq<Event>)
    requires q + in1 == out1 + middle && middle + in2 == out2 + last
    ensures q + (in1 + in2) == (out1 + out2) + last
  {
    assert q + (in1 + in2) == (q + in1) + in2;
    assert (out1 + middle) + in2 == out1 + (middle + in2);
    assert out1 + (out2 + last) == (out1 + out2) + last;
  }

  /** Conservation over any run: what was waiting followed by what was queued is what left the queue, in order,
      followed by what still waits. Nothing is duplicated, reordered or lost without a fate. */
  lemma {:induction false} RunConserves(q: seq<Event>, ops: seq<Op>)
    requires |q| <= CAPACITY
    ensures var (after, fates) := Run(q, ops);
            && |after| <= CAPACITY
            && q + Queued(ops) == Events(fates) + after
    decreases |ops|
  {
    if ops != [] {
      var s := Step(q, ops[0]);
      StepConserves(q, ops[0]);
      RunConserves(s.0, ops[1..]);
      var r := Run(s.0, ops[1..]);
      EventsSplit(s.1, r.1);
      assert Queued(ops) == Queued([ops[0]]) + Queued(ops[1..]);
      Chain(q, Queued([ops[0]]), Queued(ops[1..]), Events(s.1), s.0, Events(r.1), r.0);
    } else {
      assert q + Queued(ops) == q;
    }
  }

  function QueueAll(events: seq<Event>): seq<Op> {
    seq(|events|, i requires 0 <= i < |events| => Queue(events[i]))
  }

  /** Between drains the queue holds exactly the newest 256 events. */
  lemma {:induction false} KeepsNewest(q: seq<Event>, events: seq<Event>)
    requires |q| <= CAPACITY
    ensures var all := q + events;
            Run(q, QueueAll(events)).0 == if |all| <= 256 then all else all[|all| - 256..]
    decreases |events|
  {
    if events == [] {
      assert q + events == q;
    } else {
      var ops := QueueAll(events);
      var pushed := Push(q, events[0]);
      assert ops[1..] == QueueAll(events[1..]);
      KeepsNewest(pushed, events[1..]);
      assert Run(q, ops).0 == Run(pushed, ops[1..]).0;
      var all, rest := q + events, pushed + events[1..];
      assert |q| < CAPACITY ==> rest == all;
      assert |q| == CAPACITY ==> rest == all[1..];
    }
  }

  /** An unfiltered drain with room for all 256 hands over the whole queue. */
  lemma {:induction false} FullDrain(q: seq<Event>, max: nat)
    requires |q| <= max
    ensures Taken(q, 0, max) == |q| && Matching(q, 0) == q
    decreases |q|
  {
    if q != [] { FullDrain(q[1..], max - 1); }
  }
}
