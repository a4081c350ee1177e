/** The driver's circular event buffer and the bridge's deque, each refining the bounded queue. */
module EventRing {
  import opened EventQueue

  const HEADER_BYTES: nat := 8
  const EVENT_BYTES: nat := 560
  const REQUEST_BYTES: nat := 16

  datatype Request = Request(processId: nat, maxEvents: nat)
  datatype Source = NoEvent | Given(event: Event)

  datatype Reply = BufferTooSmall | Reply(totalCount: nat, returnedCount: nat, entries: seq<Event>)

  /** Entries the reply may hold: what fits behind the header, cut to the request's limit if it has one. */
  function Limit(maxEvents: nat, outputLength: nat): nat
    requires outputLength >= HEADER_BYTES
  {
    var fits := (outputLength - HEADER_BYTES) / EVENT_BYTES;
    if maxEvents != 0 && fits > maxEvents then maxEvents else fits
  }

  /** Place of the `i`th waiting event. */
  function Slot(head: nat, i: nat): (k: nat)
    requires head < CAPACITY && i <= CAPACITY
    ensures k == (head + i) % CAPACITY
  {
    if head + i < CAPACITY then head + i else head + i - CAPACITY
  }

  /** The waiting events of a circular buffer, oldest first. */
  function Window(slots: seq<Event>, head: nat, count: nat): (q: seq<Event>)
    requires |slots| == CAPACITY && head < CAPACITY && count <= CAPACITY
    ensures |q| == count && forall i :: 0 <= i < count ==> q[i] == slots[Slot(head, i)]
  {
    seq(count, i requires 0 <= i < count => slots[Slot(head, i)])
  }

  lemma {:induction false} Pushed(slots: seq<Event>, head: nat, count: nat, e: Event)
    requires |slots| == CAPACITY && head < CAPACITY && count <= CAPACITY
    ensures var full := count == CAPACITY;
            var index := Slot(head, count);
            Window(slots[index := e], if full then Slot(head, 1) else head, if full then count else count + 1)
            == Push(Window(slots, head, count), e)
  {
    var index, before := Slot(head, count), Window(slots, head, count);
    if count == CAPACITY {
      var after := Window(slots[index := e], Slot(head, 1), count);
      forall i | 0 <= i < count
        ensures after[i] == Push(before, e)[i]
      {
        if i < count - 1 { assert Slot(Slot(head, 1), i) == Slot(head, i + 1); }
      }
    } else {
      var after := Window(slots[index := e], head, count + 1);
      assert forall i :: 0 <= i < count ==> after[i] == before[i];
    }
  }

  lemma {:induction false} Popped(slots: seq<Event>, head: nat, count: nat)
    requires |slots| == CAPACITY && head < CAPACITY && 0 < count <= CAPACITY
    ensures [slots[head]] + Window(slots, Slot(head, 1), count - 1) == Window(slots, head, count)
  {
    var before, after := Window(slots, head, count), Window(slots, Slot(head, 1), count - 1);
    assert before[0] == slots[Slot(head, 0)];
    forall i | 0 <= i < count - 1
      ensures after[i] == before[i + 1]
    {
      assert Slot(Slot(head, 1), i) == Slot(head, i + 1);
    }
  }

  lemma {:induction false} TakeOne(q: seq<Event>, k: nat, processId: nat)
    requires k < |q|
    ensures Matching(q[..k + 1], processId)
            == Matching(q[..k], processId) + if Matches(q[k], processId) then [q[k]] else []
  {
    MatchingSplits(q[..k], [q[k]], processId);
    assert q[..k + 1] == q[..k] + [q[k]];
    assert Matching([q[k]], processId) == if Matches(q[k], processId) then [q[k]] else [];
  }

  /** The handler on the queue: what is left waiting, and the reply. */
  function DoQuery(q: seq<Event>, request: Request, inputLength: nat, outputLength: nat, hasBuffer: bool): (seq<Event>, Reply) {
    if inputLength < REQUEST_BYTES || outputLength < HEADER_BYTES || !hasBuffer then (q, BufferTooSmall)
    else
      var k := Taken(q, request.processId, Limit(request.maxEvents, outputLength));
      var entries := Matching(q[..k], request.processId);
      (q[k..], Reply(|entries|, |entries|, entries))
  }

  /** A query is refused, and the queue left alone, exactly when its input is recorded shorter than 16 bytes, its output
      has no room for the 8 bytes of a header, or there is no buffer. */
  lemma {:induction false} QueryRefused(q: seq<Event>, request: Request, inputLength: nat, outputLength: nat, hasBuffer: bool)
    ensures var (left, reply) := DoQuery(q, request, inputLength, outputLength, hasBuffer);
            && (reply == BufferTooSmall <==> inputLength < 16 || outputLength < 8 || !hasBuffer)
            && (reply == BufferTooSmall ==> left == q)
  {
  }

  /** A reply, with 8 bytes of header and 560 for each event, fits its buffer and the request's limit, and stops short of
      the queue's end only at one of the two. It holds the events of the process asked for, or all when none is, that
      left the queue, and its counts say how many. */
  lemma {:induction false} ReplyFits(q: seq<Event>, request: Request, inputLength: nat, outputLength: nat, hasBuffer: bool)
    requires DoQuery(q, request, inputLength, outputLength, hasBuffer).1.Reply?
    ensures var (left, reply) := DoQuery(q, request, inputLength, outputLength, hasBuffer);
            && 8 + |reply.entries| * 560 <= outputLength
            && (request.maxEvents != 0 ==> |reply.entries| <= request.maxEvents)
            && (left != [] ==>
                  || (request.maxEvents != 0 && |reply.entries| == request.maxEvents)
                  || 8 + (|reply.entries| + 1) * 560 > outputLength)
            && reply.totalCount == reply.returnedCount == |reply.entries|
            && |left| <= |q| && left == q[|q| - |left|..]
            && forall e :: multiset(reply.entries)[e] ==
                 if request.processId == 0 || e.processId == request.processId then multiset(q[..|q| - |left|])[e] else 0
  {
    hide Limit, Taken, Matching, Fates, DeliveredOf, Events;
    var max := Limit(request.maxEvents, outputLength);
    var k := Taken(q, request.processId, max);
    DrainsShortestPrefix(q, request.processId, max);
    FatesOwn(q[..k], request.processId);
    FatesMeaning(q[..k], request.processId);
    LimitMeans(request.maxEvents, outputLength, |Matching(q[..k], request.processId)|);
    LimitMeans(request.maxEvents, outputLength, max);
    LimitMeans(request.maxEvents, outputLength, max + 1);
    assert q[..k] == q[..|q| - |q[k..]|];
  }

  lemma {:induction false} LimitMeans(maxEvents: nat, outputLength: nat, n: nat)
    requires outputLength >= 8
    ensures n <= Limit(maxEvents, outputLength) <==> 8 + n * 560 <= outputLength && (maxEvents != 0 ==> n <= maxEvents)
  {
  }

  lemma {:induction false} Ends(q: seq<Event>, processId: nat, max: nat)
    ensures Matching(q[..0], processId) == [] && q[0..] == q
    ensures max == 0 || q == [] ==> Taken(q, processId, max) == 0
  {
  }

  class Ring {
    const slots: array<Event>
    var head: nat
    var count: nat

    ghost predicate Valid()
      reads this
    {
      slots.Length == CAPACITY && head < CAPACITY && count <= CAPACITY
    }

    /** The waiting events, oldest first. */
    ghost function Contents(): (q: seq<Event>)
      reads this, slots
      requires Valid()
      ensures |q| == count
    {
      Window(slots[..], head, count)
    }

    constructor ()
      ensures Valid() && fresh(slots) && Contents() == []
    {
      slots := new Event[CAPACITY](_ => Event(0, []));
      head, count := 0, 0;
    }

    /** WdblQueueDriverEvent. */
    method QueueDriverEvent(source: Source)
      requires Valid()
      modifies this, slots
      ensures Valid()
      ensures Contents() == if source.NoEvent? then old(Contents()) else Push(old(Contents()), source.event)
    {
      if source.NoEvent? {
        return;
      }
      hide Window, Push, Slot;
      Pushed(slots[..], head, count, source.event);
      ghost var before, place := slots[..], Slot(head, count);
      var index := (head + count) % CAPACITY;
      if count == CAPACITY {
        index := head;
        head := (head + 1) % CAPACITY;
      } else {
        count := count + 1;
      }
      assert index == place;
      slots[index] := source.event;
      assert slots[..] == before[place := source.event];
    }

    /** The step of the drain loop: the head moves on by one. */
    method PopFront() returns (e: Event)
      requires Valid() && count > 0
      modifies this`head, this`count
      ensures Valid() && [e] + Contents() == old(Contents())
    {
      Popped(slots[..], head, count);
      e := slots[head];
      head := (head + 1) % CAPACITY;
      count := count - 1;
    }

    /** The loop of the drain, under the lock. */
    method Drain(processId: nat, maxEntries: nat) returns (entries: seq<Event>)
      requires Valid()
      modifies this`head, this`count
      ensures Valid() && |entries| <= maxEntries
      ensures var q := old(Contents());
              var k := Taken(q, processId, maxEntries);
              Contents() == q[k..] && entries == Matching(q[..k], processId)
    {
      hide Window, Matching, Taken;
      entries := [];
      ghost var q, k := Contents(), 0;
      Ends(q, processId, maxEntries);
      while |entries| < maxEntries && count != 0
        invariant Valid() && k <= |q| && Contents() == q[k..]
        invariant entries == Matching(q[..k], processId) && |entries| <= maxEntries
        invariant Taken(q, processId, maxEntries) == k + Taken(q[k..], processId, maxEntries - |entries|)
        decreases count
      {
        TakenStep(q, k, processId, maxEntries - |entries|);
        TakeOne(q, k, processId);
        var e := PopFront();
        assert Contents() == q[k + 1..] && e == q[k];
        if Matches(e, processId) {
          entries := entries + [e];
        }
        k := k + 1;
      }
      Ends(q[k..], processId, maxEntries - |entries|);
    }

    /** WdblHandleQueryDriverEvents, from the decoded request on. */
    method QueryDriverEvents(request: Request, inputLength: nat, outputLength: nat, hasBuffer: bool) returns (reply: Reply)
      requires Valid()
      modifies this`head, this`count
      ensures Valid() && (Contents(), reply) == DoQuery(old(Contents()), request, inputLength, outputLength, hasBuffer)
    {
      hide Taken, Matching;
      if inputLength < REQUEST_BYTES || outputLength < HEADER_BYTES || !hasBuffer {
        return BufferTooSmall;
      }
      var maxEntries := (outputLength - HEADER_BYTES) / EVENT_BYTES;
      if request.maxEvents != 0 && maxEntries > request.maxEvents {
        maxEntries := request.maxEvents;
      }
      var entries := Drain(request.processId, maxEntries);
      reply := Reply(|entries|, |entries|, entries);
    }
  }

  function Texts(q: seq<Event>, json: Event -> string): (texts: seq<string>)
    ensures |texts| == |q|
  {
    seq(|q|, i requires 0 <= i < |q| => json(q[i]))
  }

  /** Turning events into texts before queueing them makes no difference: the deque is the ring's queue as text. */
  lemma {:induction false} TextsPushed(q: seq<Event>, e: Event, json: Event -> string)
    ensures Texts(Push(q, e), json) == Push(Texts(q, json), json(e))
  {
    var before, after := Push(q, e), Push(Texts(q, json), json(e));
    assert forall i :: 0 <= i < |before| ==> Texts(before, json)[i] == json(before[i]) == after[i];
  }

  /** The texts with commas between them. */
  function Joined(texts: seq<string>): string {
    if texts == [] then "" else if |texts| == 1 then texts[0] else texts[0] + ("," + Joined(texts[1..]))
  }

  /** For example. */
  lemma {:induction false} JoinedTwo(a: string, b: string)
    ensures Joined([]) == "" && Joined([a]) == a && Joined([a, b]) == a + ("," + b)
  {
    assert [a, b][1..] == [b];
  }

  /** A comma before every text but the first. */
  function Rest(texts: seq<string>, first: bool): string {
    if texts == [] then "" else (if first then "" else ",") + texts[0] + Rest(texts[1..], false)
  }

  lemma {:induction false} RestJoins(texts: seq<string>)
    ensures Rest(texts, true) == Joined(texts)
    ensures texts != [] ==> Rest(texts, false) == "," + Joined(texts)
    decreases |texts|
  {
    if texts != [] {
      RestJoins(texts[1..]);
      if |texts| > 1 {
        assert "," + texts[0] + ("," + Joined(texts[1..])) == "," + (texts[0] + ("," + Joined(texts[1..])));
      } else {
        assert Rest(texts[1..], false) == "";
        assert "," + texts[0] + "" == "," + texts[0];
      }
    }
  }

  /** The bridge plug-in's queue of event texts. */
  class Deque {
    var events: seq<string>

    constructor ()
      ensures events == []
    {
      events := [];
    }

    /** QueueEvent: push, then pop while more than 256 wait. */
    method QueueEvent(text: string)
      requires |events| <= CAPACITY
      modifies this
      ensures |events| <= CAPACITY && events == Push(old(events), text)
    {
      events := events + [text];
      while |events| > CAPACITY
        invariant events == old(events) + [text] || events == Push(old(events), text)
        decreases |events|
      {
        events := events[1..];
      }
    }

    /** DrainEventsJson: all texts, oldest first, in one array of a good answer. */
    method DrainEventsJson() returns (body: string)
      modifies this
      ensures events == [] && body == "{\"ok\":true," + ("\"events\":[" + Joined(old(events)) + "]") + "}"
    {
      hide Joined;
      var head := "\"events\":[";
      body := head;
      var first := true;
      ghost var whole := events;
      RestJoins(events);
      assert head + Rest(whole, true) == body + Rest(events, first);
      while events != []
        invariant head + Rest(whole, true) == body + Rest(events, first)
        decreases |events|
      {
        ghost var before, tail := body, Rest(events[1..], false);
        var text := events[0];
        assert before + ((if first then "" else ",") + text + tail) == (before + (if first then "" else ",")) + text + tail;
        if !first {
          body := body + ",";
        }
        first := false;
        body := body + text;
        events := events[1..];
      }
      assert body + "" == body;
      body := "{\"ok\":true," + (body + "]") + "}";
    }
  }
}
