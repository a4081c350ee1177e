/** Reading driver events from end to end: the client's packet, the driver's decoder and handler, the client's loop. */
module DriverEvents {
  import opened Bits
  import Codec = IoctlCodec
  import Driver = IoctlDriver
  import Queue = EventQueue
  import Ring = EventRing
  import Client = Enumeration

  const ERROR_CRC: nat := 23
  const EVENTS_CODE: Word := 0x2220A0

  type Events = seq<Queue.Event>

  /** The Win32 code the client sees for a status of the decoder. */
  function ErrorOf(status: Codec.Status): nat {
    match status
    case Success => 0
    case InvalidParameter => Client.ERROR_INVALID_PARAMETER
    case BufferTooSmall => Client.ERROR_INSUFFICIENT_BUFFER
    case DataError => ERROR_CRC
  }

  function AnswerOf(reply: Ring.Reply): Client.Answer<Queue.Event> {
    match reply
    case BufferTooSmall => Client.Failed(Client.ERROR_INSUFFICIENT_BUFFER)
    case Reply(totalCount, returnedCount, entries) =>
      Client.Answer.Answer(Client.HEADER_BYTES + |entries| * Ring.EVENT_BYTES, totalCount, returnedCount, entries)
  }

  /** The request in the front of a decoded buffer. */
  function RequestIn(buffer: Bytes): Ring.Request
    requires |buffer| >= 8
  {
    Ring.Request(Codec.WordAt(buffer, 0), Codec.WordAt(buffer, 4))
  }

  /** WdblDeviceControl for the event query, on the queue. */
  function Dispatch(q: Events, buffer: Bytes, inputLength: nat, outputLength: nat): (Events, Client.Answer<Queue.Event>)
    requires inputLength <= |buffer|
  {
    var d := Codec.Decode(buffer, inputLength, EVENTS_CODE);
    if d.status != Codec.Success || |buffer| < 8 then (q, Client.Failed(ErrorOf(d.status)))
    else
      var (left, reply) := Ring.DoQuery(q, RequestIn(d.buffer), d.length, outputLength, true);
      (left, AnswerOf(reply))
  }

  /** WdblDeviceControl for the event query: the buffer is decoded in place, the ring drained. */
  method DeviceControl(ring: Ring.Ring, buffer: array?<Byte>, inputLength: Word, outputLength: nat)
    returns (answer: Client.Answer<Queue.Event>)
    requires ring.Valid() && (buffer != null ==> inputLength <= buffer.Length)
    modifies ring`head, ring`count, buffer
    ensures ring.Valid()
    ensures buffer == null ==> ring.Contents() == old(ring.Contents()) && answer == Client.Failed(Client.ERROR_INVALID_PARAMETER)
    ensures buffer != null ==>
              (ring.Contents(), answer) == Dispatch(old(ring.Contents()), old(buffer[..]), inputLength, outputLength)
  {
    hide Codec.Decode, Ring.DoQuery;
    ghost var before := if buffer == null then [] else buffer[..];
    var status, length := Driver.DecodeIoctlInput(buffer, inputLength, EVENTS_CODE);
    if buffer == null || status != Codec.Success {
      return Client.Failed(ErrorOf(status));
    }
    DecodedIsLong(before, inputLength);
    var reply := ring.QueryDriverEvents(RequestIn(buffer[..]), length, outputLength, true);
    answer := AnswerOf(reply);
  }

  lemma {:induction false} DecodedIsLong(buffer: Bytes, inputLength: nat)
    requires inputLength <= |buffer| && Codec.Decode(buffer, inputLength, EVENTS_CODE).status == Codec.Success
    ensures |buffer| >= Codec.HEADER_SIZE
  {
  }

  /** The driver as the client's loop meets it when it sends this payload; `slack` is what the system buffer holds
      behind the packet, for each size of output buffer. */
  function EventDriver(payload: Bytes, slack: nat -> Bytes): Client.Driver<Events, Queue.Event>
    requires |payload| < WORD_LIMIT - Codec.HEADER_SIZE
  {
    (q: Events, size: nat) =>
      var packet := Codec.Encode(EVENTS_CODE, payload);
      Dispatch(q, packet + slack(size), |packet|, size)
  }

  /** A 16-byte event request is drained exactly when the word at its byte 12, which the decoder takes for the input
      length, is at least 16. */
  lemma {:induction false} RequestDrained(q: Events, payload: Bytes, slack: Bytes, outputLength: nat)
    requires |payload| == Ring.REQUEST_BYTES && outputLength >= Client.HEADER_BYTES
    ensures var packet := Codec.Encode(0x2220A0, payload);
            var (left, answer) := Dispatch(q, packet + slack, |packet|, outputLength);
            var request := Ring.Request(Codec.WordAt(payload, 0), Codec.WordAt(payload, 4));
            var k := Queue.Taken(q, request.processId, Ring.Limit(request.maxEvents, outputLength));
            var out := Queue.Matching(q[..k], request.processId);
            if Codec.WordAt(payload, 12) >= 16 then
              left == q[k..] && answer == Client.Answer.Answer(8 + |out| * 560, |out|, |out|, out)
            else left == q && answer == Client.Failed(122)
  {
    hide Codec.Decode, Codec.Encode, Codec.OverwrittenSize, Codec.ToWord, Queue.Taken, Queue.Matching;
    var packet := Codec.Encode(EVENTS_CODE, payload);
    Codec.RecordedLength(payload, slack, EVENTS_CODE);
    Codec.LengthIsRight(payload);
    var d := Codec.Decode(packet + slack, |packet|, EVENTS_CODE);
    assert forall i :: 0 <= i < 16 ==> d.buffer[i] == d.buffer[..16][i] == payload[i];
    assert RequestIn(d.buffer) == RequestIn(payload);
  }

  /** The client reads at most once: one attempt hands over exactly the events that left the queue, or, when the word
      at byte 12 is below 16, fails with nothing handed over and nothing taken. */
  lemma {:induction false} ReadOnce(q: Events, payload: Bytes, slack: nat -> Bytes)
    requires |payload| == Ring.REQUEST_BYTES
    ensures var request := RequestIn(payload);
            var k := Queue.Taken(q, request.processId, Ring.Limit(request.maxEvents, Client.FIRST_BYTES));
            Client.Query(EventDriver(payload, slack), q, Ring.EVENT_BYTES, Client.Ready) ==
            if Codec.WordAt(payload, 12) >= Ring.REQUEST_BYTES then
              (q[k..], Client.Outcome(true, Queue.Matching(q[..k], request.processId), 1, 0, false))
            else (q, Client.Outcome(false, [], 1, Client.ERROR_INSUFFICIENT_BUFFER, false))
  {
    hide Dispatch, Codec.WordAt, Codec.Encode, Queue.Taken, Queue.Matching, Ring.Limit;
    var size := Client.FIRST_BYTES;
    var packet := Codec.Encode(EVENTS_CODE, payload);
    RequestDrained(q, payload, slack(size), size);
    assert EventDriver(payload, slack)(q, size) == Dispatch(q, packet + slack(size), |packet|, size);
    var request := RequestIn(payload);
    var out := Queue.Matching(q[..Queue.Taken(q, request.processId, Ring.Limit(request.maxEvents, size))], request.processId);
    assert out[..|out|] == out;
  }

  /** The request QueryDriverEvents builds: its last two words stay zero. */
  function ClientRequest(processId: Word, maxEvents: Word): (payload: Bytes)
    ensures |payload| == Ring.REQUEST_BYTES
  {
    Codec.WordBytes(processId) + Codec.WordBytes(maxEvents) + Codec.WordBytes(0) + Codec.WordBytes(0)
  }

  lemma {:induction false} ClientRequestWords(processId: Word, maxEvents: Word)
    ensures var payload := ClientRequest(processId, maxEvents);
            && Codec.WordAt(payload, 0) == processId && Codec.WordAt(payload, 4) == maxEvents
            && Codec.WordAt(payload, 8) == 0 && Codec.WordAt(payload, 12) == 0
  {
    hide Codec.WordAt, Codec.WordBytes;
    var payload := ClientRequest(processId, maxEvents);
    assert payload[0..4] == Codec.WordBytes(processId) && payload[4..8] == Codec.WordBytes(maxEvents);
    assert payload[8..12] == payload[12..16] == Codec.WordBytes(0);
    Codec.WordAtBytes(payload, 0, processId);
    Codec.WordAtBytes(payload, 4, maxEvents);
    Codec.WordAtBytes(payload, 8, 0);
    Codec.WordAtBytes(payload, 12, 0);
  }

  /** A packet that the decoder refuses is answered with its status as a Win32 code, and takes nothing. */
  lemma {:induction false} RefusedPacket(q: Events, buffer: Bytes, inputLength: nat, outputLength: nat)
    requires inputLength <= |buffer| && Codec.Decode(buffer, inputLength, 0x2220A0).status != Codec.Success
    ensures var (left, answer) := Dispatch(q, buffer, inputLength, outputLength);
            && left == q
            && answer == Client.Failed(match Codec.Decode(buffer, inputLength, 0x2220A0).status
                                       case InvalidParameter => 87
                                       case BufferTooSmall => 122
                                       case _ => 23)
  {
    hide Codec.Decode;
  }

  /** So the client's own request is never answered with events: its length is recorded as zero. */
  lemma {:induction false} ClientNeverReads(q: Events, processId: Word, maxEvents: Word, slack: nat -> Bytes)
    ensures Client.Query(EventDriver(ClientRequest(processId, maxEvents), slack), q, Ring.EVENT_BYTES, Client.Ready)
            == (q, Client.Outcome(false, [], 1, Client.ERROR_INSUFFICIENT_BUFFER, false))
  {
    var payload := ClientRequest(processId, maxEvents);
    assert payload[12] == payload[13] == payload[14] == payload[15] == 0;
    ReadOnce(q, payload, slack);
  }

  lemma {:induction false} EventDriverFits(payload: Bytes, slack: nat -> Bytes)
    requires |payload| < WORD_LIMIT - Codec.HEADER_SIZE
    ensures Client.WellFormed(EventDriver(payload, slack), Ring.EVENT_BYTES)
  {
    forall q: Events, size: nat
      ensures Client.EntriesFit(EventDriver(payload, slack)(q, size).1, Ring.EVENT_BYTES)
    {
      hide Codec.Decode, Codec.Encode, Ring.DoQuery, AnswerOf, RequestIn;
      var packet := Codec.Encode(EVENTS_CODE, payload);
      var d := Codec.Decode(packet + slack(size), |packet|, EVENTS_CODE);
      AnswerFits(Ring.DoQuery(q, RequestIn(d.buffer), d.length, size, true).1);
    }
  }

  lemma {:induction false} AnswerFits(reply: Ring.Reply)
    ensures Client.EntriesFit(AnswerOf(reply), Ring.EVENT_BYTES)
  {
    if reply.Reply? { Client.Divides(|reply.entries|, Ring.EVENT_BYTES); }
  }

  /** QueryDriverEvents, with a driver whose queue holds `q`. */
  method QueryDriverEvents(q: Events, hasVector: bool, processId: Word, maxEvents: Word, slack: nat -> Bytes, start: Client.Start)
    returns (left: Events, result: Client.Outcome<Queue.Event>)
    requires start.NoVector? <==> !hasVector
    ensures left == q && !result.ok && result.entries == []
    ensures !hasVector || maxEvents == 0 ==> result.error == Client.ERROR_INVALID_PARAMETER
    ensures hasVector && maxEvents != 0 && start.Ready? ==> result.error == Client.ERROR_INSUFFICIENT_BUFFER
  {
    if !hasVector || maxEvents == 0 {
      return q, Client.Outcome(false, [], 0, Client.ERROR_INVALID_PARAMETER, false);
    }
    var payload := ClientRequest(processId, maxEvents);
    EventDriverFits(payload, slack);
    ClientNeverReads(q, processId, maxEvents, slack);
    hide EventDriver;
    left, result := Client.QueryDriverEnumerationResult(EventDriver(payload, slack), q, Ring.EVENT_BYTES, start);
  }
}
