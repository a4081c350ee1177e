/** The client's enumeration loop: retry with growing buffers until the driver's list fits. */
module Enumeration {
  import opened Order

  const HEADER_BYTES: nat := 8
  const FIRST_BYTES: nat := 262144
  const MAX_BYTES: nat := 16777216
  const MAX_ATTEMPTS: nat := 3

  const ERROR_INSUFFICIENT_BUFFER: nat := 122
  const ERROR_INVALID_HANDLE: nat := 6
  const ERROR_DEVICE_NOT_CONNECTED: nat := 1167
  const ERROR_GEN_FAILURE: nat := 31
  const ERROR_INVALID_PARAMETER: nat := 87
  const ERROR_NOT_SUPPORTED: nat := 50

  /** One answer of the driver. `entries` are the payload bytes handed over, seen as entries. */
  datatype Answer<T> =
    | Failed(error: nat)
    | Answer(returnedBytes: nat, totalCount: nat, returnedCount: nat, entries: seq<T>)

  /** A driver that keeps state: from a state and the size of an output buffer to the state after and the answer. */
  type Driver<!S, !T> = (S, nat) -> (S, Answer<T>)

  /** What the client finds before the first attempt. */
  datatype Start = NoVector | DriverOff | NoHandle(error: nat) | Ready

  datatype Outcome<T> = Outcome(ok: bool, entries: seq<T>, attempts: nat, error: nat, closesHandle: bool)

  /** The bytes of an answer and its entries agree. */
  ghost predicate WellFormed<S(!new), T>(driver: Driver<S, T>, entryBytes: nat) {
    && 0 < entryBytes <= FIRST_BYTES - HEADER_BYTES
    && forall s, size: nat :: EntriesFit(driver(s, size).1, entryBytes)
  }

  predicate EntriesFit<T>(a: Answer<T>, entryBytes: nat)
    requires entryBytes > 0
  {
    a.Answer? && a.returnedBytes >= HEADER_BYTES ==> |a.entries| == (a.returnedBytes - HEADER_BYTES) / entryBytes
  }

  /** The next buffer size: doubled, at least what the list needs, at most 16 MB. */
  function NextSize(size: nat, totalCount: nat, entryBytes: nat): nat {
    Min(Max(size * 2, HEADER_BYTES + totalCount * entryBytes), MAX_BYTES)
  }

  function LosesHandle(error: nat): bool {
    error == ERROR_INVALID_HANDLE || error == ERROR_DEVICE_NOT_CONNECTED || error == ERROR_GEN_FAILURE
  }

  /** What the loop does from attempt `k` on, with `got` in the caller's vector. */
  function Attempt<S, T>(driver: Driver<S, T>, s: S, entryBytes: nat, k: nat, size: nat, got: seq<T>): (S, Outcome<T>)
    requires k < MAX_ATTEMPTS
    decreases MAX_ATTEMPTS - k
  {
    var (s', answer) := driver(s, size);
    match answer
    case Failed(error) => (s', Outcome(false, got, k + 1, error, LosesHandle(error)))
    case Answer(returnedBytes, totalCount, returnedCount, entries) =>
      if returnedBytes < HEADER_BYTES then (s', Outcome(false, got, k + 1, ERROR_INSUFFICIENT_BUFFER, false))
      else
        var copied := Min(returnedCount, |entries|);
        var now := if copied > 0 then entries[..copied] else got;
        if totalCount <= returnedCount || totalCount <= |entries| || k == MAX_ATTEMPTS - 1 then
          (s', Outcome(true, now, k + 1, 0, false))
        else
          var next := NextSize(size, totalCount, entryBytes);
          if next <= size then (s', Outcome(false, now, k + 1, ERROR_INSUFFICIENT_BUFFER, false))
          else Attempt(driver, s', entryBytes, k + 1, next, now)
  }

  /** QueryDriverEnumerationResult against a driver in state `s`. */
  function Query<S, T>(driver: Driver<S, T>, s: S, entryBytes: nat, start: Start): (S, Outcome<T>) {
    match start
    case NoVector => (s, Outcome(false, [], 0, ERROR_INVALID_PARAMETER, false))
    case DriverOff => (s, Outcome(false, [], 0, ERROR_NOT_SUPPORTED, false))
    case NoHandle(error) => (s, Outcome(false, [], 0, error, false))
    case Ready => Attempt(driver, s, entryBytes, 0, FIRST_BYTES, [])
  }

  /** QueryDriverEnumerationResult. */
  method QueryDriverEnumerationResult<S(!new), T>(driver: Driver<S, T>, s: S, entryBytes: nat, start: Start)
    returns (after: S, result: Outcome<T>)
    requires WellFormed(driver, entryBytes)
    ensures (after, result) == Query(driver, s, entryBytes, start)
  {
    after := s;
    if start.NoVector? {
      return after, Outcome(false, [], 0, ERROR_INVALID_PARAMETER, false);
    }
    if start.DriverOff? {
      return after, Outcome(false, [], 0, ERROR_NOT_SUPPORTED, false);
    }
    if start.NoHandle? {
      return after, Outcome(false, [], 0, start.error, false);
    }
    hide NextSize, LosesHandle;
    var entries: seq<T> := [];
    var outputSize: nat := FIRST_BYTES;
    var attempt := 0;
    while attempt < MAX_ATTEMPTS
      invariant 0 <= attempt < MAX_ATTEMPTS
      invariant Attempt(driver, after, entryBytes, attempt, outputSize, entries)
                == Attempt(driver, s, entryBytes, 0, FIRST_BYTES, [])
      decreases MAX_ATTEMPTS - attempt
    {
      var (state, answer) := driver(after, outputSize);
      assert EntriesFit(driver(after, outputSize).1, entryBytes);
      after := state;
      if answer.Failed? {
        return after, Outcome(false, entries, attempt + 1, answer.error, LosesHandle(answer.error));
      }
      if answer.returnedBytes < HEADER_BYTES {
        return after, Outcome(false, entries, attempt + 1, ERROR_INSUFFICIENT_BUFFER, false);
      }
      var availableCount := (answer.returnedBytes - HEADER_BYTES) / entryBytes;
      var copyCount := answer.returnedCount;
      if copyCount > availableCount {
        copyCount := availableCount;
      }
      if copyCount > 0 {
        entries := answer.entries[..copyCount];
      }
      if answer.totalCount <= answer.returnedCount || answer.totalCount <= availableCount || attempt == 2 {
        return after, Outcome(true, entries, attempt + 1, 0, false);
      }
      var nextSize := GrownSize(outputSize, answer.totalCount, entryBytes);
      if nextSize <= outputSize {
        return after, Outcome(false, entries, attempt + 1, ERROR_INSUFFICIENT_BUFFER, false);
      }
      outputSize := nextSize;
      attempt := attempt + 1;
    }
  }

  method GrownSize(outputSize: nat, totalCount: nat, entryBytes: nat) returns (nextSize: nat)
    ensures nextSize == NextSize(outputSize, totalCount, entryBytes)
  {
    var requiredBytes := HEADER_BYTES + totalCount * entryBytes;
    nextSize := outputSize * 2;
    if nextSize < requiredBytes {
      nextSize := requiredBytes;
    }
    if nextSize > MAX_BYTES {
      nextSize := MAX_BYTES;
    }
  }

  /** What the client is told without an attempt. */
  lemma {:induction false} NotStarted<S, T>(driver: Driver<S, T>, s: S, entryBytes: nat, error: nat)
    ensures Query(driver, s, entryBytes, NoVector) == (s, Outcome(false, [], 0, 87, false))
    ensures Query(driver, s, entryBytes, DriverOff) == (s, Outcome(false, [], 0, 50, false))
    ensures Query(driver, s, entryBytes, NoHandle(error)) == (s, Outcome(false, [], 0, error, false))
  {
  }

  /** What one answer of the driver leads to, whatever it says: a failure or a short answer ends the loop with the entries
      of earlier attempts, and three of the errors close the handle; otherwise the entries handed over, cut to the count
      returned, take their place unless there are none; the loop then ends well when the count covers the total or this
      was the third attempt, ends badly when no larger buffer is allowed, and goes on with twice the buffer, or what the
      total needs, up to 16 MB. */
  lemma {:induction false} OneAnswer<S, T>(driver: Driver<S, T>, s: S, entryBytes: nat, k: nat, size: nat, got: seq<T>)
    requires k < 3
    ensures var (s', answer) := driver(s, size);
            var result := Attempt(driver, s, entryBytes, k, size, got);
            && (answer.Failed? ==>
                  result == (s', Outcome(false, got, k + 1, answer.error, answer.error in {6, 31, 1167})))
            && (answer.Answer? && answer.returnedBytes < 8 ==> result == (s', Outcome(false, got, k + 1, 122, false)))
            && (answer.Answer? && answer.returnedBytes >= 8 ==>
                  var n := if answer.returnedCount <= |answer.entries| then answer.returnedCount else |answer.entries|;
                  var now := if n == 0 then got else answer.entries[..n];
                  var needed := 8 + answer.totalCount * entryBytes;
                  var larger := if size * 2 >= needed then size * 2 else needed;
                  var next := if larger <= 16777216 then larger else 16777216;
                  if answer.totalCount <= answer.returnedCount || answer.totalCount <= |answer.entries| || k == 2 then
                    result == (s', Outcome(true, now, k + 1, 0, false))
                  else if next <= size then result == (s', Outcome(false, now, k + 1, 122, false))
                  else result == Attempt(driver, s', entryBytes, k + 1, next, now))
  {
    var answer := driver(s, size).1;
    if answer.Answer? && answer.returnedBytes >= 8 {
      var n := if answer.returnedCount <= |answer.entries| then answer.returnedCount else |answer.entries|;
      assert n == Min(answer.returnedCount, |answer.entries|);
      assert NextSize(size, answer.totalCount, entryBytes)
             == Min(Max(size * 2, 8 + answer.totalCount * entryBytes), 16777216);
    }
  }

  // Drivers that walk a list.

  /** Entries of `entryBytes` that fit behind the header of an output buffer. */
  function Room(size: nat, entryBytes: nat): nat
    requires entryBytes > 0
  {
    if size < HEADER_BYTES then 0 else (size - HEADER_BYTES) / entryBytes
  }

  /** WdblHandleQueryProcessList and the handlers like it, over the list the system has at that moment: it counts
      all entries and writes those that fit. */
  function ListAnswer<T>(list: seq<T>, entryBytes: nat, size: nat): (a: Answer<T>)
    requires entryBytes > 0
  {
    if size < HEADER_BYTES then Failed(ERROR_INSUFFICIENT_BUFFER)
    else
      var returned := Min(|list|, Room(size, entryBytes));
      Answer(HEADER_BYTES + returned * entryBytes, |list|, returned, list[..returned])
  }

  /** A driver whose list at attempt `k` is `lists[k]`; its state is the number of attempts so far. */
  function ListDriver<T>(lists: seq<seq<T>>, entryBytes: nat): Driver<int, T>
    requires entryBytes > 0
  {
    (k: int, size: nat) =>
      (k + 1, if 0 <= k < |lists| then ListAnswer(lists[k], entryBytes, size) else Failed(ERROR_INSUFFICIENT_BUFFER))
  }

  function Enumerate<T>(lists: seq<seq<T>>, entryBytes: nat): Outcome<T>
    requires entryBytes > 0
  {
    Query(ListDriver(lists, entryBytes), 0, entryBytes, Ready).1
  }

  lemma {:induction false} RoomMeans(size: nat, n: nat, entryBytes: nat)
    requires entryBytes > 0 && size >= HEADER_BYTES
    ensures n <= Room(size, entryBytes) <==> HEADER_BYTES + n * entryBytes <= size
  {
    var room := Room(size, entryBytes);
    var spare := (size - HEADER_BYTES) % entryBytes;
    assert size - HEADER_BYTES == room * entryBytes + spare;
    if n <= room {
      assert n * entryBytes <= room * entryBytes;
    } else {
      assert (room + 1) * entryBytes <= n * entryBytes;
    }
  }

  /** A list handler needs 8 bytes for the header; it counts the whole list and hands over the longest front of it that
      fits behind them. */
  lemma {:induction false} ListAnswers<T>(list: seq<T>, entryBytes: nat, size: nat)
    requires entryBytes > 0
    ensures var a := ListAnswer(list, entryBytes, size);
            if size < 8 then a == Failed(122)
            else
              && a.Answer? && a.totalCount == |list| && a.returnedCount == |a.entries| <= |list|
              && a.entries == list[..|a.entries|] && a.returnedBytes == 8 + |a.entries| * entryBytes <= size
              && (|a.entries| < |list| ==> 8 + (|a.entries| + 1) * entryBytes > size)
  {
    if size >= 8 {
      var returned := Min(|list|, Room(size, entryBytes));
      RoomMeans(size, returned, entryBytes);
      RoomMeans(size, returned + 1, entryBytes);
      assert returned * entryBytes >= 0;
    }
  }

  lemma {:induction false} AtLeast(d: int, e: nat)
    requires d >= 1
    ensures d * e >= e
  {
    assert (d - 1) * e >= 0;
  }

  lemma {:induction false} Divides(n: nat, entryBytes: nat)
    requires entryBytes > 0
    ensures n * entryBytes / entryBytes == n
  {
    var product := n * entryBytes;
    var q, r := product / entryBytes, product % entryBytes;
    assert product == q * entryBytes + r;
    assert (n - q) * entryBytes == r && (q - n) * entryBytes == -r;
    if n > q { AtLeast(n - q, entryBytes); }
    if n < q { AtLeast(q - n, entryBytes); }
  }

  lemma {:induction false} ListDriverFits<T>(lists: seq<seq<T>>, entryBytes: nat)
    requires 0 < entryBytes <= FIRST_BYTES - HEADER_BYTES
    ensures WellFormed(ListDriver(lists, entryBytes), entryBytes)
  {
    forall k: int, size: nat
      ensures EntriesFit(ListDriver(lists, entryBytes)(k, size).1, entryBytes)
    {
      if 0 <= k < |lists| && size >= HEADER_BYTES { Divides(Min(|lists[k]|, Room(size, entryBytes)), entryBytes); }
    }
  }

  lemma {:induction false} NextGrows(size: nat, totalCount: nat, entryBytes: nat)
    requires HEADER_BYTES + totalCount * entryBytes > size > 0
    ensures NextSize(size, totalCount, entryBytes) <= size <==> size >= MAX_BYTES
  {
  }

  /** One attempt against a list: it ends the loop exactly when the whole list fits or no attempt is left. */
  lemma {:induction false} OneAttempt<T>(lists: seq<seq<T>>, entryBytes: nat, k: nat, size: nat, got: seq<T>)
    requires 0 < entryBytes <= FIRST_BYTES - HEADER_BYTES && k < |lists| == MAX_ATTEMPTS && size >= FIRST_BYTES
    ensures var driver, list := ListDriver(lists, entryBytes), lists[k];
            var room := Room(size, entryBytes);
            var now := if list == [] then got else list[..Min(|list|, room)];
            && room >= 1
            && Attempt(driver, k, entryBytes, k, size, got) ==
               if HEADER_BYTES + |list| * entryBytes <= size || k == MAX_ATTEMPTS - 1 then
                 (k + 1, Outcome(true, now, k + 1, 0, false))
               else if size >= MAX_BYTES then (k + 1, Outcome(false, now, k + 1, ERROR_INSUFFICIENT_BUFFER, false))
               else Attempt(driver, k + 1, entryBytes, k + 1, NextSize(size, |list|, entryBytes), now)
  {
    hide NextSize, LosesHandle;
    if HEADER_BYTES + |lists[k]| * entryBytes > size { NextGrows(size, |lists[k]|, entryBytes); }
    var list := lists[k];
    RoomMeans(size, 1, entryBytes);
    RoomMeans(size, |list|, entryBytes);
    var returned := Min(|list|, Room(size, entryBytes));
    assert list[..returned][..returned] == list[..returned];
    assert returned * entryBytes >= 0;
    hide Room;
    assert ListDriver(lists, entryBytes)(k, size)
           == (k + 1, Answer(HEADER_BYTES + returned * entryBytes, |list|, returned, list[..returned]));
  }

  /** Against a list that stays the same the loop succeeds exactly when header and list fit in 16 MB; it then needs
      at most two attempts and hands over the whole list in order. */
  lemma {:induction false} UnchangedList<T>(list: seq<T>, entryBytes: nat)
    requires 0 < entryBytes <= FIRST_BYTES - HEADER_BYTES
    ensures var result := Enumerate([list, list, list], entryBytes);
            && (result.ok <==> 8 + |list| * entryBytes <= 16777216)
            && (result.ok ==> result.entries == list)
            && (!result.ok ==> result.error == 122 && !result.closesHandle)
            && result.attempts == (if 8 + |list| * entryBytes <= 262144 then 1 else 2)
  {
    var lists := [list, list, list];
    OneAttempt(lists, entryBytes, 0, FIRST_BYTES, []);
    RoomMeans(FIRST_BYTES, |list|, entryBytes);
    if HEADER_BYTES + |list| * entryBytes > FIRST_BYTES {
      var next := NextSize(FIRST_BYTES, |list|, entryBytes);
      OneAttempt(lists, entryBytes, 1, next, list[..Room(FIRST_BYTES, entryBytes)]);
      RoomMeans(next, |list|, entryBytes);
    }
  }

  /** When the list may change between attempts, a success on the first attempt hands over the list. On a later one
      it hands over the list of that attempt exactly when that list is not empty (an empty answer leaves the earlier
      attempt's entries in place) and fits; only the third attempt can succeed without fitting. */
  lemma {:induction false} ChangingList<T>(lists: seq<seq<T>>, entryBytes: nat)
    requires 0 < entryBytes <= FIRST_BYTES - HEADER_BYTES && |lists| == MAX_ATTEMPTS
    ensures var result := Enumerate(lists, entryBytes);
            result.ok ==>
              && 1 <= result.attempts <= 3
              && var list := lists[result.attempts - 1];
              && (result.attempts == 1 ==> result.entries == list)
              && (result.attempts == 2 ==> (result.entries == list <==> list != []))
              && (result.attempts == 3 ==>
                    var first := NextSize(FIRST_BYTES, |lists[0]|, entryBytes);
                    var size := NextSize(first, |lists[1]|, entryBytes);
                    (result.entries == list <==> list != [] && HEADER_BYTES + |list| * entryBytes <= size))
  {
    hide Attempt, ListDriver;
    OneAttempt(lists, entryBytes, 0, FIRST_BYTES, []);
    RoomMeans(FIRST_BYTES, |lists[0]|, entryBytes);
    if HEADER_BYTES + |lists[0]| * entryBytes > FIRST_BYTES {
      var got := lists[0][..Min(|lists[0]|, Room(FIRST_BYTES, entryBytes))];
      assert got != [];
      LaterAttempts(lists, entryBytes, NextSize(FIRST_BYTES, |lists[0]|, entryBytes), got);
    }
  }

  lemma {:induction false} LaterAttempts<T>(lists: seq<seq<T>>, entryBytes: nat, size: nat, got: seq<T>)
    requires 0 < entryBytes <= FIRST_BYTES - HEADER_BYTES && |lists| == MAX_ATTEMPTS && size >= FIRST_BYTES && got != []
    ensures var result := Attempt(ListDriver(lists, entryBytes), 1, entryBytes, 1, size, got).1;
            result.ok ==>
              || (result.attempts == 2 && (result.entries == lists[1] <==> lists[1] != []))
              || (result.attempts == 3 &&
                  (result.entries == lists[2] <==>
                     lists[2] != []
                     && HEADER_BYTES + |lists[2]| * entryBytes <= NextSize(size, |lists[1]|, entryBytes)))
  {
    hide Attempt, ListDriver;
    OneAttempt(lists, entryBytes, 1, size, got);
    RoomMeans(size, |lists[1]|, entryBytes);
    if HEADER_BYTES + |lists[1]| * entryBytes > size && size < MAX_BYTES {
      var more := lists[1][..Min(|lists[1]|, Room(size, entryBytes))];
      assert more != [] && lists[1] != [];
      var larger := NextSize(size, |lists[1]|, entryBytes);
      OneAttempt(lists, entryBytes, 2, larger, more);
      RoomMeans(larger, |lists[2]|, entryBytes);
    }
  }

  /** Forty thousand entries of eight bytes that are gone at the second attempt are handed over as a success. */
  lemma {:induction false} StaleEntries<T>(list: seq<T>)
    requires |list| == 40000
    ensures var result := Enumerate([list, [], []], 8);
            result.ok && result.attempts == 2 && result.entries == list[..32767]
  {
    var lists := [list, [], []];
    OneAttempt(lists, 8, 0, FIRST_BYTES, []);
    OneAttempt(lists, 8, 1, NextSize(FIRST_BYTES, 40000, 8), list[..32767]);
  }

  /** A list that outgrows the third buffer is handed over truncated, as a success. */
  lemma {:induction false} Truncated<T>(first: seq<T>, second: seq<T>, third: seq<T>)
    requires |first| == 40000 && |second| == 80000 && |third| == 200000
    ensures var result := Enumerate([first, second, third], 8);
            result.ok && result.attempts == 3 && result.entries == third[..131071]
  {
    var lists := [first, second, third];
    OneAttempt(lists, 8, 0, FIRST_BYTES, []);
    OneAttempt(lists, 8, 1, 524288, first[..32767]);
    OneAttempt(lists, 8, 2, 1048576, second[..65535]);
  }

  /** The method against an unchanging list. */
  method EnumerateUnchanged<T>(list: seq<T>, entryBytes: nat) returns (result: Outcome<T>)
    requires 0 < entryBytes <= FIRST_BYTES - HEADER_BYTES
    ensures result.ok <==> HEADER_BYTES + |list| * entryBytes <= MAX_BYTES
    ensures result.ok ==> result.entries == list
    ensures result.attempts <= 2
  {
    ListDriverFits([list, list, list], entryBytes);
    UnchangedList(list, entryBytes);
    var k: int;
    k, result := QueryDriverEnumerationResult(ListDriver([list, list, list], entryBytes), 0, entryBytes, Ready);
  }

  /** The method against a list that may change: a success hands over the list of its last attempt exactly when that
      list fits and is not what an empty answer leaves standing. */
  method EnumerateChanging<T>(lists: seq<seq<T>>, entryBytes: nat) returns (result: Outcome<T>)
    requires 0 < entryBytes <= FIRST_BYTES - HEADER_BYTES && |lists| == MAX_ATTEMPTS
    ensures result.ok ==> 1 <= result.attempts <= 3
    ensures result.ok && result.attempts == 1 ==> result.entries == lists[0]
    ensures result.ok && result.attempts == 2 ==> (result.entries == lists[1] <==> lists[1] != [])
    ensures result.ok && result.attempts == 3 ==>
              var size := NextSize(NextSize(FIRST_BYTES, |lists[0]|, entryBytes), |lists[1]|, entryBytes);
              (result.entries == lists[2] <==> lists[2] != [] && HEADER_BYTES + |lists[2]| * entryBytes <= size)
  {
    ListDriverFits(lists, entryBytes);
    ChangingList(lists, entryBytes);
    var k: int;
    k, result := QueryDriverEnumerationResult(ListDriver(lists, entryBytes), 0, entryBytes, Ready);
  }
}
