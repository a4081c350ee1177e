/** The plug-in's reader: extraction from the shared read buffer, and waiting for a response among notifications. */
module FramingReader {
  import opened Frames
  import opened TextLines
  import opened Framing
  import opened Order

  datatype Search = Found(message: string, rest: string) | NotFound(rest: string)

  /** What a read attempt brings; `Deadline` when the time is up before reading. */
  datatype Read = Data(chunk: string) | Timeout | Broken | Deadline

  // When the inner loop ends.

  /** The loop that extracts messages and drops those that do not satisfy `p` comes to an end. */
  predicate Ends(b: string, p: string -> bool)
    decreases |b|
  {
    match Extract(b)
    case Nothing => true
    case Message(m, rest) => p(m) || (|rest| < |b| && Ends(rest, p))
  }

  datatype Round = Over | At(buffer: string)

  /** The loop after `n` rounds: over, or about to extract from this buffer. */
  function After(b: string, p: string -> bool, n: nat): Round
    decreases n
  {
    if n == 0 then At(b)
    else
      match Extract(b)
      case Nothing => Over
      case Message(m, rest) => if p(m) then Over else After(rest, p, n - 1)
  }

  /** A message that is no response and leaves the buffer as it was: its announced end wraps to zero. */
  predicate Stuck(b: string, p: string -> bool) {
    Extract(b).Message? && !p(Extract(b).body) && Wrap(HeadOf(b).offset + HeadOf(b).length) == 0
  }

  lemma {:induction false} RunsDown(b: string, p: string -> bool)
    requires Ends(b, p)
    ensures After(b, p, |b| + 1) == Over
    decreases |b|
  {
    hide Extract;
    if Extract(b).Message? && !p(Extract(b).body) {
      RunsDown(Extract(b).rest, p);
      StaysOver(Extract(b).rest, p, |Extract(b).rest| + 1, |b|);
    }
  }

  lemma {:induction false} StaysOver(b: string, p: string -> bool, n: nat, more: nat)
    requires After(b, p, n) == Over && n <= more
    ensures After(b, p, more) == Over
    decreases n
  {
    hide Extract;
    if Extract(b).Message? && !p(Extract(b).body) { StaysOver(Extract(b).rest, p, n - 1, more - 1); }
  }

  lemma {:induction false} NeverOver(b: string, p: string -> bool, n: nat)
    requires !Ends(b, p)
    ensures After(b, p, n).At?
    decreases n
  {
    hide Extract;
    if n > 0 {
      Progress(b);
      NeverOver(Extract(b).rest, p, n - 1);
    }
  }

  lemma {:induction false} GetsStuck(b: string, p: string -> bool) returns (n: nat)
    requires !Ends(b, p)
    ensures After(b, p, n).At? && Stuck(After(b, p, n).buffer, p)
    decreases |b|
  {
    hide Extract, HeadOf, Wrap;
    Progress(b);
    if Extract(b).rest == b {
      n := 0;
    } else {
      n := GetsStuck(Extract(b).rest, p);
      n := n + 1;
    }
  }

  lemma {:induction false} StuckStays(b: string, p: string -> bool, n: nat)
    requires After(b, p, n).At? && Stuck(After(b, p, n).buffer, p)
    ensures !Ends(b, p)
    decreases n
  {
    hide Extract, HeadOf, Wrap;
    if n == 0 {
      Progress(b);
    } else {
      StuckStays(Extract(b).rest, p, n - 1);
    }
  }

  /** The loop comes to an end exactly when it never reaches a message that is no response and whose announced end
      wraps to zero; otherwise no number of rounds is enough. */
  lemma {:induction false} EndsExactly(b: string, p: string -> bool)
    ensures Ends(b, p) <==> exists n: nat :: After(b, p, n) == Over
    ensures Ends(b, p) <==> forall n: nat :: After(b, p, n).At? ==> !Stuck(After(b, p, n).buffer, p)
  {
    if Ends(b, p) {
      RunsDown(b, p);
      forall n: nat | After(b, p, n).At?
        ensures !Stuck(After(b, p, n).buffer, p)
      {
        if Stuck(After(b, p, n).buffer, p) { StuckStays(b, p, n); }
      }
    } else {
      var m := GetsStuck(b, p);
      forall n: nat
        ensures After(b, p, n) != Over
      {
        NeverOver(b, p, n);
      }
    }
  }

  /** On a stream that announces no wrapping end it always does. */
  lemma {:induction false} CalmEnds(b: string, p: string -> bool)
    requires Calm(b)
    ensures Ends(b, p)
    decreases |b|
  {
    hide Extract;
    if Extract(b).Message? {
      Progress(b);
      CalmEnds(Extract(b).rest, p);
    }
  }

  /** Extracting until a message satisfies `p`; the others are notifications and are dropped. */
  function Until(b: string, p: string -> bool): Search
    requires Ends(b, p)
    decreases |b|
  {
    match Extract(b)
    case Nothing => NotFound(b)
    case Message(m, rest) => if p(m) then Found(m, rest) else Until(rest, p)
  }

  function FirstIndex(ms: seq<string>, p: string -> bool): (k: nat)
    ensures k <= |ms| && (k < |ms| ==> p(ms[k])) && forall j :: 0 <= j < k ==> !p(ms[j])
  {
    if ms == [] || p(ms[0]) then 0 else 1 + FirstIndex(ms[1..], p)
  }

  /** The search picks the first response of the stream and leaves exactly the messages behind it. */
  lemma {:induction false} UntilMeaning(b: string, p: string -> bool)
    requires Calm(b)
    ensures Ends(b, p)
    ensures var (ms, k, s) := (Drain(b).0, FirstIndex(Drain(b).0, p), Until(b, p));
            && (s.Found? <==> k < |ms|)
            && (s.Found? ==> s.message == ms[k] && Calm(s.rest) && Drain(s.rest) == (ms[k + 1..], Drain(b).1))
            && (s.NotFound? ==> s.rest == Drain(b).1)
    decreases |b|
  {
    hide Extract;
    CalmEnds(b, p);
    if Extract(b).Message? {
      Progress(b);
      var m, rest := Extract(b).body, Extract(b).rest;
      var ms := Drain(b).0;
      assert ms == [m] + Drain(rest).0 && ms[1..] == Drain(rest).0;
      if !p(m) {
        UntilMeaning(rest, p);
        var k := FirstIndex(ms, p);
        assert k == 1 + FirstIndex(ms[1..], p);
        if k < |ms| { assert ms[1..][k..] == ms[k + 1..]; }
      }
    }
  }

  lemma {:induction false} UntilSplit(a: string, x: string, p: string -> bool)
    requires Calm(a + x)
    ensures Calm(a) && Ends(a, p) && Ends(a + x, p)
    ensures Calm(Until(a, p).rest + x) && Ends(Until(a, p).rest + x, p)
    ensures Until(a, p).Found? ==> Until(a + x, p) == Found(Until(a, p).message, Until(a, p).rest + x)
    ensures Until(a, p).NotFound? ==> Until(a + x, p) == Until(Until(a, p).rest + x, p)
    decreases |a|
  {
    hide Extract, HeadOf;
    CalmPrefix(a, x);
    CalmEnds(a, p);
    CalmEnds(a + x, p);
    if Extract(a).Message? {
      Progress(a);
      ExtractExtends(a, x);
      var m, rest := Extract(a).body, Extract(a).rest;
      assert Extract(a + x) == Message(m, rest + x);
      UntilSplit(rest, x, p);
    }
  }

  /** The bytes a list of read attempts brings before the pipe breaks or the time is up. */
  function DataOf(arrivals: seq<Read>): string {
    if arrivals == [] then ""
    else
      match arrivals[0]
      case Data(chunk) => chunk + DataOf(arrivals[1..])
      case Timeout => DataOf(arrivals[1..])
      case _ => ""
  }

  /** Every inner loop that a wait starts comes to an end. */
  predicate AwaitEnds(b: string, arrivals: seq<Read>, p: string -> bool)
    decreases |arrivals|
  {
    arrivals == [] ||
    (Ends(b, p) &&
     match Until(b, p)
     case Found(_, _) => true
     case NotFound(rest) =>
       match arrivals[0]
       case Data(chunk) => AwaitEnds(rest + chunk, arrivals[1..], p)
       case Timeout => AwaitEnds(rest, arrivals[1..], p)
       case _ => true)
  }

  /** WaitForResponse: the outcome, and the bytes not read. When the arrivals run out the deadline has passed. */
  function Await(b: string, arrivals: seq<Read>, p: string -> bool): (r: (Search, string))
    requires AwaitEnds(b, arrivals, p)
    decreases |arrivals|
  {
    if arrivals == [] then (NotFound(b), "")
    else
      match Until(b, p)
      case Found(m, rest) => (Found(m, rest), DataOf(arrivals))
      case NotFound(rest) =>
        match arrivals[0]
        case Data(chunk) => Await(rest + chunk, arrivals[1..], p)
        case Timeout => Await(rest, arrivals[1..], p)
        case _ => (NotFound(rest), "")
  }

  /** The answer does not depend on how the bytes were cut up or when they came, and nothing behind it is lost:
      searching the whole stream at once finds the same message and leaves what is buffered followed by what is
      unread; and while nothing was found, the search may go on from there as from the start. */
  lemma {:induction false} AwaitIsSearch(b: string, arrivals: seq<Read>, p: string -> bool)
    requires Calm(b + DataOf(arrivals))
    ensures AwaitEnds(b, arrivals, p) && Ends(b + DataOf(arrivals), p)
    ensures var (s, unread) := Await(b, arrivals, p);
            var all := b + DataOf(arrivals);
            && (s.Found? ==> Until(all, p) == Found(s.message, s.rest + unread))
            && (s.NotFound? ==>
                  Calm(s.rest + unread) && Ends(s.rest + unread, p) && Until(all, p) == Until(s.rest + unread, p))
    decreases |arrivals|
  {
    hide Until, Ends, Calm;
    CalmEnds(b + DataOf(arrivals), p);
    if arrivals != [] {
      UntilSplit(b, DataOf(arrivals), p);
      var s := Until(b, p);
      if s.NotFound? {
        match arrivals[0]
        case Data(chunk) =>
          assert (s.rest + chunk) + DataOf(arrivals[1..]) == s.rest + DataOf(arrivals);
          AwaitIsSearch(s.rest + chunk, arrivals[1..], p);
        case Timeout => AwaitIsSearch(s.rest, arrivals[1..], p);
        case _ =>
      }
    }
  }

  /** One turn of the getline loop. */
  lemma {:induction false} NextLine(left: string)
    ensures left == "" ==> DeclaredLength(left) == Missing
    ensures left != "" ==>
              var end := LineEnd(left);
              var line := WithoutCr(left[..end]);
              DeclaredLength(left) ==
              if NamesLength(line) then Stoull(SkipSpace(line[|PREFIX|..]))
              else DeclaredLength(if end == |left| then "" else left[end + 1..])
  {
    hide NamesLength, Stoull, SkipSpace;
    assert DeclaredLength("") == Missing;
  }

  /** The reader's buffer and the loops over it. */
  class Reader {
    var readBuffer: string

    constructor ()
      ensures readBuffer == ""
    {
      readBuffer := "";
    }

    static method FindHeaderEnd(b: string) returns (end: int)
      ensures end == HeaderEnd(b)
    {
      end := 0;
      while end + 4 <= |b|
        invariant 0 <= end && HeaderEnd(b, end) == HeaderEnd(b)
      {
        if BlankLineAt(b, end) {
          return;
        }
        end := end + 1;
      }
      end := -1;
    }

    static method WithoutLeadingSpace(s: string) returns (value: string)
      ensures value == SkipSpace(s)
    {
      value := s;
      while value != "" && IsSpace(value[0])
        invariant SkipSpace(value) == SkipSpace(s)
        decreases |value|
      {
        value := value[1..];
      }
    }

    /** The getline loop over the header block. */
    static method ParseLength(header: string) returns (length: Length)
      ensures length == DeclaredLength(header)
    {
      hide Stoull, SkipSpace, NamesLength, DeclaredLength, LineEnd, WithoutCr;
      var left := header;
      NextLine("");
      while left != ""
        invariant DeclaredLength(left) == DeclaredLength(header)
        decreases |left|
      {
        NextLine(left);
        var end := LineEnd(left);
        var line := WithoutCr(left[..end]);
        if NamesLength(line) {
          var value := WithoutLeadingSpace(line[|PREFIX|..]);
          return Stoull(value);
        }
        left := if end == |left| then "" else left[end + 1..];
      }
      return Missing;
    }

    method TryExtractFramedMessage() returns (found: bool, message: string)
      modifies this
      ensures match Extract(old(readBuffer))
              case Nothing => !found && message == "" && readBuffer == old(readBuffer)
              case Message(m, rest) => found && message == m && readBuffer == rest
    {
      hide Wrap, Min, DeclaredLength, HeaderEnd;
      var headerEnd := FindHeaderEnd(readBuffer);
      if headerEnd < 0 {
        return false, "";
      }
      var length := ParseLength(readBuffer[..headerEnd]);
      if !length.Known? {
        return false, "";
      }
      var bodyOffset := headerEnd + 4;
      var total := Wrap(bodyOffset + length.n);
      if |readBuffer| < total {
        return false, "";
      }
      message := readBuffer[bodyOffset..Min(bodyOffset + length.n, |readBuffer|)];
      readBuffer := readBuffer[total..];
      found := true;
    }

    /** The inner loop: drop notifications until a response comes or the buffer runs dry. What it requires is exactly
        that it comes to an end. */
    method TakeResponse(isResponse: string -> bool) returns (found: bool, response: string)
      requires Ends(readBuffer, isResponse)
      modifies this
      ensures match Until(old(readBuffer), isResponse)
              case Found(m, rest) => found && response == m && readBuffer == rest
              case NotFound(rest) => !found && response == "" && readBuffer == rest
    {
      hide Extract;
      while true
        invariant Ends(readBuffer, isResponse)
        invariant Until(readBuffer, isResponse) == Until(old(readBuffer), isResponse)
        decreases |readBuffer|
      {
        var more, message := TryExtractFramedMessage();
        if !more {
          return false, "";
        }
        if isResponse(message) {
          return true, message;
        }
      }
    }

    method WaitForResponse(isResponse: string -> bool, arrivals: seq<Read>) returns (found: bool, response: string)
      requires AwaitEnds(readBuffer, arrivals, isResponse)
      modifies this
      ensures match Await(old(readBuffer), arrivals, isResponse).0
              case Found(m, rest) => found && response == m && readBuffer == rest
              case NotFound(rest) => !found && readBuffer == rest
    {
      hide Until, Ends;
      found, response := false, "";
      var i := 0;
      while i < |arrivals|
        invariant i <= |arrivals| && !found
        invariant AwaitEnds(readBuffer, arrivals[i..], isResponse)
        invariant Await(readBuffer, arrivals[i..], isResponse).0 == Await(old(readBuffer), arrivals, isResponse).0
      {
        assert arrivals[i..][0] == arrivals[i] && arrivals[i..][1..] == arrivals[i + 1..];
        found, response := TakeResponse(isResponse);
        if found {
          return;
        }
        if arrivals[i].Broken? || arrivals[i].Deadline? {
          return;
        }
        if arrivals[i].Data? {
          readBuffer := readBuffer + arrivals[i].chunk;
        }
        i := i + 1;
      }
    }
  }
}
