/** Draining a stream of frames that arrives in chunks, and the plug-in's reader. */
module Framing {
  import opened Frames
  import opened TextLines
  import opened Numerals

  // Progress.

  /** The announced end of the body does not fit in 64 bits. */
  predicate Wraps(b: string) {
    HeadOf(b).Head? && HeadOf(b).offset + HeadOf(b).length >= SIZE_LIMIT
  }

  /** Taking a message off shortens the buffer, except when the announced end wraps to exactly zero. */
  lemma {:induction false} Progress(b: string)
    requires Extract(b).Message?
    ensures Extract(b).rest == b <==> Wrap(HeadOf(b).offset + HeadOf(b).length) == 0
    ensures Extract(b).rest == b || |Extract(b).rest| < |b|
    ensures !Wraps(b) ==> Complete(b) && |Extract(b).rest| < |b|
  {
    hide HeadOf, Wrap;
    var total := HeadOf(b).offset + HeadOf(b).length;
    if !Wraps(b) { WrapSmall(total); Offset(b); }
  }

  lemma {:induction false} Offset(b: string)
    requires HeadOf(b).Head?
    ensures HeadOf(b).offset >= 4
  {
  }

  /** A negative length can do that: the front message is then taken again and again. */
  lemma {:induction false} StuckFrame()
    ensures var b := "Content-Length: -23\r\n\r\n"; Wraps(b) && Extract(b) == Message("", b)
  {
    hide HeadOf, DeclaredLength;
    var line, b := "Content-Length: -23", "Content-Length: -23\r\n\r\n";
    StuckLength(line);
    HeadOfLine(line, "");
    StuckText(line);
    StuckThere(b);
  }

  lemma {:induction false} StuckText(line: string)
    requires line == "Content-Length: -23"
    ensures "Content-Length: -23\r\n\r\n" == line + BLANK_LINE + "" && |line| == 19
  {
  }

  lemma {:induction false} StuckThere(b: string)
    requires |b| == 23 && HeadOf(b) == Head(23, SIZE_LIMIT - 23)
    ensures Wraps(b) && Extract(b) == Message("", b)
  {
    hide HeadOf;
    assert Wrap(SIZE_LIMIT) == 0;
  }

  lemma {:induction false} StuckLength(line: string)
    requires line == "Content-Length: -23"
    ensures DeclaredLength(line) == Known(SIZE_LIMIT - 23)
  {
    hide SkipSpace, Stoull;
    assert forall k :: 0 <= k < |line| ==> line[k] != '\n';
    assert LineEnd(line) == |line| && line[..|line|] == line && line[|line| - 1] == '3';
    assert WithoutCr(line) == line && NamesLength(line);
    assert line[|PREFIX|..] == " -23";
    StuckValue();
  }

  lemma {:induction false} StuckValue()
    ensures Stoull(SkipSpace(" -23")) == Known(SIZE_LIMIT - 23)
  {
    assert (" -23")[1..] == "-23" && ("-23")[1..] == "23";
    assert SkipSpace(" -23") == SkipSpace("-23") == "-23";
    Digits23();
  }

  lemma {:induction false} Digits23()
    ensures AllDigits("23") && DigitCount("23") == 2 && Number("23") == 23 && ("23")[..2] == "23"
  {
    CountsDigits("23");
    assert ("23")[..1] == "2" && ("2")[..0] == "";
    assert Number("2") == 2;
  }

  /** No state that draining this stream goes through wraps. */
  predicate Calm(b: string)
    decreases |b|
  {
    && !Wraps(b)
    && (Extract(b).Message? ==> (Progress(b); Calm(Extract(b).rest)))
  }

  /** Every message repeated extraction gives, and what is left. */
  function Drain(b: string): (r: (seq<string>, string))
    requires Calm(b)
    decreases |b|
  {
    match Extract(b)
    case Nothing => ([], b)
    case Message(m, rest) =>
      Progress(b);
      var r := Drain(rest);
      ([m] + r.0, r.1)
  }

  // Splitting the stream.

  lemma {:induction false} CalmPrefix(a: string, x: string)
    requires Calm(a + x)
    ensures Calm(a)
    decreases |a|
  {
    hide HeadOf, Extract;
    if HeadOf(a).Head? { HeadExtends(a, x); }
    if Extract(a).Message? {
      Progress(a);
      ExtractExtends(a, x);
      CalmPrefix(Extract(a).rest, x);
    }
  }

  /** Draining a prefix first and then what is left with the rest of the stream gives what draining it all gives. */
  lemma {:induction false} DrainSplit(a: string, x: string)
    requires Calm(a + x)
    ensures Calm(a) && Calm(Drain(a).1 + x)
    ensures Drain(a + x) == (Drain(a).0 + Drain(Drain(a).1 + x).0, Drain(Drain(a).1 + x).1)
    decreases |a|
  {
    hide HeadOf, Extract, Calm;
    CalmPrefix(a, x);
    CalmRest(a);
    CalmRest(a + x);
    if Extract(a).Message? {
      ExtractExtends(a, x);
      var m, rest := Extract(a).body, Extract(a).rest;
      assert Extract(a + x) == Message(m, rest + x);
      DrainSplit(rest, x);
      var tail := Drain(Drain(rest).1 + x).0;
      assert [m] + (Drain(rest).0 + tail) == ([m] + Drain(rest).0) + tail;
    } else {
      var all := Drain(a + x).0;
      assert [] + all == all;
    }
  }

  lemma {:induction false} CalmRest(b: string)
    requires Calm(b)
    ensures Extract(b).Message? ==>
              && Complete(b) && |Extract(b).rest| < |b| && Calm(Extract(b).rest)
              && Drain(b).0 == [Extract(b).body] + Drain(Extract(b).rest).0
              && Drain(b).1 == Drain(Extract(b).rest).1
    ensures Extract(b) == Nothing ==> Drain(b) == ([], b)
  {
    hide Extract, HeadOf;
    if Extract(b).Message? { Progress(b); }
  }

  function Concat(chunks: seq<string>): string {
    if chunks == [] then "" else chunks[0] + Concat(chunks[1..])
  }

  /** Reading chunk by chunk, draining after each. */
  function Feed(buffer: string, chunks: seq<string>): (r: (seq<string>, string))
    requires Calm(buffer + Concat(chunks))
    decreases |chunks|
  {
    if chunks == [] then ([], buffer)
    else
      var x := buffer + chunks[0];
      FeedCalm(buffer, chunks);
      var d := Drain(x);
      var r := Feed(d.1, chunks[1..]);
      (d.0 + r.0, r.1)
  }

  lemma {:induction false} FeedCalm(buffer: string, chunks: seq<string>)
    requires chunks != [] && Calm(buffer + Concat(chunks))
    ensures var x := buffer + chunks[0];
            && x + Concat(chunks[1..]) == buffer + Concat(chunks)
            && Calm(x) && Calm(Drain(x).1 + Concat(chunks[1..]))
  {
    var x := buffer + chunks[0];
    assert x + Concat(chunks[1..]) == buffer + Concat(chunks);
    DrainSplit(x, Concat(chunks[1..]));
  }

  /** Chunking does not matter: however the bytes are cut up, the messages and the remainder are those of draining
      the whole stream at once. */
  lemma {:induction false} ChunkingIndependent(buffer: string, chunks: seq<string>)
    requires Calm(buffer + Concat(chunks)) && Extract(buffer) == Nothing
    ensures Feed(buffer, chunks) == Drain(buffer + Concat(chunks))
    decreases |chunks|
  {
    hide Extract;
    if chunks == [] {
      assert buffer + Concat(chunks) == buffer;
    } else {
      var x := buffer + chunks[0];
      FeedCalm(buffer, chunks);
      DrainSplit(x, Concat(chunks[1..]));
      DrainStops(x);
      ChunkingIndependent(Drain(x).1, chunks[1..]);
    }
  }

  lemma {:induction false} DrainStops(b: string)
    requires Calm(b)
    ensures Extract(Drain(b).1) == Nothing
    decreases |b|
  {
    if Extract(b).Message? {
      Progress(b);
      DrainStops(Extract(b).rest);
    }
  }

  // Streams of frames.

  function FramesOf(ms: seq<string>): string {
    if ms == [] then "" else Frame(ms[0]) + FramesOf(ms[1..])
  }

  lemma {:induction false} FramesDrain(ms: seq<string>)
    requires forall m :: m in ms ==> |Frame(m)| < SIZE_LIMIT
    ensures Calm(FramesOf(ms)) && Drain(FramesOf(ms)) == (ms, "")
    decreases |ms|
  {
    hide HeadOf, Extract, Frame;
    if ms == [] {
      EmptyBuffer();
    } else {
      var b, rest := FramesOf(ms), FramesOf(ms[1..]);
      FrameRoundTrip(ms[0], rest);
      FrameBody(ms[0]);
      FrameHead(ms[0], rest);
      FramesDrain(ms[1..]);
      assert Extract(b) == Message(ms[0], rest);
      assert Drain(b).0 == [ms[0]] + ms[1..] == ms;
    }
  }

  lemma {:induction false} EmptyBuffer()
    ensures HeadOf("") == NoHead && Extract("") == Nothing
  {
  }

  /** For any messages, and any cutting of their frames into chunks, the reader gets exactly the messages in order and
      ends with an empty buffer. */
  lemma {:induction false} FramesSurviveChunking(ms: seq<string>, chunks: seq<string>)
    requires forall m :: m in ms ==> |Frame(m)| < SIZE_LIMIT
    requires Concat(chunks) == FramesOf(ms)
    ensures Calm("" + Concat(chunks)) && Feed("", chunks) == (ms, "")
  {
    FramesDrain(ms);
    EmptyBuffer();
    assert "" + Concat(chunks) == FramesOf(ms);
    ChunkingIndependent("", chunks);
  }
}
