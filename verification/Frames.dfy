/** Content-Length frames: what one extraction takes off the front of the read buffer, and the frame printer. */
module Frames {
  import opened Numerals
  import opened Order
  import opened TextLines

  /** size_t is 64 bits wide. */
  const SIZE_LIMIT: nat := 0x1_0000_0000_0000_0000
  const BLANK_LINE: string := "\r\n\r\n"
  const PREFIX: string := "content-length:"

  datatype Length = Missing | Bad | Known(n: nat)
  datatype Extraction = Nothing | Message(body: string, rest: string)

  // Numbers.

  /** std::stoull: an optional sign, then at least one digit; a minus negates modulo 2^64; what follows is ignored. */
  function Stoull(s: string): Length {
    var signed := s != "" && (s[0] == '-' || s[0] == '+');
    var digits := if signed then s[1..] else s;
    var k := DigitCount(digits);
    if k == 0 then Bad
    else
      var n := Number(digits[..k]);
      if n >= SIZE_LIMIT then Bad
      else if signed && s[0] == '-' then Known((SIZE_LIMIT - n) % SIZE_LIMIT)
      else Known(n)
  }

  /** A number of at most 64 bits is read with or without a plus; a minus negates it modulo 2^64; a larger one is not
      read at all. What follows the digits does not matter, unless it is a digit. */
  lemma {:induction false} NumberRead(n: nat, tail: string)
    requires tail != "" ==> !('0' <= tail[0] <= '9')
    ensures var read := if n < 0x1_0000_0000_0000_0000 then Known(n) else Bad;
            Stoull(Decimal(n) + tail) == read && Stoull("+" + Decimal(n) + tail) == read
    ensures Stoull("-" + Decimal(n) + tail) ==
              if n == 0 then Known(0) else if n < 0x1_0000_0000_0000_0000 then Known(0x1_0000_0000_0000_0000 - n) else Bad
  {
    hide Decimal;
    var s := Decimal(n);
    NumberOfDecimal(n);
    CountsUpTo(s, tail);
    assert IsDigit(s[0]) && (s + tail)[0] == s[0] && (s + tail)[..|s|] == s;
    Signed('+', s, tail);
    Signed('-', s, tail);
    hide Number, DigitCount;
  }

  lemma {:induction false} Signed(sign: char, s: string, tail: string)
    ensures ([sign] + s + tail)[0] == sign && ([sign] + s + tail)[1..] == s + tail
  {
  }

  lemma {:induction false} CountsUpTo(digits: string, tail: string)
    requires AllDigits(digits) && (tail != "" ==> !IsDigit(tail[0]))
    ensures DigitCount(digits + tail) == |digits|
  {
    if digits == "" {
      assert digits + tail == tail;
    } else {
      assert (digits + tail)[0] == digits[0] && (digits + tail)[1..] == digits[1..] + tail;
      CountsUpTo(digits[1..], tail);
    }
  }

  lemma {:induction false} StoullOfDecimal(n: nat)
    requires n < SIZE_LIMIT
    ensures Stoull(Decimal(n)) == Known(n)
  {
    NumberRead(n, "");
    assert Decimal(n) + "" == Decimal(n);
  }

  // The header block.

  function ToLower(c: char): char {
    if 'A' <= c <= 'Z' then (c as int + 32) as char else c
  }

  predicate IsSpace(c: char) {
    c == ' ' || '\t' <= c <= '\r'
  }

  predicate NamesLength(line: string): (names: bool)
    ensures names ==> |line| >= |PREFIX|
  {
    |line| >= |PREFIX| && forall i :: 0 <= i < |PREFIX| ==> ToLower(line[i]) == PREFIX[i]
  }

  function SkipSpace(s: string): string {
    if s != "" && IsSpace(s[0]) then SkipSpace(s[1..]) else s
  }

  /** The declared length: that of the first line naming one. */
  function DeclaredLength(header: string): Length
    decreases |header|
  {
    if header == "" then Missing
    else
      var end := LineEnd(header);
      var line := WithoutCr(header[..end]);
      if NamesLength(line) then Stoull(SkipSpace(line[|PREFIX|..]))
      else if end == |header| then Missing
      else DeclaredLength(header[end + 1..])
  }

  predicate BlankLineAt(b: string, k: nat) {
    k + 4 <= |b| && b[k] == '\r' && b[k + 1] == '\n' && b[k + 2] == '\r' && b[k + 3] == '\n'
  }

  /** Index of the first blank line from `i` on, or -1. */
  function HeaderEnd(b: string, i: nat := 0): (e: int)
    ensures e >= 0 ==> i <= e && BlankLineAt(b, e) && forall k :: i <= k < e ==> !BlankLineAt(b, k)
    ensures e < 0 ==> e == -1 && forall k :: i <= k ==> !BlankLineAt(b, k)
    decreases |b| - i
  {
    if i + 4 > |b| then -1
    else if BlankLineAt(b, i) then i
    else HeaderEnd(b, i + 1)
  }

  /** What the front of the buffer announces: where its body starts and how long it is. */
  datatype Head = NoHead | Head(offset: nat, length: nat)

  function HeadOf(b: string): (h: Head)
    ensures h.Head? ==> h.offset <= |b|
  {
    var end := HeaderEnd(b);
    if end < 0 then NoHead
    else
      match DeclaredLength(b[..end])
      case Known(n) => Head(end + 4, n)
      case _ => NoHead
  }

  function Wrap(n: nat): nat {
    n % SIZE_LIMIT
  }

  lemma {:induction false} WrapSmall(n: nat)
    requires n < SIZE_LIMIT
    ensures Wrap(n) == n
  {
  }

  /** TryExtractFramedMessage. The end of the body is computed in 64 bits and may wrap. */
  function Extract(b: string): (r: Extraction) {
    match HeadOf(b)
    case NoHead => Nothing
    case Head(offset, n) =>
      var total := Wrap(offset + n);
      if |b| < total then Nothing
      else Message(b[offset..Min(offset + n, |b|)], b[total..])
  }

  /** WriteUtf8ToServer: the bytes it writes for a message. */
  function Frame(m: string): string {
    "Content-Length: " + Decimal(|m|) + BLANK_LINE + m
  }

  /** For example. */
  lemma {:induction false} FrameOfTwo()
    ensures Frame("{}") == "Content-Length: 2\r\n\r\n{}"
  {
    assert Decimal(2) == "2";
  }

  // Extending the buffer.

  lemma {:induction false} HeadExtends(b: string, x: string)
    requires HeadOf(b).Head?
    ensures HeadOf(b + x) == HeadOf(b)
  {
    FirstBlankLine(b, x);
    var end := HeaderEnd(b);
    assert (b + x)[..end] == b[..end];
  }

  lemma {:induction false} FirstBlankLine(b: string, x: string)
    requires HeaderEnd(b) >= 0
    ensures HeaderEnd(b + x) == HeaderEnd(b)
  {
    var e := HeaderEnd(b);
    assert BlankLineAt(b + x, e);
    forall k | 0 <= k < e
      ensures !BlankLineAt(b + x, k)
    {
      assert !BlankLineAt(b, k);
    }
  }

  /** The whole frame announced at the front of the buffer has arrived, without wrapping. */
  predicate Complete(b: string) {
    HeadOf(b).Head? && HeadOf(b).offset + HeadOf(b).length <= |b|
  }

  lemma {:induction false} Slices(b: string, x: string, offset: nat, n: nat, total: nat)
    requires offset <= |b| && total <= |b|
    ensures (b + x)[total..] == b[total..] + x
    ensures (b + x)[offset..Min(offset + n, |b + x|)] == b[offset..Min(offset + n, |b|)] <==> x == "" || offset + n <= |b|
  {
    var y := b + x;
    if offset + n <= |b| {
      assert y[offset..offset + n] == b[offset..offset + n];
    } else if x == "" {
      assert y == b;
    } else {
      assert |y[offset..Min(offset + n, |y|)]| > |b[offset..]|;
    }
  }

  /** More input after the front message does not disturb it, exactly when the announced body is really there. */
  lemma {:induction false} ExtractExtends(b: string, x: string)
    requires Extract(b).Message?
    ensures Extract(b + x) == Message(Extract(b).body, Extract(b).rest + x) <==> x == "" || Complete(b)
  {
    hide HeadOf, Wrap, Min;
    HeadExtends(b, x);
    var offset, n := HeadOf(b).offset, HeadOf(b).length;
    Slices(b, x, offset, n, Wrap(offset + n));
  }

  // Frames.

  /** A line that names no length is passed over. */
  lemma {:induction false} OtherLine(line: string, rest: string)
    requires (forall k :: 0 <= k < |line| ==> line[k] != '\n') && !NamesLength(WithoutCr(line))
    ensures DeclaredLength(line + ("\n" + rest)) == DeclaredLength(rest)
  {
    hide NamesLength, Stoull, SkipSpace;
    var header := line + ("\n" + rest);
    assert header[|line|] == '\n' && LineEnd(header) == |line|;
    assert header[..|line|] == line && header[|line| + 1..] == rest;
  }

  lemma {:induction false} SkipsGap(gap: string, d: string)
    requires (forall k :: 0 <= k < |gap| ==> IsSpace(gap[k])) && d != "" && IsDigit(d[0])
    ensures SkipSpace(gap + d) == d
    decreases |gap|
  {
    if gap == "" {
      assert gap + d == d && !IsSpace(d[0]);
    } else {
      assert (gap + d)[0] == gap[0] && (gap + d)[1..] == gap[1..] + d;
      SkipsGap(gap[1..], d);
    }
  }

  /** The length is read whatever the case of its name and however wide the gap before the digits. */
  lemma {:induction false} NamedLength(name: string, gap: string, n: nat)
    requires NamesLength(name) && |name| == |PREFIX| && n < SIZE_LIMIT
    requires forall k :: 0 <= k < |gap| ==> (gap[k] == ' ' || '\t' <= gap[k] <= '\r') && gap[k] != '\n'
    ensures DeclaredLength(name + (gap + Decimal(n))) == Known(n)
  {
    hide Decimal, Stoull;
    var d := Decimal(n);
    var line := name + (gap + d);
    forall k | 0 <= k < |line|
      ensures line[k] != '\n'
    {
      if k < |name| {
        assert ToLower(name[k]) == PREFIX[k] != '\n';
      } else if k >= |name| + |gap| {
        assert line[k] == d[k - |name| - |gap|] && IsDigit(line[k]);
      }
    }
    assert LineEnd(line) == |line| && line[..|line|] == line;
    assert line[|line| - 1] == d[|d| - 1] && IsDigit(d[|d| - 1]);
    assert forall i :: 0 <= i < |PREFIX| ==> line[i] == name[i];
    assert line[|PREFIX|..] == gap + d;
    assert IsDigit(d[0]);
    SkipsGap(gap, d);
    StoullOfDecimal(n);
  }

  lemma {:induction false} FrameHeader(n: nat)
    requires n < SIZE_LIMIT
    ensures DeclaredLength("Content-Length: " + Decimal(n)) == Known(n)
  {
    hide Decimal, DeclaredLength, NamesLength;
    PrintedName(Decimal(n));
    NamedLength("Content-Length:", " ", n);
  }

  lemma {:induction false} PrintedName(digits: string)
    ensures NamesLength("Content-Length:")
    ensures "Content-Length: " + digits == "Content-Length:" + (" " + digits)
  {
  }

  lemma {:induction false} NoReturn(line: string, d: string, k: nat)
    requires AllDigits(d) && line == "Content-Length: " + d && k < |line|
    ensures line[k] != '\r'
  {
    var head := "Content-Length: ";
    if k < |head| { assert line[k] == head[k]; } else { assert line[k] == d[k - |head|]; }
  }

  /** A one-line header without a carriage return ends where the blank line follows it. */
  lemma {:induction false} HeadOfLine(line: string, x: string)
    requires forall k :: 0 <= k < |line| ==> line[k] != '\r'
    ensures HeadOf(line + BLANK_LINE + x) ==
            match DeclaredLength(line)
            case Known(n) => Head(|line| + 4, n)
            case _ => NoHead
  {
    hide DeclaredLength;
    var b := line + BLANK_LINE + x;
    forall k | 0 <= k < |line|
      ensures !BlankLineAt(b, k)
    {
      assert b[k] == line[k];
    }
    assert BlankLineAt(b, |line|);
    assert HeaderEnd(b) == |line| && b[..|line|] == line;
  }

  /** The first blank line of a frame is the one after its header, so the frame announces its message. */
  lemma {:induction false} FrameHead(m: string, x: string)
    requires |m| < SIZE_LIMIT
    ensures HeadOf(Frame(m) + x) == Head(|Frame(m)| - |m|, |m|)
  {
    hide Decimal, HeadOf;
    var d := Decimal(|m|);
    var line := "Content-Length: " + d;
    assert Frame(m) + x == line + BLANK_LINE + (m + x);
    forall k | 0 <= k < |line|
      ensures line[k] != '\r'
    {
      NoReturn(line, d, k);
    }
    HeadOfLine(line, m + x);
    FrameHeader(|m|);
  }

  /** Printing then extracting gives the message back and leaves what follows, whatever the message holds. */
  lemma {:induction false} FrameRoundTrip(m: string, x: string)
    requires |Frame(m)| < SIZE_LIMIT
    ensures Extract(Frame(m) + x) == Message(m, x) && Complete(Frame(m) + x)
  {
    hide HeadOf, Wrap, Frame;
    FrameBody(m);
    FrameHead(m, x);
    WrapSmall(|Frame(m)|);
    var f, b := Frame(m), Frame(m) + x;
    assert b[..|f|] == f && b[|f|..] == x;
    assert b[|f| - |m|..|f|] == f[|f| - |m|..];
  }

  lemma {:induction false} FrameBody(m: string)
    ensures |m| <= |Frame(m)| && Frame(m)[|Frame(m)| - |m|..] == m
  {
    hide Decimal;
  }

  /** A frame that has only partly arrived leaves the buffer alone. */
  lemma {:induction false} PartialFrame(m: string, k: nat)
    requires |Frame(m)| < SIZE_LIMIT && k < |Frame(m)|
    ensures Extract(Frame(m)[..k]) == Nothing
  {
    hide HeadOf, Wrap, Frame;
    var f, b := Frame(m), Frame(m)[..k];
    FrameBody(m);
    FrameHead(m, "");
    WrapSmall(|f|);
    if HeadOf(b).Head? {
      HeadExtends(b, f[k..]);
      assert b + f[k..] == f + "";
    }
  }
}
