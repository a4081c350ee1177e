/** The encrypted control-packet format shared by the client and the driver: a 28-byte header of seven
    little-endian words, then the payload under a linear-congruential xor stream. */
module IoctlCodec {
  import opened Bits

  const MAGIC: Word := 0x4C42_4457
  const VERSION: Word := 1
  const KEY: Word := 0x9E37_79B9
  const HEADER_SIZE: nat := 28

  datatype Header = Header(
    magic: Word, version: Word, headerSize: Word, payloadSize: Word,
    ioControlCode: Word, payloadChecksum: Word, headerChecksum: Word)

  datatype Status = Success | InvalidParameter | BufferTooSmall | DataError

  // Words and bytes.

  function WordBytes(w: Word): (b: Bytes)
    ensures |b| == 4
  {
    [w % 0x100, (w / 0x100) % 0x100, (w / 0x1_0000) % 0x100, w / 0x100_0000]
  }

  function ToWord(b0: Byte, b1: Byte, b2: Byte, b3: Byte): Word {
    b0 + b1 * 0x100 + b2 * 0x1_0000 + b3 * 0x100_0000
  }

  function WordAt(b: Bytes, i: nat): Word
    requires i + 4 <= |b|
  {
    ToWord(b[i], b[i + 1], b[i + 2], b[i + 3])
  }

  lemma {:induction false} WordRoundTrip(w: Word)
    ensures ToWord(w % 0x100, (w / 0x100) % 0x100, (w / 0x1_0000) % 0x100, w / 0x100_0000) == w
  {
    var w1, w2, w3 := w / 0x100, w / 0x1_0000, w / 0x100_0000;
    assert w == 0x100 * w1 + w % 0x100;
    assert w1 == 0x100 * w2 + w1 % 0x100;
    assert w2 == 0x100 * w3 + w2 % 0x100;
  }

  lemma {:induction false} OneByteUp(x: nat, high: nat, low: Byte)
    requires x == high * 0x100 + low
    ensures x / 0x100 == high && x % 0x100 == low
  {
  }

  lemma {:induction false} BytesRoundTrip(b0: Byte, b1: Byte, b2: Byte, b3: Byte)
    ensures WordBytes(ToWord(b0, b1, b2, b3)) == [b0, b1, b2, b3]
  {
    var w, w1, w2 := ToWord(b0, b1, b2, b3), b1 + b2 * 0x100 + b3 * 0x1_0000, b2 + b3 * 0x100;
    OneByteUp(w, w1, b0);
    OneByteUp(w1, w2, b1);
    OneByteUp(w2, b3, b2);
    TwoBytesUp(w);
    hide ToWord;
  }

  lemma {:induction false} TwoBytesUp(w: nat)
    ensures w / 0x1_0000 == w / 0x100 / 0x100 && w / 0x100_0000 == w / 0x100 / 0x100 / 0x100
  {
  }

  lemma {:induction false} WordAtBytes(b: Bytes, i: nat, w: Word)
    requires i + 4 <= |b|
    ensures WordAt(b, i) == w <==> b[i..i + 4] == WordBytes(w)
  {
    WordRoundTrip(w);
    BytesRoundTrip(b[i], b[i + 1], b[i + 2], b[i + 3]);
    assert b[i..i + 4] == [b[i], b[i + 1], b[i + 2], b[i + 3]];
  }

  /** A run of words, each in four bytes. */
  function WordsBytes(ws: seq<Word>): (b: Bytes)
    ensures |b| == 4 * |ws|
    decreases |ws|
  {
    if ws == [] then [] else WordBytes(ws[0]) + WordsBytes(ws[1..])
  }

  function Fields(h: Header): (ws: seq<Word>)
    ensures |ws| == 7
  {
    [h.magic, h.version, h.headerSize, h.payloadSize, h.ioControlCode, h.payloadChecksum, h.headerChecksum]
  }

  function HeaderBytes(h: Header): (b: Bytes)
    ensures |b| == HEADER_SIZE
  {
    WordsBytes(Fields(h))
  }

  function ParseHeader(b: Bytes): Header
    requires |b| >= HEADER_SIZE
  {
    Header(WordAt(b, 0), WordAt(b, 4), WordAt(b, 8), WordAt(b, 12), WordAt(b, 16), WordAt(b, 20), WordAt(b, 24))
  }

  lemma {:induction false} WordsRoundTrip(b: Bytes, ws: seq<Word>)
    requires |b| == 4 * |ws|
    ensures b == WordsBytes(ws) <==> forall k :: 0 <= k < |ws| ==> WordAt(b, 4 * k) == ws[k]
    decreases |ws|
  {
    if ws != [] {
      var rest := b[4..];
      WordAtBytes(b, 0, ws[0]);
      WordsRoundTrip(rest, ws[1..]);
      forall k | 0 <= k < |ws[1..]|
        ensures WordAt(rest, 4 * k) == WordAt(b, 4 * (k + 1)) && ws[1..][k] == ws[k + 1]
      {
      }
      assert b == b[0..4] + rest;
      var written := WordsBytes(ws);
      assert written[0..4] == WordBytes(ws[0]) && written[4..] == WordsBytes(ws[1..]);
      if forall k :: 0 <= k < |ws| ==> WordAt(b, 4 * k) == ws[k] {
        assert WordAt(b, 4 * 0) == ws[0];
        assert b == written;
      }
      if b == written {
        forall k | 0 <= k < |ws|
          ensures WordAt(b, 4 * k) == ws[k]
        {
          if k > 0 { assert WordAt(rest, 4 * (k - 1)) == ws[1..][k - 1]; }
        }
      }
    }
  }

  lemma {:induction false} ParsedFields(h: Header, b: Bytes)
    requires |b| >= HEADER_SIZE
    ensures ParseHeader(b) == h <==> forall k :: 0 <= k < 7 ==> WordAt(b, 4 * k) == Fields(h)[k]
  {
    if forall k :: 0 <= k < 7 ==> WordAt(b, 4 * k) == Fields(h)[k] {
      assert WordAt(b, 4 * 0) == h.magic && WordAt(b, 4 * 1) == h.version && WordAt(b, 4 * 2) == h.headerSize;
      assert WordAt(b, 4 * 3) == h.payloadSize && WordAt(b, 4 * 4) == h.ioControlCode;
      assert WordAt(b, 4 * 5) == h.payloadChecksum && WordAt(b, 4 * 6) == h.headerChecksum;
    }
  }

  /** A buffer reads as this header exactly when it starts with the header's bytes. */
  lemma {:induction false} HeaderRoundTrip(h: Header, b: Bytes)
    requires |b| >= HEADER_SIZE
    ensures ParseHeader(b) == h <==> b[..HEADER_SIZE] == HeaderBytes(h)
  {
    ParsedFields(h, b);
    var front := b[..HEADER_SIZE];
    WordsRoundTrip(front, Fields(h));
    assert forall k :: 0 <= k < 7 ==> WordAt(front, 4 * k) == WordAt(b, 4 * k);
  }

  // Checksums and the stream.

  function TimesPrime(x: Word): Word {
    (x * 0x0100_0193) % 0x1_0000_0000
  }

  function FnvStep(hash: Word, b: Byte): Word {
    TimesPrime(XorWord(hash, b))
  }

  /** WdblIoctlPayloadChecksum from a running hash: FNV-1a, section 2 of draft-eastlake-fnv. */
  function Fnv(hash: Word, data: Bytes): Word
    decreases |data|
  {
    if data == [] then hash else Fnv(FnvStep(hash, data[0]), data[1..])
  }

  function PayloadChecksum(data: Bytes): Word {
    Fnv(0x811C_9DC5, data)
  }

  function Mix(hash: Word, word: Word): Word {
    XorWord(Rol5(hash), word)
  }

  function MixAll(hash: Word, ws: seq<Word>): Word
    decreases |ws|
  {
    if ws == [] then hash else MixAll(Mix(hash, ws[0]), ws[1..])
  }

  /** WdblIoctlHeaderChecksum; the checksum field itself does not take part. */
  function HeaderChecksum(h: Header): Word {
    var h0 := XorWord(0xA5A5_5A5A, h.magic);
    var h1 := Mix(h0, h.version);
    var h2 := Mix(h1, h.headerSize);
    var h3 := Mix(h2, h.payloadSize);
    var h4 := Mix(h3, h.ioControlCode);
    XorWord(Mix(h4, h.payloadChecksum), KEY)
  }

  lemma {:induction false} MixFive(hash: Word, ws: seq<Word>)
    requires |ws| == 5
    ensures MixAll(hash, ws) == Mix(Mix(Mix(Mix(Mix(hash, ws[0]), ws[1]), ws[2]), ws[3]), ws[4])
  {
    hide Mix;
    var w1, w2, w3, w4 := ws[1..], ws[2..], ws[3..], ws[4..];
    assert w1[1..] == w2 && w2[1..] == w3 && w3[1..] == w4 && w4[1..] == [];
    var h1 := Mix(hash, ws[0]);
    var h2 := Mix(h1, ws[1]);
    var h3 := Mix(h2, ws[2]);
    var h4 := Mix(h3, ws[3]);
    assert MixAll(h4, w4) == Mix(h4, ws[4]);
    assert MixAll(h3, w3) == MixAll(h4, w4);
    assert MixAll(h2, w2) == MixAll(h3, w3);
    assert MixAll(h1, w1) == MixAll(h2, w2);
  }

  lemma {:induction false} ChecksumMixes(h: Header)
    ensures HeaderChecksum(h) == XorWord(MixAll(XorWord(0xA5A5_5A5A, h.magic), Fields(h)[1..6]), KEY)
  {
    MixFive(XorWord(0xA5A5_5A5A, h.magic), Fields(h)[1..6]);
  }

  function StreamKey(size: Word, ioControlCode: Word): Word {
    XorWord(XorWord(KEY, ioControlCode), (size * 0x45D_9F3B) % 0x1_0000_0000)
  }

  function NextKey(key: Word): Word {
    (key * 1664525 + 1013904223) % 0x1_0000_0000
  }

  function KeyByte(key: Word): Byte {
    XorWord(XorWord(XorWord(key / 0x100_0000, key / 0x1_0000), key / 0x100), key) % 0x100
  }

  /** The `n` stream bytes that follow a running key. */
  function KeyStream(key: Word, n: nat): (stream: Bytes)
    ensures |stream| == n
    decreases n
  {
    if n == 0 then [] else [KeyByte(NextKey(key))] + KeyStream(NextKey(key), n - 1)
  }

  /** WdblIoctlCryptPayload. */
  function Crypt(key: Word, data: Bytes): (out: Bytes)
    ensures |out| == |data|
  {
    XorSeq(data, KeyStream(key, |data|))
  }

  /** Changing byte `i` of the input changes byte `i` of the output and nothing else. */
  lemma {:induction false} CryptOneByte(key: Word, data: Bytes, i: nat, x: Byte)
    requires i < |data| && x != data[i]
    ensures var y := Crypt(key, data[i := x])[i];
            y != Crypt(key, data)[i] && Crypt(key, data[i := x]) == Crypt(key, data)[i := y]
  {
    XorCancel(data[i], x, KeyStream(key, |data|)[i]);
  }

  /** Two published values of 32-bit FNV-1a: of the empty string and of "a" (0x61). */
  lemma {:induction false} FnvVectors()
    ensures PayloadChecksum([]) == 0x811C_9DC5
    ensures PayloadChecksum([0x61]) == 0xE40C_292C
  {
    hide Xor, XorWord;
    BasisXor();
    assert TimesPrime(0x811C_9DA4) == 0xE40C_292C;
    hide TimesPrime;
    assert FnvStep(0x811C_9DC5, 0x61) == 0xE40C_292C;
    assert [0x61][1..] == [];
    assert Fnv(0xE40C_292C, []) == 0xE40C_292C;
  }

  lemma {:induction false} BasisXor()
    ensures XorWord(0x811C_9DC5, 0x61) == 0x811C_9DA4
  {
    hide Xor;
    LowXor();
    XorHigh(0x81_1C9D, 0xC5, 0x61);
  }

  lemma {:induction false} LowXor()
    ensures Xor(0xC5, 0x61) == 0xA4
  {
    assert Xor(0x0C, 0x06) == 0x0A;
    assert Xor(0x31, 0x18) == 0x29;
  }

  lemma {:induction false} XorHigh(high: nat, low: Byte, b: Byte)
    ensures Xor(high * 0x100 + low, b) == high * 0x100 + Xor(low, b)
  {
    XorBytes(high, low, 0, b);
    XorCommutes(high, 0);
    ZeroLeft(high);
  }

  // FNV-1a tells apart payloads that differ in one byte.

  lemma {:induction false} Wraps(x: Word, turns: int)
    ensures (x + 0x1_0000_0000 * turns) % 0x1_0000_0000 == x
  {
  }

  /** The multiplier is odd, so multiplying by its inverse modulo 2^32 undoes it. */
  lemma {:induction false} PrimeInverse(x: Word)
    ensures (TimesPrime(x) * 0x359C_449B) % 0x1_0000_0000 == x
  {
    var product := x * 0x0100_0193;
    var q, r := product / 0x1_0000_0000, product % 0x1_0000_0000;
    assert r == product - 0x1_0000_0000 * q;
    var turns := 3513497 * x - 0x359C_449B * q;
    assert r * 0x359C_449B == x + 0x1_0000_0000 * turns;
    Wraps(x, turns);
  }

  lemma {:induction false} FnvStepInjective(g: Word, h: Word, a: Byte, b: Byte)
    requires FnvStep(g, a) == FnvStep(h, b)
    ensures a == b ==> g == h
    ensures g == h ==> a == b
  {
    PrimeInverse(XorWord(g, a));
    PrimeInverse(XorWord(h, b));
    XorCancel(g, h, a);
    XorCancel(a, b, g);
  }

  lemma {:induction false} FnvInjective(g: Word, h: Word, data: Bytes)
    requires g != h
    ensures Fnv(g, data) != Fnv(h, data)
    decreases |data|
  {
    if data != [] {
      if FnvStep(g, data[0]) == FnvStep(h, data[0]) { FnvStepInjective(g, h, data[0], data[0]); }
      FnvInjective(FnvStep(g, data[0]), FnvStep(h, data[0]), data[1..]);
    }
  }

  lemma {:induction false} FnvOneByte(hash: Word, data: Bytes, i: nat, x: Byte)
    requires i < |data| && x != data[i]
    ensures Fnv(hash, data[i := x]) != Fnv(hash, data)
    decreases |data|
  {
    if i == 0 {
      assert data[0 := x][1..] == data[1..];
      if FnvStep(hash, x) == FnvStep(hash, data[0]) { FnvStepInjective(hash, hash, x, data[0]); }
      FnvInjective(FnvStep(hash, x), FnvStep(hash, data[0]), data[1..]);
    } else {
      assert data[i := x][1..] == data[1..][i - 1 := x];
      FnvOneByte(FnvStep(hash, data[0]), data[1..], i - 1, x);
    }
  }

  // The header checksum tells apart headers that differ in one word.

  lemma {:induction false} MixInjective(g: Word, h: Word, v: Word, w: Word)
    requires Mix(g, v) == Mix(h, w)
    ensures v == w ==> g == h
    ensures g == h ==> v == w
  {
    if v == w {
      XorCancel(Rol5(g), Rol5(h), v);
      Rol5Injective(g, h);
    }
    XorCancel(v, w, Rol5(g));
  }

  lemma {:induction false} MixAllInjective(g: Word, h: Word, ws: seq<Word>)
    requires g != h
    ensures MixAll(g, ws) != MixAll(h, ws)
    decreases |ws|
  {
    if ws != [] {
      if Mix(g, ws[0]) == Mix(h, ws[0]) { MixInjective(g, h, ws[0], ws[0]); }
      MixAllInjective(Mix(g, ws[0]), Mix(h, ws[0]), ws[1..]);
    }
  }

  lemma {:induction false} MixOneWord(hash: Word, ws: seq<Word>, i: nat, x: Word)
    requires i < |ws| && x != ws[i]
    ensures MixAll(hash, ws[i := x]) != MixAll(hash, ws)
    decreases |ws|
  {
    if i == 0 {
      assert ws[0 := x][1..] == ws[1..];
      if Mix(hash, x) == Mix(hash, ws[0]) { MixInjective(hash, hash, x, ws[0]); }
      MixAllInjective(Mix(hash, x), Mix(hash, ws[0]), ws[1..]);
    } else {
      assert ws[i := x][1..] == ws[1..][i - 1 := x];
      MixOneWord(Mix(hash, ws[0]), ws[1..], i - 1, x);
    }
  }

  lemma {:induction false} MixChange(start: Word, ws: seq<Word>, i: nat, x: Word)
    requires i < |ws| && x != ws[i]
    ensures XorWord(MixAll(start, ws[i := x]), KEY) != XorWord(MixAll(start, ws), KEY)
  {
    MixOneWord(start, ws, i, x);
    XorCancel(MixAll(start, ws[i := x]), MixAll(start, ws), KEY);
  }

  // The client's packet and the driver's decoder.

  /** The header BuildSecureDriverInput writes for this payload. */
  function PacketHeader(ioControlCode: Word, payload: Bytes): Header
    requires |payload| < WORD_LIMIT
  {
    var h := Header(MAGIC, VERSION, HEADER_SIZE, |payload|, ioControlCode, PayloadChecksum(payload), 0);
    h.(headerChecksum := HeaderChecksum(h))
  }

  /** BuildSecureDriverInput. */
  function Encode(ioControlCode: Word, payload: Bytes): (packet: Bytes)
    requires |payload| < WORD_LIMIT
    ensures |packet| == HEADER_SIZE + |payload|
  {
    HeaderBytes(PacketHeader(ioControlCode, payload)) + Crypt(StreamKey(|payload|, ioControlCode), payload)
  }

  predicate HeaderAccepted(h: Header, ioControlCode: Word) {
    && h.magic == MAGIC && h.version == VERSION && h.headerSize == HEADER_SIZE
    && h.ioControlCode == ioControlCode && h.headerChecksum == HeaderChecksum(h)
  }

  function Zeros(n: nat): (b: Bytes)
    ensures |b| == n
  {
    seq(n, _ => 0)
  }

  /** What the decoder leaves: the status, the buffer, and the input length recorded on success. */
  datatype Decoded = Decoded(status: Status, buffer: Bytes, length: Word)

  /** The plaintext behind a header announcing `n` bytes. */
  function Plaintext(buffer: Bytes, n: Word, ioControlCode: Word): (payload: Bytes)
    requires HEADER_SIZE + n <= |buffer|
    ensures |payload| == n
  {
    Crypt(StreamKey(n, ioControlCode), buffer[HEADER_SIZE..HEADER_SIZE + n])
  }

  /** The buffer with these bytes written behind the header. */
  function WithPayload(buffer: Bytes, payload: Bytes): (b: Bytes)
    requires HEADER_SIZE + |payload| <= |buffer|
    ensures |b| == |buffer|
  {
    buffer[..HEADER_SIZE] + payload + buffer[HEADER_SIZE + |payload|..]
  }

  /** The buffer after RtlMoveMemory has copied `n` bytes from behind the header to the front. */
  function MovedUp(buffer: Bytes, n: nat): (b: Bytes)
    requires HEADER_SIZE + n <= |buffer|
    ensures |b| == |buffer|
  {
    buffer[HEADER_SIZE..HEADER_SIZE + n] + buffer[n..]
  }

  /** WdblDecodeIoctlInput on a buffer whose first `inputLength` bytes came from the caller. The recorded length is
      read from the header's place in the buffer after the payload has been moved over it. */
  function Decode(buffer: Bytes, inputLength: nat, ioControlCode: Word): (d: Decoded)
    requires inputLength <= |buffer|
    ensures |d.buffer| == |buffer|
  {
    if inputLength < HEADER_SIZE then Decoded(InvalidParameter, buffer, 0)
    else
      var h := ParseHeader(buffer);
      var n := h.payloadSize;
      if !HeaderAccepted(h, ioControlCode) then Decoded(InvalidParameter, buffer, 0)
      else if n > inputLength - HEADER_SIZE then Decoded(BufferTooSmall, buffer, 0)
      else
        var payload := Plaintext(buffer, n, ioControlCode);
        if PayloadChecksum(payload) != h.payloadChecksum then
          Decoded(DataError, WithPayload(buffer, Zeros(n)), 0)
        else
          var moved := MovedUp(WithPayload(buffer, payload), n);
          Decoded(Success, moved, WordAt(moved, 12))
  }

  lemma {:induction false} ChecksumSkipsItself(h: Header, checksum: Word)
    ensures HeaderChecksum(h.(headerChecksum := checksum)) == HeaderChecksum(h)
  {
  }

  lemma {:induction false} HeaderChecks(h: Header, ioControlCode: Word, payload: Bytes)
    requires |payload| < WORD_LIMIT
    ensures h == PacketHeader(ioControlCode, payload) <==>
              HeaderAccepted(h, ioControlCode) && h.payloadSize == |payload| && h.payloadChecksum == PayloadChecksum(payload)
  {
    var unsigned := Header(MAGIC, VERSION, HEADER_SIZE, |payload|, ioControlCode, PayloadChecksum(payload), 0);
    ChecksumSkipsItself(unsigned, HeaderChecksum(unsigned));
    ChecksumSkipsItself(unsigned, h.headerChecksum);
  }

  lemma {:induction false} PacketStart(buffer: Bytes, ioControlCode: Word, payload: Bytes)
    requires HEADER_SIZE + |payload| <= |buffer| && |payload| < WORD_LIMIT
    ensures buffer[..HEADER_SIZE + |payload|] == Encode(ioControlCode, payload)
            <==> (ParseHeader(buffer) == PacketHeader(ioControlCode, payload)
                  && Plaintext(buffer, |payload|, ioControlCode) == payload)
  {
    hide HeaderBytes, ParseHeader, PacketHeader, Crypt, StreamKey;
    var n := |payload|;
    var header := PacketHeader(ioControlCode, payload);
    var sealed := buffer[HEADER_SIZE..HEADER_SIZE + n];
    HeaderRoundTrip(header, buffer);
    CryptUndone(StreamKey(n, ioControlCode), sealed, payload);
    SplitsAt(buffer[..HEADER_SIZE + n], HeaderBytes(header), Crypt(StreamKey(n, ioControlCode), payload));
    assert buffer[..HEADER_SIZE + n][..HEADER_SIZE] == buffer[..HEADER_SIZE];
    assert buffer[..HEADER_SIZE + n][HEADER_SIZE..] == sealed;
  }

  lemma {:induction false} CryptUndone(key: Word, sealed: Bytes, plain: Bytes)
    requires |sealed| == |plain|
    ensures Crypt(key, sealed) == plain <==> sealed == Crypt(key, plain)
  {
    XorSeqInvolution(sealed, KeyStream(key, |plain|));
    XorSeqInvolution(plain, KeyStream(key, |plain|));
  }

  lemma {:induction false} SplitsAt(b: Bytes, front: Bytes, back: Bytes)
    requires |b| == |front| + |back|
    ensures b == front + back <==> b[..|front|] == front && b[|front|..] == back
  {
    assert b == b[..|front|] + b[|front|..];
  }

  lemma {:induction false} Restored(buffer: Bytes, payload: Bytes)
    requires HEADER_SIZE + |payload| <= |buffer|
    ensures MovedUp(WithPayload(buffer, payload), |payload|)[..|payload|] == payload
  {
    assert WithPayload(buffer, payload)[HEADER_SIZE..HEADER_SIZE + |payload|] == payload;
  }

  /** When the decoder succeeds, the buffer's front is the plaintext behind the header. */
  lemma {:induction false} SuccessMeans(buffer: Bytes, inputLength: nat, ioControlCode: Word)
    requires inputLength <= |buffer|
    ensures Decode(buffer, inputLength, ioControlCode).status == Success <==>
              && HEADER_SIZE <= inputLength && HeaderAccepted(ParseHeader(buffer), ioControlCode)
              && HEADER_SIZE + ParseHeader(buffer).payloadSize <= inputLength
              && PayloadChecksum(Plaintext(buffer, ParseHeader(buffer).payloadSize, ioControlCode))
                 == ParseHeader(buffer).payloadChecksum
    ensures Decode(buffer, inputLength, ioControlCode).status == Success ==>
              var n := ParseHeader(buffer).payloadSize;
              Decode(buffer, inputLength, ioControlCode).buffer[..n] == Plaintext(buffer, n, ioControlCode)
  {
    if Decode(buffer, inputLength, ioControlCode).status == Success {
      Restored(buffer, Plaintext(buffer, ParseHeader(buffer).payloadSize, ioControlCode));
    }
  }

  /** The decoder accepts a buffer and leaves `payload` exactly when the buffer starts with the packet the client
      builds for `payload`: decoding undoes encoding, and nothing else is let through. */
  lemma {:induction false} AcceptsExactlyPackets(buffer: Bytes, inputLength: nat, ioControlCode: Word, payload: Bytes)
    requires inputLength <= |buffer| && |payload| < WORD_LIMIT
    ensures var d := Decode(buffer, inputLength, ioControlCode);
            (HEADER_SIZE + |payload| <= inputLength && buffer[..HEADER_SIZE + |payload|] == Encode(ioControlCode, payload))
            <==> (d.status == Success && ParseHeader(buffer).payloadSize == |payload| && d.buffer[..|payload|] == payload)
  {
    SuccessMeans(buffer, inputLength, ioControlCode);
    if HEADER_SIZE + |payload| <= inputLength {
      HeaderChecks(ParseHeader(buffer), ioControlCode, payload);
      PacketStart(buffer, ioControlCode, payload);
    }
  }

  /** Byte `k` of the word found where the header kept the payload's size, once the payload has been moved over it:
      the payload's as far as it reaches, then the size's. */
  function SizeByte(payload: Bytes, k: nat): Byte
    requires |payload| < WORD_LIMIT && k < 4
  {
    if 12 + k < |payload| then payload[12 + k] else WordBytes(|payload|)[k]
  }

  function OverwrittenSize(payload: Bytes): Word
    requires |payload| < WORD_LIMIT
  {
    ToWord(SizeByte(payload, 0), SizeByte(payload, 1), SizeByte(payload, 2), SizeByte(payload, 3))
  }

  lemma {:induction false} MovedWord(buffer: Bytes, payload: Bytes)
    requires HEADER_SIZE + |payload| <= |buffer| && |payload| < WORD_LIMIT && WordAt(buffer, 12) == |payload|
    ensures var moved := MovedUp(WithPayload(buffer, payload), |payload|);
            moved[..|payload|] == payload && WordAt(moved, 12) == OverwrittenSize(payload)
  {
    var n, written := |payload|, WithPayload(buffer, payload);
    var moved := MovedUp(written, n);
    assert written[HEADER_SIZE..HEADER_SIZE + n] == payload;
    WordAtBytes(buffer, 12, n);
    forall k | 12 <= k < 16
      ensures moved[k] == if k < n then payload[k] else WordBytes(n)[k - 12]
    {
      assert buffer[12..16][k - 12] == buffer[k] == written[k];
      if k >= n { assert moved[k] == written[n..][k - n]; }
    }
  }

  /** Every packet of the client decodes to its payload; the length recorded with it is the word that the move has left
      in the size's place. */
  lemma {:induction false} RecordedLength(payload: Bytes, slack: Bytes, ioControlCode: Word)
    requires |payload| < WORD_LIMIT - HEADER_SIZE
    ensures var packet := Encode(ioControlCode, payload);
            var d := Decode(packet + slack, |packet|, ioControlCode);
            d.status == Success && d.buffer[..|payload|] == payload && d.length == OverwrittenSize(payload)
  {
    var packet := Encode(ioControlCode, payload);
    var buffer := packet + slack;
    assert buffer[..|packet|] == packet;
    AcceptsExactlyPackets(buffer, |packet|, ioControlCode, payload);
    PacketStart(buffer, ioControlCode, payload);
    MovedWord(buffer, payload);
  }

  /** So a payload of 16 bytes or more has its own bytes 12 to 15 recorded as its length; and the length is right
      exactly when the payload has at most 12 bytes or its bytes from the twelfth on happen to spell its size. */
  lemma {:induction false} LengthIsRight(payload: Bytes)
    requires |payload| < WORD_LIMIT
    ensures |payload| >= 16 ==> OverwrittenSize(payload) == WordAt(payload, 12)
    ensures OverwrittenSize(payload) == |payload| <==>
              forall k :: 12 <= k < 16 && k < |payload| ==> payload[k] == WordBytes(|payload|)[k - 12]
  {
    var n := |payload|;
    var size := WordBytes(n);
    var b := [SizeByte(payload, 0), SizeByte(payload, 1), SizeByte(payload, 2), SizeByte(payload, 3)];
    BytesRoundTrip(b[0], b[1], b[2], b[3]);
    WordRoundTrip(n);
    hide ToWord, WordBytes;
    if OverwrittenSize(payload) == n { assert b == size; }
    if forall k :: 12 <= k < 16 && k < n ==> payload[k] == size[k - 12] {
      assert b == size;
    }
  }

  /** A packet of thirteen zero bytes decodes well and is recorded as having none. */
  lemma {:induction false} LengthLost(slack: Bytes, ioControlCode: Word)
    ensures var packet := Encode(ioControlCode, Zeros(13));
            var d := Decode(packet + slack, |packet|, ioControlCode);
            d.status == Success && d.buffer[..13] == Zeros(13) && d.length == 0
  {
    hide Encode, Decode, OverwrittenSize;
    RecordedLength(Zeros(13), slack, ioControlCode);
    ThirteenZeros();
  }

  lemma {:induction false} ThirteenZeros()
    ensures OverwrittenSize(Zeros(13)) == 0
  {
    var payload := Zeros(13);
    assert WordBytes(13)[1] == 0 && WordBytes(13)[2] == 0 && WordBytes(13)[3] == 0;
    hide WordBytes;
    assert SizeByte(payload, 0) == 0 && SizeByte(payload, 1) == 0 && SizeByte(payload, 2) == 0 && SizeByte(payload, 3) == 0;
  }

  /** How the decoder answers, and what it leaves in the buffer, for every buffer. */
  lemma {:induction false} DecodeAnswers(buffer: Bytes, inputLength: nat, ioControlCode: Word)
    requires inputLength <= |buffer|
    ensures var d := Decode(buffer, inputLength, ioControlCode);
            if inputLength < 28 || WordAt(buffer, 0) != 0x4C42_4457 || WordAt(buffer, 4) != 1 || WordAt(buffer, 8) != 28
               || WordAt(buffer, 16) != ioControlCode || WordAt(buffer, 24) != HeaderChecksum(ParseHeader(buffer)) then
              d == Decoded(InvalidParameter, buffer, 0)
            else
              var n := WordAt(buffer, 12);
              if inputLength < 28 + n then d == Decoded(BufferTooSmall, buffer, 0)
              else
                var payload := Crypt(StreamKey(n, ioControlCode), buffer[28..28 + n]);
                if PayloadChecksum(payload) != WordAt(buffer, 20) then
                  d == Decoded(DataError, buffer[..28] + Zeros(n) + buffer[28 + n..], 0)
                else
                  var plain := buffer[..28] + payload + buffer[28 + n..];
                  d.status == Success && d.buffer == payload + plain[n..] && d.length == WordAt(d.buffer, 12)
  {
    hide HeaderChecksum, Crypt, PayloadChecksum, StreamKey, WordAt;
    if Decode(buffer, inputLength, ioControlCode).status == Success {
      var n := ParseHeader(buffer).payloadSize;
      assert WithPayload(buffer, Plaintext(buffer, n, ioControlCode))[28..28 + n] == Plaintext(buffer, n, ioControlCode);
    }
  }

  // Tampering.

  /** One byte of the payload differs: so does the checksum of what it decrypts to. */
  lemma {:induction false} SealedChange(buffer: Bytes, n: Word, ioControlCode: Word, i: nat, x: Byte)
    requires HEADER_SIZE + n <= |buffer| && i < n && x != buffer[HEADER_SIZE + i]
    ensures PayloadChecksum(Plaintext(buffer[HEADER_SIZE + i := x], n, ioControlCode))
            != PayloadChecksum(Plaintext(buffer, n, ioControlCode))
  {
    var sealed, changed := buffer[HEADER_SIZE..HEADER_SIZE + n], buffer[HEADER_SIZE + i := x];
    assert changed[HEADER_SIZE..HEADER_SIZE + n] == sealed[i := x];
    CryptOneByte(StreamKey(n, ioControlCode), sealed, i, x);
    var plain := Plaintext(buffer, n, ioControlCode);
    FnvOneByte(0x811C_9DC5, plain, i, Plaintext(changed, n, ioControlCode)[i]);
  }

  lemma {:induction false} Refused(buffer: Bytes, inputLength: nat, ioControlCode: Word)
    requires HEADER_SIZE <= inputLength <= |buffer|
    ensures var h := ParseHeader(buffer);
            (HeaderAccepted(h, ioControlCode) && HEADER_SIZE + h.payloadSize <= inputLength
             && PayloadChecksum(Plaintext(buffer, h.payloadSize, ioControlCode)) != h.payloadChecksum) ==>
              Decode(buffer, inputLength, ioControlCode) == Decoded(DataError, WithPayload(buffer, Zeros(h.payloadSize)), 0)
  {
  }

  /** Any single-byte change to the encrypted payload of an accepted packet is a data error, and wipes the payload. */
  lemma {:induction false} PayloadChangeRejected(buffer: Bytes, inputLength: nat, ioControlCode: Word, i: nat, x: Byte)
    requires inputLength <= |buffer|
    ensures (&& Decode(buffer, inputLength, ioControlCode).status == Success
             && i < ParseHeader(buffer).payloadSize && x != buffer[HEADER_SIZE + i]) ==>
              Decode(buffer[HEADER_SIZE + i := x], inputLength, ioControlCode)
              == Decoded(DataError, WithPayload(buffer, Zeros(ParseHeader(buffer).payloadSize)), 0)
  {
    SuccessMeans(buffer, inputLength, ioControlCode);
    if Decode(buffer, inputLength, ioControlCode).status == Success
      && i < ParseHeader(buffer).payloadSize && x != buffer[HEADER_SIZE + i]
    {
      hide Decode, ParseHeader, HeaderAccepted, Plaintext;
      var h, changed := ParseHeader(buffer), buffer[HEADER_SIZE + i := x];
      var n := h.payloadSize;
      assert changed[..HEADER_SIZE] == buffer[..HEADER_SIZE] && changed[HEADER_SIZE + n..] == buffer[HEADER_SIZE + n..];
      HeaderRoundTrip(h, buffer);
      HeaderRoundTrip(h, changed);
      SealedChange(buffer, n, ioControlCode, i, x);
      Refused(changed, inputLength, ioControlCode);
      assert WithPayload(changed, Zeros(n)) == WithPayload(buffer, Zeros(n));
    }
  }

  /** Of two headers that differ in exactly one word at most one is accepted. */
  lemma {:induction false} OneWordApart(g: Header, h: Header, k: nat, ioControlCode: Word)
    requires k < 7 && Fields(h) == Fields(g)[k := Fields(h)[k]] && Fields(h)[k] != Fields(g)[k]
    ensures !(HeaderAccepted(g, ioControlCode) && HeaderAccepted(h, ioControlCode))
  {
    hide Xor, XorWord, MixAll;
    var gs, hs := Fields(g), Fields(h);
    ChecksumMixes(g);
    ChecksumMixes(h);
    if k == 0 {
      assert h.magic == hs[0] && g.magic == gs[0];
    } else if k == 6 {
      assert hs[1..6] == gs[1..6];
      assert h.magic == hs[0] == gs[0] == g.magic && h.headerChecksum == hs[6] && gs[6] == g.headerChecksum;
    } else {
      assert hs[1..6] == gs[1..6][k - 1 := hs[k]];
      assert h.magic == hs[0] == gs[0] == g.magic && h.headerChecksum == hs[6] == gs[6] == g.headerChecksum;
      MixChange(XorWord(0xA5A5_5A5A, g.magic), gs[1..6], k - 1, hs[k]);
    }
  }

  /** Any change to exactly one header word of an accepted packet is an invalid parameter. */
  lemma {:induction false} HeaderChangeRejected(buffer: Bytes, changed: Bytes, inputLength: nat, ioControlCode: Word, k: nat)
    requires inputLength <= |buffer| == |changed| && HEADER_SIZE <= |buffer|
    requires k < 7 && WordAt(changed, 4 * k) != WordAt(buffer, 4 * k)
    requires forall j :: 0 <= j < 7 && j != k ==> WordAt(changed, 4 * j) == WordAt(buffer, 4 * j)
    ensures Decode(buffer, inputLength, ioControlCode).status == Success ==>
              Decode(changed, inputLength, ioControlCode) == Decoded(InvalidParameter, changed, 0)
  {
    var g, h := ParseHeader(buffer), ParseHeader(changed);
    ParsedFields(g, buffer);
    ParsedFields(h, changed);
    assert Fields(h) == Fields(g)[k := Fields(h)[k]];
    OneWordApart(g, h, k, ioControlCode);
  }
}
