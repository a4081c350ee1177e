/** The two ends of the control packet as the program runs them: in place, on byte buffers. */
module IoctlDriver {
  import opened Bits
  import opened IoctlCodec

  lemma {:induction false} Pieces(b: Bytes, i: nat, j: nat)
    requires i <= j <= |b|
    ensures b == b[..i] + b[i..j] + b[j..]
  {
  }

  lemma {:induction false} StreamStep(stream: Bytes, key: Word, i: nat)
    requires i < |stream|
    ensures stream[i..] == KeyStream(key, |stream| - i) ==>
              stream[i] == KeyByte(NextKey(key)) && stream[i + 1..] == KeyStream(NextKey(key), |stream| - (i + 1))
  {
    assert stream[i] == stream[i..][0] && stream[i + 1..] == stream[i..][1..];
  }

  /** The buffer after `i` bytes from `start` on have been combined with the stream. */
  ghost function Progress(before: Bytes, stream: Bytes, start: nat, i: nat): (b: Bytes)
    requires i <= |stream| && start + |stream| <= |before|
    ensures |b| == |before|
  {
    before[..start] + XorSeq(before[start..start + i], stream[..i]) + before[start + i..]
  }

  lemma {:induction false} ProgressStep(before: Bytes, stream: Bytes, start: nat, i: nat)
    requires i < |stream| && start + |stream| <= |before|
    ensures Progress(before, stream, start, i)[start + i] == before[start + i]
    ensures Progress(before, stream, start, i + 1)
            == Progress(before, stream, start, i)[start + i := XorByte(before[start + i], stream[i])]
  {
    var one, two := Progress(before, stream, start, i), Progress(before, stream, start, i + 1);
    var done, next := before[start..start + i], before[start..start + i + 1];
    assert next[..i] == done && next[i] == before[start + i] && stream[..i + 1][..i] == stream[..i];
    assert XorSeq(next, stream[..i + 1]) == XorSeq(done, stream[..i]) + [XorByte(before[start + i], stream[i])];
    assert two == one[start + i := XorByte(before[start + i], stream[i])];
  }

  lemma {:induction false} ProgressEnds(before: Bytes, stream: Bytes, start: nat)
    requires start + |stream| <= |before|
    ensures Progress(before, stream, start, 0) == before
    ensures var after, end := Progress(before, stream, start, |stream|), start + |stream|;
            && after[start..end] == XorSeq(before[start..end], stream)
            && after[..start] == before[..start] && after[end..] == before[end..]
  {
    assert stream[..|stream|] == stream;
  }

  /** WdblIoctlCryptPayload on the `size` bytes at `start`. */
  method CryptPayload(bytes: array<Byte>, start: nat, size: Word, ioControlCode: Word)
    requires start + size <= bytes.Length
    modifies bytes
    ensures bytes[start..start + size] == Crypt(StreamKey(size, ioControlCode), old(bytes[start..start + size]))
    ensures bytes[..start] == old(bytes[..start]) && bytes[start + size..] == old(bytes[start + size..])
  {
    var key := StreamKey(size, ioControlCode);
    ghost var before, stream := bytes[..], KeyStream(key, size);
    ProgressEnds(before, stream, start);
    for i := 0 to size
      invariant stream[i..] == KeyStream(key, size - i)
      invariant bytes[..] == Progress(before, stream, start, i)
    {
      StreamStep(stream, key, i);
      ProgressStep(before, stream, start, i);
      key := NextKey(key);
      bytes[start + i] := XorByte(bytes[..][start + i], KeyByte(key));
    }
  }

  /** WdblIoctlPayloadChecksum of the `size` bytes at `start`. */
  method ChecksumOf(bytes: array<Byte>, start: nat, size: Word) returns (hash: Word)
    requires start + size <= bytes.Length
    ensures hash == PayloadChecksum(bytes[start..start + size])
  {
    hash := 0x811C_9DC5;
    ghost var data := bytes[start..start + size];
    for i := 0 to size
      invariant Fnv(hash, data[i..]) == PayloadChecksum(data)
    {
      assert data[i..][1..] == data[i + 1..];
      hash := TimesPrime(XorWord(hash, bytes[start + i]));
    }
  }

  /** RtlMoveMemory to the front of the same buffer, `start` bytes down: the ranges may overlap. */
  method MoveToFront(bytes: array<Byte>, start: nat, size: nat)
    requires start + size <= bytes.Length
    modifies bytes
    ensures bytes[..size] == old(bytes[start..start + size])
    ensures bytes[size..] == old(bytes[size..])
  {
    for i := 0 to size
      invariant forall k :: 0 <= k < i ==> bytes[k] == old(bytes[start + k])
      invariant forall k :: i <= k < bytes.Length ==> bytes[k] == old(bytes[k])
    {
      bytes[i] := bytes[start + i];
    }
  }

  /** RtlZeroMemory. */
  method Wipe(bytes: array<Byte>, start: nat, size: nat)
    requires start + size <= bytes.Length
    modifies bytes
    ensures bytes[..start] == old(bytes[..start]) && bytes[start + size..] == old(bytes[start + size..])
    ensures bytes[start..start + size] == Zeros(size)
  {
    forall i | start <= i < start + size {
      bytes[i] := 0;
    }
  }

  lemma {:induction false} Written(before: Bytes, after: Bytes, n: nat, payload: Bytes)
    requires HEADER_SIZE + n <= |before| == |after| && |payload| == n
    requires after[..HEADER_SIZE] == before[..HEADER_SIZE] && after[HEADER_SIZE..HEADER_SIZE + n] == payload
    requires after[HEADER_SIZE + n..] == before[HEADER_SIZE + n..]
    ensures after == WithPayload(before, payload)
  {
    Pieces(after, HEADER_SIZE, HEADER_SIZE + n);
  }

  lemma {:induction false} Moved(before: Bytes, after: Bytes, n: nat)
    requires HEADER_SIZE + n <= |before| == |after|
    requires after[..n] == before[HEADER_SIZE..HEADER_SIZE + n] && after[n..] == before[n..]
    ensures after == MovedUp(before, n)
  {
    Pieces(after, n, n);
  }

  /** WdblDecodeIoctlInput: `length` is what it stores back as the input length on success. */
  method DecodeIoctlInput(buffer: array?<Byte>, inputLength: Word, ioControlCode: Word)
    returns (status: Status, length: Word)
    requires buffer != null ==> inputLength <= buffer.Length
    modifies buffer
    ensures buffer == null ==> status == InvalidParameter
    ensures buffer != null ==>
              Decoded(status, buffer[..], length) == Decode(old(buffer[..]), inputLength, ioControlCode)
  {
    hide Xor, XorWord, HeaderChecksum, StreamKey, Crypt, PayloadChecksum, WordAt;
    length := 0;
    if buffer == null || inputLength < HEADER_SIZE {
      return InvalidParameter, length;
    }
    ghost var before := buffer[..];
    var header := ParseHeader(buffer[..]);
    if !HeaderAccepted(header, ioControlCode) {
      return InvalidParameter, length;
    }
    var n := header.payloadSize;
    if n > inputLength - header.headerSize {
      return BufferTooSmall, length;
    }
    CryptPayload(buffer, HEADER_SIZE, n, ioControlCode);
    ghost var payload := Plaintext(before, n, ioControlCode);
    ghost var written := WithPayload(before, payload);
    Written(before, buffer[..], n, payload);
    var checksum := ChecksumOf(buffer, HEADER_SIZE, n);
    if checksum != header.payloadChecksum {
      Wipe(buffer, HEADER_SIZE, n);
      Written(before, buffer[..], n, Zeros(n));
      return DataError, length;
    }
    MoveToFront(buffer, HEADER_SIZE, n);
    Moved(written, buffer[..], n);
    length := WordAt(buffer[..], 12);
    status := Success;
  }

  lemma {:induction false} Assembled(packet: Bytes, ioControlCode: Word, payload: Bytes)
    requires |payload| < WORD_LIMIT - HEADER_SIZE && |packet| == HEADER_SIZE + |payload|
    ensures (packet[..HEADER_SIZE] == HeaderBytes(PacketHeader(ioControlCode, payload))
             && packet[HEADER_SIZE..] == Crypt(StreamKey(|payload|, ioControlCode), payload)) ==>
              packet == Encode(ioControlCode, payload)
  {
    Pieces(packet, HEADER_SIZE, |packet|);
  }

  /** The header structure laid over the front of a buffer. */
  method StoreHeader(buffer: array<Byte>, header: Header)
    requires HEADER_SIZE <= buffer.Length
    modifies buffer
    ensures buffer[..HEADER_SIZE] == HeaderBytes(header) && buffer[HEADER_SIZE..] == old(buffer[HEADER_SIZE..])
  {
    var bytes := HeaderBytes(header);
    forall i | 0 <= i < HEADER_SIZE {
      buffer[i] := bytes[i];
    }
  }

  /** BuildSecureDriverInput; `input` stands for the vector it fills. */
  method BuildSecureDriverInput(ioControlCode: Word, payload: array?<Byte>, payloadSize: Word)
    returns (ok: bool, input: array<Byte>)
    requires payload != null ==> payload.Length == payloadSize
    ensures ok <==> (payloadSize > 0 ==> payload != null) && payloadSize < WORD_LIMIT - HEADER_SIZE
    ensures ok ==> input[..] == Encode(ioControlCode, if payload == null then [] else payload[..])
  {
    hide Xor, XorWord, HeaderChecksum, StreamKey, Crypt, PayloadChecksum;
    if payloadSize > 0 && payload == null {
      return false, new Byte[0];
    }
    if payloadSize > 0xFFFF_FFFF - HEADER_SIZE {
      return false, new Byte[0];
    }
    input := new Byte[HEADER_SIZE + payloadSize](_ => 0);
    if payloadSize > 0 {
      forall i | 0 <= i < payloadSize {
        input[HEADER_SIZE + i] := payload[i];
      }
    }
    var end := HEADER_SIZE + payloadSize;
    ghost var plain := if payload == null then [] else payload[..];
    assert input[HEADER_SIZE..end] == input[HEADER_SIZE..] == plain;
    var checksum := ChecksumOf(input, HEADER_SIZE, payloadSize);
    var unsigned := Header(MAGIC, VERSION, HEADER_SIZE, payloadSize, ioControlCode, checksum, 0);
    var header := unsigned.(headerChecksum := HeaderChecksum(unsigned));
    StoreHeader(input, header);
    assert input[HEADER_SIZE..end] == input[HEADER_SIZE..];
    CryptPayload(input, HEADER_SIZE, payloadSize, ioControlCode);
    assert input[HEADER_SIZE..end] == input[HEADER_SIZE..];
    Assembled(input[..], ioControlCode, plain);
    ok := true;
  }
}
