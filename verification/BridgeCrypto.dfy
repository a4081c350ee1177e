/** The bridge's sealed envelopes: a keyed stream in blocks, hex, and an authentication tag. HMAC-SHA256 is any
    function from a key and a text to 32 bytes that may fail. */
module BridgeCrypto {
  import opened Bits
  import opened JsonText
  import opened Numerals
  import opened Order

  const BLOCK_BYTES: nat := 32
  const HEADER_BUFFER: nat := 256

  type Block = b: Bytes | |b| == 32 witness seq(32, _ => 0)
  type Nonce = b: Bytes | |b| == 16 witness seq(16, _ => 0)
  type Mac = (string, string) -> Option<Block>

  datatype Sealed = Refused | Overflow | Envelope(text: string)

  // The keyed stream.

  function StreamBlock(mac: Mac, key: string, nonce: string, counter: Word): Option<Block> {
    mac(key, "stream|" + nonce + "|" + Decimal(counter))
  }

  function NextCounter(counter: Word): Word {
    (counter + 1) % 0x1_0000_0000
  }

  /** The loop of XorCrypt from a block counter on; nothing when a block cannot be computed. */
  function XorFrom(mac: Mac, key: string, nonce: string, input: Bytes, counter: Word): (out: Option<Bytes>)
    ensures out.Some? ==> |out.value| == |input|
    decreases |input|
  {
    if input == [] then Some([])
    else
      match StreamBlock(mac, key, nonce, counter)
      case None => None
      case Some(block) =>
        var n := Min(BLOCK_BYTES, |input|);
        match XorFrom(mac, key, nonce, input[n..], NextCounter(counter))
        case None => None
        case Some(rest) => Some(XorSeq(input[..n], block[..n]) + rest)
  }

  function XorCrypt(mac: Mac, key: string, nonce: string, input: Bytes): Bytes {
    match XorFrom(mac, key, nonce, input, 0)
    case None => []
    case Some(out) => out
  }

  /** Counter of the `j`th block of a message; it wraps at 32 bits. */
  function CounterOf(j: nat): Word {
    j % 0x1_0000_0000
  }

  /** Every block that blocks `from` on of `n` more bytes need can be computed. */
  predicate BlocksFrom(mac: Mac, key: string, nonce: string, n: nat, from: nat)
    decreases n
  {
    n == 0 ||
    (StreamBlock(mac, key, nonce, CounterOf(from)).Some? && BlocksFrom(mac, key, nonce, n - Min(BLOCK_BYTES, n), from + 1))
  }

  predicate BlocksAvailable(mac: Mac, key: string, nonce: string, n: nat) {
    BlocksFrom(mac, key, nonce, n, 0)
  }

  lemma {:induction false} CounterSteps(j: nat)
    ensures NextCounter(CounterOf(j)) == CounterOf(j + 1)
  {
  }

  lemma {:induction false} BlockOf(mac: Mac, key: string, nonce: string, j: nat)
    ensures StreamBlock(mac, key, nonce, CounterOf(j)) == mac(key, "stream|" + nonce + "|" + Decimal(j % 0x1_0000_0000))
  {
  }

  /** One block for every 32 bytes or part of them. */
  lemma {:induction false} BlocksMeaning(mac: Mac, key: string, nonce: string, n: nat, from: nat)
    ensures BlocksFrom(mac, key, nonce, n, from) <==>
              forall j: nat :: from <= j < from + (n + 31) / 32 ==> mac(key, "stream|" + nonce + "|" + Decimal(j % 0x1_0000_0000)).Some?
    decreases n
  {
    if n > 0 {
      hide CounterOf, StreamBlock;
      BlockOf(mac, key, nonce, from);
      BlocksMeaning(mac, key, nonce, n - Min(BLOCK_BYTES, n), from + 1);
      assert (n - Min(BLOCK_BYTES, n) + 31) / 32 == (n + 31) / 32 - 1;
    }
  }

  lemma {:induction false} XorAvailable(mac: Mac, key: string, nonce: string, input: Bytes, from: nat)
    ensures XorFrom(mac, key, nonce, input, CounterOf(from)).Some? <==> BlocksFrom(mac, key, nonce, |input|, from)
    decreases |input|
  {
    if input != [] {
      CounterSteps(from);
      hide CounterOf, NextCounter, StreamBlock;
      XorAvailable(mac, key, nonce, input[Min(BLOCK_BYTES, |input|)..], from + 1);
    }
  }

  lemma {:induction false} XorTwice(mac: Mac, key: string, nonce: string, input: Bytes, counter: Word)
    requires XorFrom(mac, key, nonce, input, counter).Some?
    ensures XorFrom(mac, key, nonce, XorFrom(mac, key, nonce, input, counter).value, counter) == Some(input)
    decreases |input|
  {
    if input != [] {
      hide StreamBlock, NextCounter, XorSeq;
      var n, block := Min(BLOCK_BYTES, |input|), StreamBlock(mac, key, nonce, counter).value;
      var rest := XorFrom(mac, key, nonce, input[n..], NextCounter(counter)).value;
      var out := XorSeq(input[..n], block[..n]) + rest;
      XorTwice(mac, key, nonce, input[n..], NextCounter(counter));
      XorSeqInvolution(input[..n], block[..n]);
      assert |out| == |input| && out[..n] == XorSeq(input[..n], block[..n]) && out[n..] == rest;
      assert XorFrom(mac, key, nonce, out, counter) == Some(XorSeq(out[..n], block[..n]) + input[n..]);
      assert input[..n] + input[n..] == input;
    }
  }

  lemma {:induction false} XorAt(mac: Mac, key: string, nonce: string, input: Bytes, from: nat, i: nat)
    requires XorFrom(mac, key, nonce, input, CounterOf(from)).Some? && i < |input|
    ensures var block := StreamBlock(mac, key, nonce, CounterOf(from + i / 32));
            && block.Some?
            && XorFrom(mac, key, nonce, input, CounterOf(from)).value[i] == XorByte(input[i], block.value[i % 32])
    decreases |input|
  {
    hide CounterOf, NextCounter, StreamBlock, XorByte, XorSeq;
    var n, block := Min(BLOCK_BYTES, |input|), StreamBlock(mac, key, nonce, CounterOf(from)).value;
    CounterSteps(from);
    var first := XorSeq(input[..n], block[..n]);
    var rest := XorFrom(mac, key, nonce, input[n..], CounterOf(from + 1)).value;
    assert XorFrom(mac, key, nonce, input, CounterOf(from)).value == first + rest;
    if i < n {
      assert (first + rest)[i] == first[i] == XorByte(input[i], block[i]);
    } else {
      XorAt(mac, key, nonce, input[n..], from + 1, i - n);
      assert (first + rest)[i] == rest[i - n] && (i - 32) / 32 + 1 == i / 32 && (i - 32) % 32 == i % 32;
    }
  }

  /** Each byte is combined with its byte of its block, whatever the message's length: byte `i` with byte `i % 32` of the
      code of "stream", the nonce and the number of the block, which wraps at 32 bits. */
  lemma {:induction false} XorBytewise(mac: Mac, key: string, nonce: string, input: Bytes, from: nat, i: nat)
    requires XorFrom(mac, key, nonce, input, CounterOf(from)).Some? && i < |input|
    ensures var block := mac(key, "stream|" + nonce + "|" + Decimal((from + i / 32) % 0x1_0000_0000));
            && block.Some?
            && XorFrom(mac, key, nonce, input, CounterOf(from)).value[i] == XorByte(input[i], block.value[i % 32])
  {
    BlockOf(mac, key, nonce, from + i / 32);
    hide XorFrom, XorByte, StreamBlock, CounterOf;
    XorAt(mac, key, nonce, input, from, i);
  }

  /** XorCrypt with the same key and nonce undoes itself exactly when every block the message needs is available. */
  lemma {:induction false} XorCryptInvolution(mac: Mac, key: string, nonce: string, input: Bytes)
    ensures XorCrypt(mac, key, nonce, XorCrypt(mac, key, nonce, input)) == input
            <==> BlocksAvailable(mac, key, nonce, |input|)
    ensures |XorCrypt(mac, key, nonce, input)| == |input| <==> BlocksAvailable(mac, key, nonce, |input|)
  {
    XorAvailable(mac, key, nonce, input, 0);
    if XorFrom(mac, key, nonce, input, 0).Some? { XorTwice(mac, key, nonce, input, 0); }
  }

  // Envelopes.

  function EnvelopeText(nonce: string, data: string, tag: string): string {
    "{\"secure\":1,\"nonce\":\"" + nonce + "\",\"data\":\"" + data + "\",\"tag\":\"" + tag + "\"}"
  }

  function Tag(mac: Mac, secret: string, nonce: string, data: string): Option<Block> {
    mac(secret, "packet|" + nonce + "|" + data)
  }

  /** EncryptPayload; the nonce is what the random generator gave, if it gave anything. */
  function EncryptPayload(mac: Mac, secret: string, random: Option<Nonce>, plain: Bytes): Sealed {
    if secret == "" || random.None? then Refused
    else
      var nonce := HexEncode(random.value);
      var cipher := XorCrypt(mac, secret, nonce, plain);
      if |cipher| != |plain| then Refused
      else
        var data := HexEncode(cipher);
        match Tag(mac, secret, nonce, data)
        case None => Refused
        case Some(tag) =>
          var text := EnvelopeText(nonce, data, HexEncode(tag));
          if |text| >= HEADER_BUFFER then Overflow else Envelope(text)
  }

  function DecryptPayload(mac: Mac, secret: string, envelope: string): Option<Bytes> {
    match (ExtractString(envelope, "nonce"), ExtractString(envelope, "data"), ExtractString(envelope, "tag"))
    case (Some(nonce), Some(data), Some(tag)) =>
      (match (HexDecode(data), Tag(mac, secret, nonce, data), HexDecode(tag))
       case (Some(cipher), Some(expected), Some(actual)) =>
         if expected != actual then None
         else
           var plain := XorCrypt(mac, secret, nonce, cipher);
           if |plain| == |cipher| then Some(plain) else None
       case _ => None)
    case _ => None
  }

  /** Sealing succeeds exactly when there is a secret and a nonce, the blocks and the tag can be computed, and the
      message is at most 58 bytes: longer envelopes do not fit the 256-byte buffer. */
  lemma {:induction false} EncryptSucceeds(mac: Mac, secret: string, random: Option<Nonce>, plain: Bytes)
    ensures EncryptPayload(mac, secret, random, plain).Envelope? <==>
              && secret != "" && random.Some?
              && var nonce := HexEncode(random.value);
              && BlocksAvailable(mac, secret, nonce, |plain|)
              && Tag(mac, secret, nonce, HexEncode(XorCrypt(mac, secret, nonce, plain))).Some?
              && |plain| <= 58
  {
    if random.Some? { XorCryptInvolution(mac, secret, HexEncode(random.value), plain); }
  }

  /** Where everything else is in order, exactly the messages above 58 bytes overflow the buffer. */
  lemma {:induction false} EncryptOverflows(mac: Mac, secret: string, random: Option<Nonce>, plain: Bytes)
    ensures EncryptPayload(mac, secret, random, plain) == Overflow <==>
              && secret != "" && random.Some?
              && var nonce := HexEncode(random.value);
              && BlocksAvailable(mac, secret, nonce, |plain|)
              && Tag(mac, secret, nonce, HexEncode(XorCrypt(mac, secret, nonce, plain))).Some?
              && |plain| > 58
  {
    if random.Some? { XorCryptInvolution(mac, secret, HexEncode(random.value), plain); }
  }

  /** With an HMAC that always works, 59 bytes are too many. */
  lemma {:induction false} FiftyNineBytes(mac: Mac, secret: string, random: Nonce, plain: Bytes)
    requires secret != "" && |plain| == 59 && forall key, text :: mac(key, text).Some?
    ensures EncryptPayload(mac, secret, Some(random), plain) == Overflow
  {
    var nonce := HexEncode(random);
    AllBlocks(mac, secret, nonce, 59, 0);
    EncryptOverflows(mac, secret, Some(random), plain);
  }

  lemma {:induction false} AllBlocks(mac: Mac, key: string, nonce: string, n: nat, from: nat)
    requires forall key, text :: mac(key, text).Some?
    ensures BlocksFrom(mac, key, nonce, n, from)
    decreases n
  {
    if n > 0 { AllBlocks(mac, key, nonce, n - Min(BLOCK_BYTES, n), from + 1); }
  }

  predicate NoQuotes(s: string) {
    forall i :: 0 <= i < |s| ==> s[i] != '"'
  }

  lemma {:induction false} HexNoQuotes(data: Bytes)
    ensures NoQuotes(HexEncode(data)) && forall i :: 0 <= i < |HexEncode(data)| ==> HexEncode(data)[i] != '\\'
    ensures forall i :: 0 <= i < |HexEncode(data)| ==> HexEncode(data)[i] != 't'
  {
    HexIsPlain(data);
    forall i | 0 <= i < |HexEncode(data)|
      ensures HexEncode(data)[i] != '"' && HexEncode(data)[i] != '\\' && HexEncode(data)[i] != 't'
    {
      assert IsLowerHex(HexEncode(data)[i]);
    }
  }

  /** A printed field, followed by what comes after its closing quote. */
  function Field(name: string, value: string, x: string): string {
    "\"" + name + "\"" + (":\"" + (value + ("\"" + x)))
  }

  lemma {:induction false} Regroup(a: string, n: string, b: string, d: string, c: string, t: string, e: string)
    ensures a + n + b + d + c + t + e == a + (n + (b + (d + (c + (t + e)))))
  {
    assert c + t + e == c + (t + e);
    assert b + d + (c + t + e) == b + (d + (c + t + e));
  }

  lemma {:induction false} FirstQuote(x: string)
    ensures "{" + (("\"secure") + ("\":1," + ("\"" + "nonce" + "\"" + (":\"" + x)))) == "{\"secure\":1,\"nonce\":\"" + x
  {
  }

  lemma {:induction false} NextQuote(x: string)
    ensures "\"" + ("," + ("\"" + "data" + "\"" + (":\"" + x))) == "\",\"data\":\"" + x
    ensures "\"" + ("," + ("\"" + "tag" + "\"" + (":\"" + x))) == "\",\"tag\":\"" + x
  {
  }

  lemma {:induction false} EnvelopeFields(nonce: string, data: string, tag: string)
    ensures EnvelopeText(nonce, data, tag)
            == "{" + (("\"secure") + ("\":1," + Field("nonce", nonce, "," + Field("data", data, "," + Field("tag", tag, "}")))))
  {
    var z := tag + ("\"" + "}");
    var y := data + ("\"" + ("," + ("\"" + "tag" + "\"" + (":\"" + z))));
    FirstQuote(nonce + ("\"" + ("," + ("\"" + "data" + "\"" + (":\"" + y)))));
    NextQuote(y);
    NextQuote(z);
    Regroup("{\"secure\":1,\"nonce\":\"", nonce, "\",\"data\":\"", data, "\",\"tag\":\"", tag, "\"}");
    assert "\"" + "}" == "\"}";
  }

  /** A field is passed over by a search for another key that its name and its value's start differ from. */
  lemma {:induction false} PassField(name: string, value: string, x: string, token: string, j: nat)
    requires NoQuotes(name) && NoQuotes(value) && name != ""
    requires 2 <= |token| <= |x| && token[0] == '"' && token[1] != ':' && token[1] != ',' && token[1] != name[0]
    requires 1 <= j < |token| && ("\"" + value + "\"," + x)[j] != token[j]
    ensures After(Field(name, value, "," + x), token) == After(x, token)
  {
    var d := "\"," + x;
    var c := "\"" + value + d;
    var b := "\":" + c;
    assert Field(name, value, "," + x) == ("\"" + name) + b;
    assert c == "\"" + value + "\"," + x;
    PassStart("\"" + name, b, token, 1);
    PassStart("\":", c, token, 1);
    PassStart("\"" + value, d, token, j);
    PassStart("\",", x, token, 1);
  }

  lemma {:induction false} PassHead(x: string, token: string)
    requires 2 <= |token| <= |x| && token[0] == '"' && token[1] != 's' && token[1] != ':'
    ensures After("{" + ("\"secure" + ("\":1," + x)), token) == After(x, token)
  {
    PassPlain("{", "\"secure" + ("\":1," + x), token);
    PassStart("\"secure", "\":1," + x, token, 1);
    PassStart("\":1,", x, token, 1);
  }

  lemma {:induction false} ReadField(json: string, name: string, value: string, x: string)
    requires After(json, "\"" + name + "\"") == After(Field(name, value, x), "\"" + name + "\"")
    requires NoQuotes(value) && forall i :: 0 <= i < |value| ==> value[i] != '\\'
    ensures ExtractString(json, name) == Some(value)
  {
    var token, rest := "\"" + name + "\"", ":\"" + (value + ("\"" + x));
    Here(Field(name, value, x), token, rest);
    FieldValue(json, name, value + ("\"" + x));
    UnescapePlain(value, x);
  }

  lemma {:induction false} ReadsNonce(nonce: Nonce, data: Bytes, tag: Block)
    ensures ExtractString(EnvelopeText(HexEncode(nonce), HexEncode(data), HexEncode(tag)), "nonce") == Some(HexEncode(nonce))
  {
    var n, d, t := HexEncode(nonce), HexEncode(data), HexEncode(tag);
    HexNoQuotes(nonce);
    EnvelopeFields(n, d, t);
    var rest := "," + Field("data", d, "," + Field("tag", t, "}"));
    PassHead(Field("nonce", n, rest), "\"nonce\"");
    ReadField(EnvelopeText(n, d, t), "nonce", n, rest);
  }

  lemma {:induction false} ReadsData(nonce: Nonce, data: Bytes, tag: Block)
    ensures ExtractString(EnvelopeText(HexEncode(nonce), HexEncode(data), HexEncode(tag)), "data") == Some(HexEncode(data))
  {
    var n, d, t := HexEncode(nonce), HexEncode(data), HexEncode(tag);
    HexNoQuotes(nonce);
    HexNoQuotes(data);
    EnvelopeFields(n, d, t);
    var rest := "," + Field("tag", t, "}");
    var x := Field("data", d, rest);
    PassHead(Field("nonce", n, "," + x), "\"data\"");
    assert ("\"" + n + "\"," + x)[3] == n[2];
    PassField("nonce", n, x, "\"data\"", 3);
    ReadField(EnvelopeText(n, d, t), "data", d, rest);
  }

  lemma {:induction false} ReadsTag(nonce: Nonce, data: Bytes, tag: Block)
    ensures ExtractString(EnvelopeText(HexEncode(nonce), HexEncode(data), HexEncode(tag)), "tag") == Some(HexEncode(tag))
  {
    var n, d, t := HexEncode(nonce), HexEncode(data), HexEncode(tag);
    HexNoQuotes(nonce);
    HexNoQuotes(data);
    HexNoQuotes(tag);
    EnvelopeFields(n, d, t);
    var x := Field("tag", t, "}");
    var y := Field("data", d, "," + x);
    PassHead(Field("nonce", n, "," + y), "\"tag\"");
    assert ("\"" + n + "\"," + y)[1] == n[0];
    PassField("nonce", n, y, "\"tag\"", 1);
    assert ("\"" + d + "\"," + x)[1] == if d == "" then '"' else d[0];
    PassField("data", d, x, "\"tag\"", 1);
    ReadField(EnvelopeText(n, d, t), "tag", t, "}");
  }

  /** Whatever is sealed is accepted and comes back. */
  lemma {:induction false} EnvelopeRoundTrip(mac: Mac, secret: string, random: Option<Nonce>, plain: Bytes)
    requires EncryptPayload(mac, secret, random, plain).Envelope?
    ensures DecryptPayload(mac, secret, EncryptPayload(mac, secret, random, plain).text) == Some(plain)
  {
    hide XorCrypt, HexEncode, HexDecode, ExtractString, EnvelopeText, Tag;
    var nonce := HexEncode(random.value);
    var cipher := XorCrypt(mac, secret, nonce, plain);
    var tag := Tag(mac, secret, nonce, HexEncode(cipher)).value;
    ReadsNonce(random.value, cipher, tag);
    ReadsData(random.value, cipher, tag);
    ReadsTag(random.value, cipher, tag);
    HexRoundTrip(cipher);
    HexRoundTrip(tag);
    XorCryptInvolution(mac, secret, nonce, plain);
  }

  /** The text sealed: version, nonce, data and tag in this order; the data is the message under the stream, and the tag
      the code of "packet", the nonce and the data. */
  lemma {:induction false} SealedText(mac: Mac, secret: string, random: Option<Nonce>, plain: Bytes)
    requires EncryptPayload(mac, secret, random, plain).Envelope?
    ensures var nonce := HexEncode(random.value);
            var data := HexEncode(XorCrypt(mac, secret, nonce, plain));
            var tag := mac(secret, "packet|" + nonce + "|" + data);
            && tag.Some?
            && EncryptPayload(mac, secret, random, plain).text
               == "{\"secure\":1,\"nonce\":\"" + nonce + "\",\"data\":\"" + data + "\",\"tag\":\"" + HexEncode(tag.value) + "\"}"
  {
    hide HexEncode, XorCrypt;
  }

  /** An envelope is opened exactly when its three fields are there, data and tag are hex, the tag is the code of
      "packet", the nonce and the data as they stand, and the blocks can be computed; it gives as many bytes as there are
      of data. */
  lemma {:induction false} OpensExactly(mac: Mac, secret: string, envelope: string)
    ensures var nonce, data, tag := ExtractString(envelope, "nonce"), ExtractString(envelope, "data"), ExtractString(envelope, "tag");
            DecryptPayload(mac, secret, envelope).Some? <==>
              && nonce.Some? && data.Some? && tag.Some?
              && HexDecode(data.value).Some? && HexDecode(tag.value).Some?
              && mac(secret, "packet|" + nonce.value + "|" + data.value).Some?
              && mac(secret, "packet|" + nonce.value + "|" + data.value).value == HexDecode(tag.value).value
              && BlocksAvailable(mac, secret, nonce.value, |HexDecode(data.value).value|)
    ensures var nonce, data := ExtractString(envelope, "nonce"), ExtractString(envelope, "data");
            DecryptPayload(mac, secret, envelope).Some? ==>
              DecryptPayload(mac, secret, envelope).value == XorCrypt(mac, secret, nonce.value, HexDecode(data.value).value)
  {
    var nonce, data := ExtractString(envelope, "nonce"), ExtractString(envelope, "data");
    if nonce.Some? && data.Some? && HexDecode(data.value).Some? {
      XorCryptInvolution(mac, secret, nonce.value, HexDecode(data.value).value);
    }
    hide ExtractString, HexDecode, XorCrypt, BlocksAvailable;
  }

  /** Any nonce, data and tag in an envelope: it is opened exactly when the tag is right and the blocks are there. */
  lemma {:induction false} TagDecides(mac: Mac, secret: string, nonce: Nonce, data: Bytes, tag: Block)
    ensures var n, d := HexEncode(nonce), HexEncode(data);
            DecryptPayload(mac, secret, EnvelopeText(n, d, HexEncode(tag))).Some? <==>
              && mac(secret, "packet|" + n + "|" + d) == Some(tag)
              && BlocksAvailable(mac, secret, n, |data|)
  {
    hide HexEncode, HexDecode, ExtractString, EnvelopeText, BlocksAvailable;
    ReadsNonce(nonce, data, tag);
    ReadsData(nonce, data, tag);
    ReadsTag(nonce, data, tag);
    HexRoundTrip(data);
    HexRoundTrip(tag);
    OpensExactly(mac, secret, EnvelopeText(HexEncode(nonce), HexEncode(data), HexEncode(tag)));
  }

  /** So an envelope whose tag is replaced by any other 32 bytes is refused. */
  lemma {:induction false} OtherTagRefused(mac: Mac, secret: string, random: Option<Nonce>, plain: Bytes, other: Block)
    requires EncryptPayload(mac, secret, random, plain).Envelope?
    ensures var nonce := HexEncode(random.value);
            var data := HexEncode(XorCrypt(mac, secret, nonce, plain));
            mac(secret, "packet|" + nonce + "|" + data) != Some(other) ==>
              DecryptPayload(mac, secret, EnvelopeText(nonce, data, HexEncode(other))) == None
  {
    hide HexEncode, XorCrypt, DecryptPayload, EnvelopeText;
    TagDecides(mac, secret, random.value, XorCrypt(mac, secret, HexEncode(random.value), plain), other);
  }
}
