/** The bridge's codecs as loops over buffers, each proved against its function. */
module BridgeCodecs {
  import opened Bits
  import opened Order
  import J = JsonText
  import C = BridgeCrypto

  method HexEncode(data: Bytes) returns (result: string)
    ensures result == J.HexEncode(data)
  {
    hide J.HexDigit;
    result := "";
    for i := 0 to |data|
      invariant result + J.HexEncode(data[i..]) == J.HexEncode(data)
    {
      ghost var before, left := result, data[i..];
      assert left[1..] == data[i + 1..];
      var high, low := J.HexDigit(data[i] / 16), J.HexDigit(data[i] % 16);
      result := result + [high];
      result := result + [low];
      assert result + J.HexEncode(left[1..]) == before + ([high, low] + J.HexEncode(left[1..]));
    }
  }

  /** What is decoded already, followed by the rest if that decodes. */
  function Extended(done: Bytes, rest: J.Option<Bytes>): J.Option<Bytes> {
    match rest
    case None => J.None
    case Some(data) => J.Some(done + data)
  }

  lemma {:induction false} HexStep(text: string, i: nat, done: Bytes)
    requires i + 2 <= |text|
    ensures J.HexValue(text[i]) < 0 || J.HexValue(text[i + 1]) < 0 ==> J.HexDecode(text[i..]).None?
    ensures J.HexValue(text[i]) >= 0 && J.HexValue(text[i + 1]) >= 0 ==>
              Extended(done, J.HexDecode(text[i..]))
              == Extended(done + [J.Join(J.HexValue(text[i]), J.HexValue(text[i + 1]))], J.HexDecode(text[i + 2..]))
  {
    hide J.HexValue;
    var left, rest := text[i..], J.HexDecode(text[i + 2..]);
    assert left[2..] == text[i + 2..] && left[0] == text[i] && left[1] == text[i + 1];
    if J.HexValue(text[i]) >= 0 && J.HexValue(text[i + 1]) >= 0 && rest.Some? {
      var b := J.Join(J.HexValue(text[i]), J.HexValue(text[i + 1]));
      assert done + ([b] + rest.value) == (done + [b]) + rest.value;
    }
  }

  lemma {:induction false} HexEnds(text: string)
    ensures |text| % 2 != 0 ==> J.HexDecode(text).None?
    ensures Extended([], J.HexDecode(text)) == J.HexDecode(text) && J.HexDecode("") == J.Some([])
  {
    J.HexAccepts(text);
    if J.HexDecode(text).Some? { assert [] + J.HexDecode(text).value == J.HexDecode(text).value; }
  }

  method HexDecode(text: string) returns (ok: bool, data: Bytes)
    ensures ok == J.HexDecode(text).Some? && (ok ==> data == J.HexDecode(text).value)
  {
    hide J.HexValue, J.HexDecode;
    data := [];
    HexEnds(text);
    if |text| % 2 != 0 {
      return false, data;
    }
    var i := 0;
    assert text[0..] == text;
    while i < |text|
      invariant i <= |text| && i % 2 == 0
      invariant J.HexDecode(text) == Extended(data, J.HexDecode(text[i..]))
    {
      HexStep(text, i, data);
      var high, low := J.HexValue(text[i]), J.HexValue(text[i + 1]);
      if high < 0 || low < 0 {
        return false, data;
      }
      data := data + [J.Join(high, low)];
      i := i + 2;
    }
    assert text[i..] == "" && data + [] == data;
    ok := true;
  }

  /** ConstantTimeEqual: no early exit, and equal exactly when the contents are. */
  method ConstantTimeEqual(left: Bytes, right: Bytes) returns (equal: bool)
    ensures equal <==> left == right
  {
    if |left| != |right| {
      return false;
    }
    var difference: nat := 0;
    for i := 0 to |left|
      invariant difference == 0 <==> left[..i] == right[..i]
    {
      OrZero(difference, Xor(left[i], right[i]));
      XorZero(left[i], right[i]);
      assert left[..i + 1] == left[..i] + [left[i]] && right[..i + 1] == right[..i] + [right[i]];
      hide Or, Xor;
      difference := Or(difference, Xor(left[i], right[i]));
    }
    assert left[..|left|] == left && right[..|left|] == right;
    equal := difference == 0;
  }

  /** XorCrypt: the block loop with its running offset and counter. */
  method XorCrypt(mac: C.Mac, key: string, nonce: string, input: Bytes) returns (output: Bytes)
    ensures output == C.XorCrypt(mac, key, nonce, input)
  {
    hide C.StreamBlock, C.NextCounter, XorSeq;
    output := [];
    var offset, counter: Word := 0, 0;
    ghost var whole := C.XorFrom(mac, key, nonce, input, 0);
    assert input[0..] == input && (whole.Some? ==> [] + whole.value == whole.value);
    while offset < |input|
      invariant offset <= |input|
      invariant whole == Extended(output, C.XorFrom(mac, key, nonce, input[offset..], counter))
    {
      ghost var left := input[offset..];
      var block := C.StreamBlock(mac, key, nonce, counter);
      if block.None? {
        return [];
      }
      var count := Min(C.BLOCK_BYTES, |input| - offset);
      XorStep(mac, key, nonce, left, counter, output);
      assert left[..count] == input[offset..offset + count] && left[count..] == input[offset + count..];
      output := output + XorSeq(input[offset..offset + count], block.value[..count]);
      counter := C.NextCounter(counter);
      offset := offset + count;
    }
    assert input[offset..] == [] && output + [] == output;
  }

  lemma {:induction false} XorStep(mac: C.Mac, key: string, nonce: string, left: Bytes, counter: Word, done: Bytes)
    requires left != [] && C.StreamBlock(mac, key, nonce, counter).Some?
    ensures var count := Min(C.BLOCK_BYTES, |left|);
            var block := C.StreamBlock(mac, key, nonce, counter).value;
            Extended(done, C.XorFrom(mac, key, nonce, left, counter))
            == Extended(done + XorSeq(left[..count], block[..count]),
                        C.XorFrom(mac, key, nonce, left[count..], C.NextCounter(counter)))
  {
    hide C.StreamBlock, C.NextCounter, XorSeq;
    var count := Min(C.BLOCK_BYTES, |left|);
    var first := XorSeq(left[..count], C.StreamBlock(mac, key, nonce, counter).value[..count]);
    var rest := C.XorFrom(mac, key, nonce, left[count..], C.NextCounter(counter));
    if rest.Some? { assert done + (first + rest.value) == (done + first) + rest.value; }
  }

  method JsonEscape(value: string) returns (out: string)
    ensures out == J.Escape(value)
  {
    hide J.EscapeChar;
    out := "";
    for i := 0 to |value|
      invariant out + J.Escape(value[i..]) == J.Escape(value)
    {
      ghost var before, left := out, value[i..];
      assert left[0] == value[i] && left[1..] == value[i + 1..];
      out := out + J.EscapeChar(value[i]);
      assert out + J.Escape(left[1..]) == before + (J.EscapeChar(value[i]) + J.Escape(left[1..]));
    }
  }

  /** std::string::find: the place behind the first occurrence of `token` from `p` on, or -1. */
  method Behind(s: string, token: string, p: nat) returns (q: int)
    requires p <= |s| && token != ""
    ensures q < 0 <==> J.After(s[p..], token).None?
    ensures q >= 0 ==> p <= q <= |s| && J.After(s[p..], token) == J.Some(s[q..])
  {
    var i := p;
    while i + |token| <= |s|
      invariant p <= i <= |s|
      invariant J.After(s[i..], token) == J.After(s[p..], token)
    {
      ghost var left := s[i..];
      assert left[..|token|] == s[i..i + |token|] && left[|token|..] == s[i + |token|..] && left[1..] == s[i + 1..];
      if s[i..i + |token|] == token {
        return i + |token|;
      }
      i := i + 1;
    }
    q := -1;
  }

  method ExtractString(json: string, key: string) returns (ok: bool, out: string)
    ensures ok == J.ExtractString(json, key).Some? && (ok ==> out == J.ExtractString(json, key).value)
  {
    hide J.After;
    out := "";
    assert json[0..] == json;
    var p := Behind(json, "\"" + key + "\"", 0);
    if p < 0 {
      return false, out;
    }
    p := Behind(json, ":", p);
    if p < 0 {
      return false, out;
    }
    p := Behind(json, "\"", p);
    if p < 0 {
      return false, out;
    }
    ok, out := ReadString(json, p);
  }

  /** The loop that reads up to the closing quote. */
  method ReadString(json: string, start: nat) returns (ok: bool, out: string)
    requires start <= |json|
    ensures ok == J.Unescape(json[start..]).Some? && (ok ==> out == J.Unescape(json[start..]).value)
  {
    out := "";
    var p := start;
    ghost var whole := J.Unescape(json[start..]);
    assert whole.Some? ==> "" + whole.value == whole.value;
    while p < |json|
      invariant start <= p <= |json|
      invariant whole == J.PrependAll(out, J.Unescape(json[p..]))
    {
      ReadStep(json, p, out);
      var ch := json[p];
      p := p + 1;
      if ch == '"' {
        return true, out;
      }
      if ch == '\\' && p < |json| {
        out := out + [J.Meant(json[p])];
        p := p + 1;
      } else {
        out := out + [ch];
      }
    }
    ok := false;
  }

  lemma {:induction false} ReadStep(json: string, p: nat, done: string)
    requires p < |json|
    ensures json[p] == '"' ==> J.PrependAll(done, J.Unescape(json[p..])) == J.Some(done)
    ensures json[p] != '"' && json[p] == '\\' && p + 1 < |json| ==>
              J.PrependAll(done, J.Unescape(json[p..])) == J.PrependAll(done + [J.Meant(json[p + 1])], J.Unescape(json[p + 2..]))
    ensures json[p] != '"' && !(json[p] == '\\' && p + 1 < |json|) ==>
              J.PrependAll(done, J.Unescape(json[p..])) == J.PrependAll(done + [json[p]], J.Unescape(json[p + 1..]))
  {
    hide J.Meant;
    var s := json[p..];
    assert s[0] == json[p] && s[1..] == json[p + 1..];
    if json[p] == '"' {
      assert done + "" == done;
    } else if json[p] == '\\' && p + 1 < |json| {
      assert s[1] == json[p + 1] && s[2..] == json[p + 2..];
      Regrouped(done, J.Meant(json[p + 1]), J.Unescape(json[p + 2..]));
    } else {
      Regrouped(done, json[p], J.Unescape(json[p + 1..]));
    }
  }

  lemma {:induction false} Regrouped(done: string, c: char, o: J.Option<string>)
    ensures J.PrependAll(done, J.Prepend(c, o)) == J.PrependAll(done + [c], o)
  {
    if o.Some? { assert done + ([c] + o.value) == (done + [c]) + o.value; }
  }

  /** EncryptPayload; `random` is what the random generator gives for the nonce. */
  method EncryptPayload(mac: C.Mac, secret: string, random: J.Option<C.Nonce>, plain: Bytes) returns (sealed: C.Sealed)
    ensures sealed == C.EncryptPayload(mac, secret, random, plain)
  {
    hide C.Tag, C.XorCrypt, J.HexEncode;
    if secret == "" || random.None? {
      return C.Refused;
    }
    var nonce := HexEncode(random.value);
    var cipher := XorCrypt(mac, secret, nonce, plain);
    if |cipher| != |plain| {
      return C.Refused;
    }
    var cipherHex := HexEncode(cipher);
    var digest := C.Tag(mac, secret, nonce, cipherHex);
    if digest.None? {
      return C.Refused;
    }
    var tag := HexEncode(digest.value);
    var text := C.EnvelopeText(nonce, cipherHex, tag);
    if |text| >= C.HEADER_BUFFER {
      return C.Overflow;
    }
    sealed := C.Envelope(text);
  }

  method DecryptPayload(mac: C.Mac, secret: string, envelope: string) returns (ok: bool, plain: Bytes)
    ensures ok == C.DecryptPayload(mac, secret, envelope).Some?
    ensures ok ==> plain == C.DecryptPayload(mac, secret, envelope).value
  {
    hide C.Tag, C.XorCrypt, J.HexEncode, J.HexDecode, J.ExtractString;
    var hasNonce, nonce := ExtractString(envelope, "nonce");
    var hasData, dataHex := ExtractString(envelope, "data");
    var hasTag, tag := ExtractString(envelope, "tag");
    if !hasNonce || !hasData || !hasTag {
      return false, [];
    }
    var hexOk, cipher := HexDecode(dataHex);
    if !hexOk {
      return false, [];
    }
    var digest := C.Tag(mac, secret, nonce, dataHex);
    if digest.None? {
      return false, [];
    }
    var expected := HexEncode(digest.value);
    J.HexRoundTrip(digest.value);
    var expectedOk, expectedBytes := HexDecode(expected);
    var actualOk, actualBytes := HexDecode(tag);
    if !expectedOk || !actualOk {
      return false, [];
    }
    var same := ConstantTimeEqual(expectedBytes, actualBytes);
    if !same {
      return false, [];
    }
    plain := XorCrypt(mac, secret, nonce, cipher);
    ok := |plain| == |cipher|;
  }
}
