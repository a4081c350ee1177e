/** The bridge's JSON strings and hex text: what is printed, what is read back. Characters stand for bytes. */
module JsonText {
  import opened Bits

  datatype Option<T> = None | Some(value: T)

  // Searching.

  /** What follows the first occurrence of `token`. */
  function After(s: string, token: string): Option<string>
    decreases |s|
  {
    if |s| < |token| then None
    else if s[..|token|] == token then Some(s[|token|..])
    else if s == "" then None
    else After(s[1..], token)
  }

  /** Text without the token's first character is passed over. */
  lemma {:induction false} PassPlain(a: string, b: string, token: string)
    requires token != "" && forall i :: 0 <= i < |a| ==> a[i] != token[0]
    requires |a + b| >= |token|
    ensures After(a + b, token) == After(b, token)
    decreases |a|
  {
    if a == "" {
      assert a + b == b;
    } else {
      var s := a + b;
      assert s[0] == a[0] && s[..|token|][0] == s[0];
      assert s[1..] == a[1..] + b;
      if |s[1..]| >= |token| {
        PassPlain(a[1..], b, token);
      } else {
        assert |b| < |token|;
      }
    }
  }

  /** Text starting with the token's first character is passed over when the token differs from it further on. */
  lemma {:induction false} PassStart(a: string, b: string, token: string, j: nat)
    requires token != "" && a != "" && forall i :: 1 <= i < |a| ==> a[i] != token[0]
    requires j < |token| <= |a + b| && (a + b)[j] != token[j]
    ensures After(a + b, token) == After(b, token)
  {
    var s := a + b;
    assert s[..|token|][j] == s[j];
    assert s[1..] == a[1..] + b;
    if |s[1..]| >= |token| {
      PassPlain(a[1..], b, token);
    } else {
      assert |b| < |token|;
    }
  }

  lemma {:induction false} Here(s: string, token: string, rest: string)
    requires s == token + rest
    ensures After(s, token) == Some(rest)
  {
    assert s[..|token|] == token && s[|token|..] == rest;
  }

  // Reading a string.

  function Meant(esc: char): char {
    match esc
    case 'b' => '\U{0008}'
    case 'f' => '\U{000C}'
    case 'n' => '\n'
    case 'r' => '\r'
    case 't' => '\t'
    case _ => esc
  }

  /** The string whose text starts here, up to its closing quote. */
  function Unescape(s: string): Option<string>
    decreases |s|
  {
    if s == "" then None
    else if s[0] == '"' then Some("")
    else if s[0] == '\\' && |s| > 1 then Prepend(Meant(s[1]), Unescape(s[2..]))
    else Prepend(s[0], Unescape(s[1..]))
  }

  function Prepend(c: char, o: Option<string>): Option<string> {
    match o
    case None => None
    case Some(t) => Some([c] + t)
  }

  /** ExtractString: the string after the first colon and quote behind the quoted key. */
  function ExtractString(json: string, key: string): Option<string> {
    match After(json, "\"" + key + "\"")
    case None => None
    case Some(a) =>
      match After(a, ":")
      case None => None
      case Some(b) =>
        match After(b, "\"")
        case None => None
        case Some(c) => Unescape(c)
  }

  /** The shape every field the bridge prints has. */
  lemma {:induction false} FieldValue(json: string, key: string, value: string)
    requires After(json, "\"" + key + "\"") == Some(":\"" + value)
    ensures ExtractString(json, key) == Unescape(value)
  {
    Here(":\"" + value, ":", "\"" + value);
    Here("\"" + value, "\"", value);
  }

  /** A field is read wherever its value starts: behind the first colon after the key and the first quote after that. */
  lemma {:induction false} FieldRead(json: string, key: string, before: string, behind: string, value: string)
    requires After(json, "\"" + key + "\"") == Some(before + (":" + (behind + ("\"" + value))))
    requires (forall i :: 0 <= i < |before| ==> before[i] != ':') && forall i :: 0 <= i < |behind| ==> behind[i] != '"'
    ensures ExtractString(json, key) == Unescape(value)
  {
    PassPlain(before, ":" + (behind + ("\"" + value)), ":");
    Here(":" + (behind + ("\"" + value)), ":", behind + ("\"" + value));
    PassPlain(behind, "\"" + value, "\"");
    Here("\"" + value, "\"", value);
  }

  /** Without a colon behind the key there is no field. */
  lemma {:induction false} NoColon(json: string, key: string, rest: string)
    requires After(json, "\"" + key + "\"") == Some(rest) && forall i :: 0 <= i < |rest| ==> rest[i] != ':'
    ensures ExtractString(json, key) == None
  {
    Never(rest, ":");
  }

  lemma {:induction false} Never(s: string, token: string)
    requires token != "" && forall i :: 0 <= i < |s| ==> s[i] != token[0]
    ensures After(s, token) == None
    decreases |s|
  {
    if |s| >= |token| {
      assert s[..|token|][0] == s[0];
      Never(s[1..], token);
    }
  }

  /** A string that is never closed is not read. */
  lemma {:induction false} Unclosed(s: string)
    requires forall i :: 0 <= i < |s| ==> s[i] != '"'
    ensures Unescape(s) == None
    decreases |s|
  {
    if s != "" {
      if s[0] == '\\' && |s| > 1 { Unclosed(s[2..]); } else { Unclosed(s[1..]); }
    }
  }

  function PrependAll(v: string, o: Option<string>): Option<string> {
    match o
    case None => None
    case Some(t) => Some(v + t)
  }

  lemma {:induction false} UnescapeRun(v: string, tail: string)
    requires forall i :: 0 <= i < |v| ==> v[i] != '"' && v[i] != '\\'
    ensures Unescape(v + tail) == PrependAll(v, Unescape(tail))
    decreases |v|
  {
    var s := v + tail;
    if v == "" {
      assert s == tail;
      if Unescape(tail).Some? { assert "" + Unescape(tail).value == Unescape(tail).value; }
    } else {
      UnescapeRun(v[1..], tail);
      assert s[1..] == v[1..] + tail;
      if Unescape(tail).Some? { assert [v[0]] + (v[1..] + Unescape(tail).value) == v + Unescape(tail).value; }
    }
  }

  lemma {:induction false} UnescapePlain(v: string, tail: string)
    requires forall i :: 0 <= i < |v| ==> v[i] != '"' && v[i] != '\\'
    ensures Unescape(v + ("\"" + tail)) == Some(v)
  {
    UnescapeRun(v, "\"" + tail);
    assert v + "" == v;
  }

  // Printing a string: section 7 of RFC 8259.

  const LOWER_DIGITS: string := "0123456789abcdef"

  function EscapeChar(c: char): string {
    match c
    case '"' => "\\\""
    case '\\' => "\\\\"
    case '\U{0008}' => "\\b"
    case '\U{000C}' => "\\f"
    case '\n' => "\\n"
    case '\r' => "\\r"
    case '\t' => "\\t"
    case _ =>
      if c < ' ' then "\\u00" + [LOWER_DIGITS[c as int / 16], LOWER_DIGITS[c as int % 16]] else [c]
  }

  function Escape(v: string): string {
    if v == "" then "" else EscapeChar(v[0]) + Escape(v[1..])
  }

  /** A control character without a short escape. */
  predicate NeedsHex(c: char) {
    c < ' ' && c != '\U{0008}' && c != '\U{000C}' && c != '\n' && c != '\r' && c != '\t'
  }

  /** What the reader makes of a printed character: the hex form is read as plain text. */
  function ReadBack(c: char): string {
    if NeedsHex(c) then EscapeChar(c)[1..] else [c]
  }

  function ReadBackAll(v: string): string {
    if v == "" then "" else ReadBack(v[0]) + ReadBackAll(v[1..])
  }

  lemma {:induction false} ReadBackLength(v: string)
    ensures |ReadBackAll(v)| >= |v|
    ensures ReadBackAll(v) == v <==> forall i :: 0 <= i < |v| ==> !NeedsHex(v[i])
    ensures ReadBackAll(v) != v ==> |ReadBackAll(v)| > |v|
  {
    if v != "" {
      var rest := v[1..];
      ReadBackLength(rest);
      assert v == [v[0]] + rest;
      forall i | 0 < i < |v|
        ensures v[i] == rest[i - 1]
      {
      }
      if !NeedsHex(v[0]) && ReadBackAll(rest) != rest {
        var i :| 0 <= i < |rest| && NeedsHex(rest[i]);
        assert v[i + 1] == rest[i];
      }
    }
  }

  /** Three shapes of a printed character: itself, a short escape, or the hex form. */
  lemma {:induction false} EscapeShapes(c: char)
    ensures var e := EscapeChar(c);
            || (e == [c] && c != '"' && c != '\\' && !NeedsHex(c))
            || (|e| == 2 && e[0] == '\\' && Meant(e[1]) == c && !NeedsHex(c))
            || (|e| == 6 && e[0] == '\\' && e[1] == 'u' && NeedsHex(c)
                && forall i :: 2 <= i < 6 ==> e[i] != '"' && e[i] != '\\')
  {
    if NeedsHex(c) {
      HexDigitPlain(c as int / 16);
      HexDigitPlain(c as int % 16);
    }
  }

  lemma {:induction false} UnescapeChar(c: char, tail: string)
    ensures Unescape(EscapeChar(c) + tail) == PrependAll(ReadBack(c), Unescape(tail))
  {
    hide EscapeChar, NeedsHex;
    EscapeShapes(c);
    var e := EscapeChar(c);
    var s := e + tail;
    if |e| == 1 {
      assert s[0] == c && s[1..] == tail;
    } else if |e| == 2 {
      assert s[0] == '\\' && s[1] == e[1] && s[2..] == tail;
    } else {
      var digits := e[2..];
      assert s[0] == '\\' && s[1] == 'u' && s[2..] == digits + tail;
      UnescapeRun(digits, tail);
      assert ReadBack(c) == ['u'] + digits;
      if Unescape(tail).Some? {
        assert ['u'] + (digits + Unescape(tail).value) == ReadBack(c) + Unescape(tail).value;
      }
    }
  }

  lemma {:induction false} HexDigitPlain(d: nat)
    requires d < 16
    ensures LOWER_DIGITS[d] != '"' && LOWER_DIGITS[d] != '\\'
  {
  }

  lemma {:induction false} UnescapeEscape(v: string, tail: string)
    ensures Unescape(Escape(v) + ("\"" + tail)) == Some(ReadBackAll(v))
  {
    hide Unescape, EscapeChar, ReadBack;
    var close := "\"" + tail;
    if v == "" {
      assert Escape(v) + close == "" + close;
      UnescapePlain("", tail);
    } else {
      var first, rest := EscapeChar(v[0]), Escape(v[1..]);
      UnescapeEscape(v[1..], tail);
      UnescapeChar(v[0], rest + close);
      assert (first + rest) + close == first + (rest + close);
    }
  }

  /** A one-pair object as the bridge prints it. */
  function PairObject(key: string, v: string): string {
    "{\"" + key + "\":\"" + Escape(v) + "\"}"
  }

  /** Printing a string in an object and extracting it again gives the string back exactly when none of its control
      characters needs the \u form, which is printed but not read; otherwise that form comes back as text. */
  lemma {:induction false} StringRoundTrip(key: string, v: string)
    ensures ExtractString(PairObject(key, v), key) == Some(ReadBackAll(v))
    ensures ExtractString(PairObject(key, v), key) == Some(v) <==> forall i :: 0 <= i < |v| ==> !NeedsHex(v[i])
  {
    hide Escape, ReadBackAll, NeedsHex, After, Unescape, ExtractString;
    var json, token := PairObject(key, v), "\"" + key + "\"";
    var value := Escape(v) + ("\"" + "}");
    PairPieces(key, Escape(v));
    PassPlain("{", token + (":\"" + value), token);
    Here(token + (":\"" + value), token, ":\"" + value);
    FieldValue(json, key, value);
    UnescapeEscape(v, "}");
    ReadBackLength(v);
  }

  lemma {:induction false} PairPieces(key: string, text: string)
    ensures "{\"" + key + "\":\"" + text + "\"}" == "{" + (("\"" + key + "\"") + (":\"" + (text + ("\"" + "}"))))
  {
  }

  /** Byte 1 under any key: it comes back as the five characters u0001. */
  lemma {:induction false} ControlLost(key: string)
    ensures ExtractString(PairObject(key, "\U{0001}"), key) == Some("u0001")
  {
    hide ExtractString, PairObject;
    StringRoundTrip(key, "\U{0001}");
    assert EscapeChar('\U{0001}') == "\\u0001" && ("\\u0001")[1..] == "u0001";
    assert ("\U{0001}")[1..] == "" && "u0001" + "" == "u0001";
  }

  // Hex.

  function HexDigit(d: nat): char
    requires d < 16
  {
    LOWER_DIGITS[d]
  }

  /** Value of a hex digit of either case, or -1. */
  function HexValue(c: char): (d: int)
    ensures -1 <= d < 16
  {
    if '0' <= c <= '9' then c as int - '0' as int
    else if 'a' <= c <= 'f' then c as int - 'a' as int + 10
    else if 'A' <= c <= 'F' then c as int - 'A' as int + 10
    else -1
  }

  function HexEncode(data: Bytes): (s: string)
    ensures |s| == 2 * |data|
    decreases |data|
  {
    if data == [] then "" else [HexDigit(data[0] / 16), HexDigit(data[0] % 16)] + HexEncode(data[1..])
  }

  function Join(high: nat, low: nat): (b: Byte)
    requires high < 16 && low < 16
    ensures b / 16 == high && b % 16 == low
  {
    high * 16 + low
  }

  function HexDecode(s: string): Option<Bytes>
    decreases |s|
  {
    if s == "" then Some([])
    else if |s| == 1 || HexValue(s[0]) < 0 || HexValue(s[1]) < 0 then None
    else
      match HexDecode(s[2..])
      case None => None
      case Some(rest) => Some([Join(HexValue(s[0]), HexValue(s[1]))] + rest)
  }

  lemma {:induction false} HexValueOfDigit(d: nat)
    requires d < 16
    ensures HexValue(HexDigit(d)) == d
  {
  }

  lemma {:induction false} HexRoundTrip(data: Bytes)
    ensures HexDecode(HexEncode(data)) == Some(data)
    decreases |data|
  {
    if data != [] {
      var s := HexEncode(data);
      HexRoundTrip(data[1..]);
      HexValueOfDigit(data[0] / 16);
      HexValueOfDigit(data[0] % 16);
      hide HexValue, HexDigit;
      assert s[0] == HexDigit(data[0] / 16) && s[1] == HexDigit(data[0] % 16) && s[2..] == HexEncode(data[1..]);
      assert Join(data[0] / 16, data[0] % 16) == data[0];
      assert [data[0]] + data[1..] == data;
    }
  }

  predicate IsLowerHex(c: char) {
    '0' <= c <= '9' || 'a' <= c <= 'f'
  }

  lemma {:induction false} HexIsPlain(data: Bytes)
    ensures forall i :: 0 <= i < |HexEncode(data)| ==> IsLowerHex(HexEncode(data)[i])
    decreases |data|
  {
    if data != [] { HexIsPlain(data[1..]); }
  }

  function LowerHex(s: string): string {
    if s == "" then ""
    else [if 'A' <= s[0] <= 'F' then (s[0] as int + 32) as char else s[0]] + LowerHex(s[1..])
  }

  lemma {:induction false} DigitOfHexValue(c: char)
    requires HexValue(c) >= 0
    ensures LowerHex([c]) == [HexDigit(HexValue(c))]
  {
    assert [c][1..] == "";
  }

  /** Each byte is printed as two digits, the high one first. */
  lemma {:induction false} HexText(data: Bytes, i: nat)
    requires i < |data|
    ensures HexEncode(data)[2 * i] == "0123456789abcdef"[data[i] / 16]
    ensures HexEncode(data)[2 * i + 1] == "0123456789abcdef"[data[i] % 16]
    decreases |data|
  {
    if i > 0 {
      HexText(data[1..], i - 1);
      assert HexEncode(data)[2..] == HexEncode(data[1..]);
      assert HexEncode(data)[2 * i] == HexEncode(data)[2..][2 * (i - 1)];
      assert HexEncode(data)[2 * i + 1] == HexEncode(data)[2..][2 * (i - 1) + 1];
    }
  }

  lemma {:induction false} FirstByte(s: string, b: Byte, rest: Bytes)
    requires |s| >= 2 && HexValue(s[0]) == b / 16 && HexValue(s[1]) == b % 16
    requires if s[2..] == "" then rest == [] else HexDecode(s[2..]) == Some(rest)
    ensures HexDecode(s) == Some([b] + rest)
  {
    hide HexValue;
    assert HexDecode("") == Some([]);
  }

  /** For example. */
  lemma {:induction false} HexOfTwo()
    ensures HexEncode([0xAB, 0x07]) == "ab07" && HexDecode("aB07") == Some([0xAB, 0x07])
  {
    HexText([0xAB, 0x07], 0);
    HexText([0xAB, 0x07], 1);
    var s, text := HexEncode([0xAB, 0x07]), "aB07";
    assert s[2 * 0] == 'a' && s[2 * 0 + 1] == 'b' && s[2 * 1] == '0' && s[2 * 1 + 1] == '7';
    assert s == [s[0], s[1], s[2], s[3]];
    var last := text[2..];
    assert last[0] == '0' && last[1] == '7' && last[2..] == "";
    FirstByte(last, 0x07, []);
    assert [0x07] + [] == [0x07];
    FirstByte(text, 0xAB, [0x07]);
    var two: Bytes := [0xAB] + [0x07];
    assert two == [0xAB, 0x07];
  }

  lemma {:induction false} HexDigits(c: char)
    ensures HexValue(c) >= 0 <==> '0' <= c <= '9' || 'a' <= c <= 'f' || 'A' <= c <= 'F'
  {
  }

  /** The decoder accepts exactly even-length text of hex digits. */
  lemma {:induction false} HexAccepts(s: string)
    ensures HexDecode(s).Some? <==>
              |s| % 2 == 0
              && forall i :: 0 <= i < |s| ==> '0' <= s[i] <= '9' || 'a' <= s[i] <= 'f' || 'A' <= s[i] <= 'F'
    decreases |s|
  {
    if |s| > 1 {
      var rest := s[2..];
      HexAccepts(rest);
      HexDigits(s[0]);
      HexDigits(s[1]);
      hide HexValue;
      forall i | 2 <= i < |s|
        ensures s[i] == rest[i - 2]
      {
      }
    }
  }

  /** Encoding what the decoder read gives the text back in lower case. */
  lemma {:induction false} HexReencodes(s: string)
    requires HexDecode(s).Some?
    ensures HexEncode(HexDecode(s).value) == LowerHex(s)
    decreases |s|
  {
    if s != "" {
      var data := HexDecode(s).value;
      HexReencodes(s[2..]);
      assert data[0] == Join(HexValue(s[0]), HexValue(s[1])) && data[1..] == HexDecode(s[2..]).value;
      DigitOfHexValue(s[0]);
      DigitOfHexValue(s[1]);
      LowerTwo(s);
    }
  }

  lemma {:induction false} LowerTwo(s: string)
    requires |s| > 1
    ensures LowerHex(s) == LowerHex([s[0]]) + LowerHex([s[1]]) + LowerHex(s[2..])
  {
    assert s[1..][1..] == s[2..] && [s[0]][1..] == "" && [s[1]][1..] == "";
  }
}
