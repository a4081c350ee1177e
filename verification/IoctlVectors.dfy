/** The packet's bytes told without the codec's own functions: the stream byte by byte, and one packet in full. */
module IoctlVectors {
  import opened Bits
  import opened IoctlCodec

  // Exclusive or, digit by digit.

  function Bit(on: bool, weight: nat): nat {
    if on then weight else 0
  }

  lemma {:induction false} OneMoreBit(x: nat, y: nat, a: nat, low: nat, b: nat, down: nat)
    requires x == 2 * a + low && y == 2 * b + down && low < 2 && down < 2
    ensures Xor(x, y) == 2 * Xor(a, b) + if low == down then 0 else 1
  {
    hide Xor;
    XorStep(x, y);
    assert x / 2 == a && x % 2 == low && y / 2 == b && y % 2 == down;
  }

  lemma {:induction false} FourBits(a: nat, a3: nat, a2: nat, a1: nat, a0: nat, b: nat, b3: nat, b2: nat, b1: nat, b0: nat)
    requires a3 < 2 && a2 < 2 && a1 < 2 && a0 < 2 && b3 < 2 && b2 < 2 && b1 < 2 && b0 < 2
    requires a == a3 * 8 + a2 * 4 + a1 * 2 + a0 && b == b3 * 8 + b2 * 4 + b1 * 2 + b0
    ensures Xor(a, b) == Bit(a3 != b3, 8) + Bit(a2 != b2, 4) + Bit(a1 != b1, 2) + Bit(a0 != b0, 1)
  {
    hide Xor;
    XorSelf(0);
    OneMoreBit(a3, b3, 0, a3, 0, b3);
    OneMoreBit(a3 * 2 + a2, b3 * 2 + b2, a3, a2, b3, b2);
    OneMoreBit(a3 * 4 + a2 * 2 + a1, b3 * 4 + b2 * 2 + b1, a3 * 2 + a2, a1, b3 * 2 + b2, b1);
    OneMoreBit(a, b, a3 * 4 + a2 * 2 + a1, a0, b3 * 4 + b2 * 2 + b1, b0);
  }

  lemma {:induction false} DigitBits(a: nat)
    requires a < 16
    ensures var a3 := Bit(a >= 8, 1);
            var a2 := Bit(a - a3 * 8 >= 4, 1);
            var a1 := Bit(a - a3 * 8 - a2 * 4 >= 2, 1);
            a3 < 2 && a2 < 2 && a1 < 2 && 0 <= a - a3 * 8 - a2 * 4 - a1 * 2 < 2
  {
  }

  /** Exclusive or of two hexadecimal digits, by comparisons alone. */
  function Digit(a: nat, b: nat): (r: nat)
    requires a < 16 && b < 16
    ensures r == Xor(a, b)
  {
    DigitBits(a);
    DigitBits(b);
    var a3, b3 := Bit(a >= 8, 1), Bit(b >= 8, 1);
    var a2, b2 := Bit(a - a3 * 8 >= 4, 1), Bit(b - b3 * 8 >= 4, 1);
    var a1, b1 := Bit(a - a3 * 8 - a2 * 4 >= 2, 1), Bit(b - b3 * 8 - b2 * 4 >= 2, 1);
    var a0, b0 := a - a3 * 8 - a2 * 4 - a1 * 2, b - b3 * 8 - b2 * 4 - b1 * 2;
    FourBits(a, a3, a2, a1, a0, b, b3, b2, b1, b0);
    Bit(a3 != b3, 8) + Bit(a2 != b2, 4) + Bit(a1 != b1, 2) + Bit(a0 != b0, 1)
  }

  predicate Digits(a: nat, b: nat, r: nat) {
    a < 16 && b < 16 && Digit(a, b) == r
  }

  lemma {:induction false} NextDigit(x: nat, a: nat, y: nat, b: nat, z: nat, r: nat)
    requires Xor(x, y) == z && Digits(a, b, r)
    ensures Xor(x * 16 + a, y * 16 + b) == z * 16 + r
  {
    assert Pow2(4) == 16;
    hide Xor, Digit;
    XorParts(x, a, y, b, 4);
  }

  /** Four more digits behind `x` and `y`. */
  lemma {:induction false} FourDigits(x: nat, a3: nat, a2: nat, a1: nat, a0: nat, y: nat, b3: nat, b2: nat, b1: nat, b0: nat,
                                      z: nat, r3: nat, r2: nat, r1: nat, r0: nat)
    requires Xor(x, y) == z
    requires Digits(a3, b3, r3) && Digits(a2, b2, r2) && Digits(a1, b1, r1) && Digits(a0, b0, r0)
    ensures Xor(x * 0x1_0000 + a3 * 0x1000 + a2 * 0x100 + a1 * 0x10 + a0, y * 0x1_0000 + b3 * 0x1000 + b2 * 0x100 + b1 * 0x10 + b0)
            == z * 0x1_0000 + r3 * 0x1000 + r2 * 0x100 + r1 * 0x10 + r0
  {
    hide Xor, Digits;
    NextDigit(x, a3, y, b3, z, r3);
    NextDigit(x * 16 + a3, a2, y * 16 + b3, b2, z * 16 + r3, r2);
    NextDigit((x * 16 + a3) * 16 + a2, a1, (y * 16 + b3) * 16 + b2, b1, (z * 16 + r3) * 16 + r2, r1);
    NextDigit(((x * 16 + a3) * 16 + a2) * 16 + a1, a0, ((y * 16 + b3) * 16 + b2) * 16 + b1, b0,
              ((z * 16 + r3) * 16 + r2) * 16 + r1, r0);
  }

  lemma {:induction false} TwoDigits(a1: nat, a0: nat, b1: nat, b0: nat, r1: nat, r0: nat)
    requires Digits(a1, b1, r1) && Digits(a0, b0, r0)
    ensures Xor(a1 * 16 + a0, b1 * 16 + b0) == r1 * 16 + r0
  {
    hide Xor, Digits;
    XorSelf(0);
    NextDigit(0, a1, 0, b1, 0, r1);
    NextDigit(a1, a0, b1, b0, r1, r0);
  }

  lemma {:induction false} EightDigits(
    a7: nat, a6: nat, a5: nat, a4: nat, a3: nat, a2: nat, a1: nat, a0: nat,
    b7: nat, b6: nat, b5: nat, b4: nat, b3: nat, b2: nat, b1: nat, b0: nat,
    r7: nat, r6: nat, r5: nat, r4: nat, r3: nat, r2: nat, r1: nat, r0: nat)
    requires Digits(a7, b7, r7) && Digits(a6, b6, r6) && Digits(a5, b5, r5) && Digits(a4, b4, r4)
    requires Digits(a3, b3, r3) && Digits(a2, b2, r2) && Digits(a1, b1, r1) && Digits(a0, b0, r0)
    ensures Xor(a7 * 0x1000_0000 + a6 * 0x100_0000 + a5 * 0x10_0000 + a4 * 0x1_0000 + a3 * 0x1000 + a2 * 0x100 + a1 * 0x10 + a0,
                b7 * 0x1000_0000 + b6 * 0x100_0000 + b5 * 0x10_0000 + b4 * 0x1_0000 + b3 * 0x1000 + b2 * 0x100 + b1 * 0x10 + b0)
            == r7 * 0x1000_0000 + r6 * 0x100_0000 + r5 * 0x10_0000 + r4 * 0x1_0000 + r3 * 0x1000 + r2 * 0x100 + r1 * 0x10 + r0
  {
    hide Xor, Digits;
    XorSelf(0);
    FourDigits(0, a7, a6, a5, a4, 0, b7, b6, b5, b4, 0, r7, r6, r5, r4);
    FourDigits(a7 * 0x1000 + a6 * 0x100 + a5 * 0x10 + a4, a3, a2, a1, a0, b7 * 0x1000 + b6 * 0x100 + b5 * 0x10 + b4, b3, b2, b1, b0,
               r7 * 0x1000 + r6 * 0x100 + r5 * 0x10 + r4, r3, r2, r1, r0);
  }

  // The stream.

  /** The low byte of an exclusive or of words is that of their low bytes. */
  lemma {:induction false} LowByte(a: Word, b: Word)
    ensures XorWord(a, b) % 0x100 == XorByte(a % 0x100, b % 0x100)
  {
    hide Xor, Pow2;
    Lowest(a, a / 0x100, a % 0x100, b, b / 0x100, b % 0x100);
  }

  lemma {:induction false} Lowest(x: nat, a: nat, low: Byte, y: nat, b: nat, down: Byte)
    requires x == a * 0x100 + low && y == b * 0x100 + down
    ensures Xor(x, y) % 0x100 == Xor(low, down)
  {
    hide Xor;
    XorBytes(a, low, b, down);
  }

  lemma {:induction false} KeyByteIsFourBytes(key: Word)
    ensures KeyByte(key)
            == XorByte(XorByte(XorByte(key / 0x100_0000, key / 0x1_0000 % 0x100), key / 0x100 % 0x100), key % 0x100)
  {
    hide XorWord, XorByte;
    LowByte(key / 0x100_0000, key / 0x1_0000);
    LowByte(XorWord(key / 0x100_0000, key / 0x1_0000), key / 0x100);
    LowByte(XorWord(XorWord(key / 0x100_0000, key / 0x1_0000), key / 0x100), key);
  }

  lemma {:induction false} StreamFollows(keys: seq<Word>, i: nat)
    requires forall j :: 0 <= j < |keys| - 1 ==> keys[j + 1] == (keys[j] as int * 1664525 + 1013904223) % 0x1_0000_0000
    requires i < |keys| - 1
    ensures KeyStream(keys[0], |keys| - 1)[i] == KeyByte(keys[i + 1])
    decreases i
  {
    hide KeyByte;
    assert NextKey(keys[0]) == keys[1];
    if i > 0 {
      var rest := keys[1..];
      assert forall j :: 0 <= j < |rest| ==> rest[j] == keys[j + 1];
      StreamFollows(rest, i - 1);
      assert KeyStream(keys[0], |keys| - 1)[i] == KeyStream(keys[1], |keys| - 2)[i - 1];
    }
  }

  lemma {:induction false} SealedWith(ioControlCode: Word, payload: Bytes, keys: seq<Word>, i: nat)
    requires |payload| < WORD_LIMIT && |keys| == |payload| + 1 && i < |payload|
    requires keys[0] == StreamKey(|payload|, ioControlCode)
    requires forall j :: 0 <= j < |payload| ==> keys[j + 1] == (keys[j] as int * 1664525 + 1013904223) % 0x1_0000_0000
    ensures Encode(ioControlCode, payload)[28 + i] == XorByte(payload[i], KeyByte(keys[i + 1]))
  {
    hide XorWord, XorByte, HeaderBytes, PacketHeader, KeyByte, StreamKey;
    StreamFollows(keys, i);
    assert Encode(ioControlCode, payload)[28 + i] == Crypt(StreamKey(|payload|, ioControlCode), payload)[i];
  }

  /** The running key starts as the protocol's key combined with the code and with the size times a constant; before each
      byte it becomes itself times 1664525 plus 1013904223; and byte `i` of the payload goes out combined with the four
      bytes that the running key has then. */
  lemma {:induction false} SealedByte(ioControlCode: Word, payload: Bytes, keys: seq<Word>, i: nat)
    requires |payload| < WORD_LIMIT && |keys| == |payload| + 1 && i < |payload|
    requires keys[0] == XorWord(XorWord(0x9E37_79B9, ioControlCode), (|payload| * 0x45D_9F3B) % 0x1_0000_0000)
    requires forall j :: 0 <= j < |payload| ==> keys[j + 1] == (keys[j] as int * 1664525 + 1013904223) % 0x1_0000_0000
    ensures var key := keys[i + 1];
            Encode(ioControlCode, payload)[28 + i]
            == XorByte(payload[i],
                 XorByte(XorByte(XorByte(key / 0x100_0000, key / 0x1_0000 % 0x100), key / 0x100 % 0x100), key % 0x100))
  {
    hide XorWord, XorByte, KeyByte, Encode;
    SealedWith(ioControlCode, payload, keys, i);
    KeyByteIsFourBytes(keys[i + 1]);
  }

  // Vectors.

  lemma {:induction false} WordIsXor(a: Word, b: Word)
    ensures XorWord(a, b) == Xor(a, b)
  {
    hide Xor, Pow2;
  }

  lemma {:induction false} CodeXor()
    ensures XorWord(0x9E37_79B9, 0x2220A0) == 0x9E15_5919
  {
    hide Xor, XorWord;
    EightDigits(0x9, 0xE, 0x3, 0x7, 0x7, 0x9, 0xB, 0x9,
                0x0, 0x0, 0x2, 0x2, 0x2, 0x0, 0xA, 0x0,
                0x9, 0xE, 0x1, 0x5, 0x5, 0x9, 0x1, 0x9);
    WordIsXor(0x9E37_79B9, 0x2220A0);
  }

  lemma {:induction false} OneXor()
    ensures XorWord(0x9E15_5919, 0x45D_9F3B) == 0x9A48_C622
  {
    hide Xor, XorWord;
    EightDigits(0x9, 0xE, 0x1, 0x5, 0x5, 0x9, 0x1, 0x9,
                0x0, 0x4, 0x5, 0xD, 0x9, 0xF, 0x3, 0xB,
                0x9, 0xA, 0x4, 0x8, 0xC, 0x6, 0x2, 0x2);
    WordIsXor(0x9E15_5919, 0x45D_9F3B);
  }

  lemma {:induction false} FourXor()
    ensures XorWord(0x9E15_5919, 0x1176_7CEC) == 0x8F63_25F5
  {
    hide Xor, XorWord;
    EightDigits(0x9, 0xE, 0x1, 0x5, 0x5, 0x9, 0x1, 0x9,
                0x1, 0x1, 0x7, 0x6, 0x7, 0xC, 0xE, 0xC,
                0x8, 0xF, 0x6, 0x3, 0x2, 0x5, 0xF, 0x5);
    WordIsXor(0x9E15_5919, 0x1176_7CEC);
  }

  lemma {:induction false} StartKeys()
    ensures XorWord(XorWord(0x9E37_79B9, 0x2220A0), 0x45D_9F3B) == 0x9A48_C622
    ensures XorWord(XorWord(0x9E37_79B9, 0x2220A0), 0x1176_7CEC) == 0x8F63_25F5
  {
    hide XorWord;
    CodeXor();
    OneXor();
    FourXor();
  }

  lemma {:induction false} FourBytes(key: Word, b3: Byte, b2: Byte, b1: Byte, b0: Byte, one: Byte, two: Byte, three: Byte)
    requires key == ((b3 * 0x100 + b2) * 0x100 + b1) * 0x100 + b0
    requires Xor(b3, b2) == one && Xor(one, b1) == two && Xor(two, b0) == three
    ensures XorByte(0, KeyByte(key)) == three
  {
    hide KeyByte, Xor, Pow2;
    KeyByteIsFourBytes(key);
    KeyParts(key, b3, b2, b1, b0);
    ZeroByte(three);
  }

  lemma {:induction false} KeyParts(key: Word, b3: Byte, b2: Byte, b1: Byte, b0: Byte)
    requires key == ((b3 * 0x100 + b2) * 0x100 + b1) * 0x100 + b0
    ensures key / 0x100_0000 == b3 && key / 0x1_0000 % 0x100 == b2 && key / 0x100 % 0x100 == b1 && key % 0x100 == b0
  {
    assert key / 0x100 == (b3 * 0x100 + b2) * 0x100 + b1;
    assert key / 0x1_0000 == b3 * 0x100 + b2;
  }

  lemma {:induction false} ZeroByte(b: Byte)
    ensures XorByte(0, b) == b
  {
    hide Pow2;
    ZeroLeft(b);
  }

  lemma {:induction false} OneKeyByte()
    ensures XorByte(0, KeyByte(0x6A64_8F19)) == 0x98
  {
    hide Xor, XorByte, KeyByte;
    TwoDigits(0x6, 0xA, 0x6, 0x4, 0x0, 0xE);
    TwoDigits(0x0, 0xE, 0x8, 0xF, 0x8, 0x1);
    TwoDigits(0x8, 0x1, 0x1, 0x9, 0x9, 0x8);
    FourBytes(0x6A64_8F19, 0x6A, 0x64, 0x8F, 0x19, 0x0E, 0x81, 0x98);
  }

  /** Under the code of the event query a zero byte goes out as 0x98. */
  lemma {:induction false} OneZero()
    ensures Encode(0x2220A0, [0])[28..] == [0x98]
  {
    hide XorWord, Xor, KeyByte, Encode, XorByte;
    StartKeys();
    OneKeyByte();
    SealedWith(0x2220A0, [0], [0x9A48_C622, 0x6A64_8F19], 0);
  }

  /** And four of them like this. */
  lemma {:induction false} FourZeros()
    ensures Encode(0x2220A0, [0, 0, 0, 0])[28..] == [0x90, 0x4E, 0x8B, 0xD5]
  {
    hide XorWord, Xor, KeyByte, Encode, XorByte;
    var keys: seq<Word> := [0x8F63_25F5, 0xBA84_7ED0, 0xE200_43EF, 0x73DA_A082, 0xE72E_E5F9];
    FourKeys(keys);
    SealedWith(0x2220A0, [0, 0, 0, 0], keys, 0);
    SealedWith(0x2220A0, [0, 0, 0, 0], keys, 1);
    SealedWith(0x2220A0, [0, 0, 0, 0], keys, 2);
    SealedWith(0x2220A0, [0, 0, 0, 0], keys, 3);
    FirstKeyByte();
    SecondKeyByte();
    ThirdKeyByte();
    FourthKeyByte();
  }

  lemma {:induction false} FourKeys(keys: seq<Word>)
    requires keys == [0x8F63_25F5, 0xBA84_7ED0, 0xE200_43EF, 0x73DA_A082, 0xE72E_E5F9]
    ensures keys[0] == StreamKey(4, 0x2220A0)
    ensures forall j :: 0 <= j < 4 ==> keys[j + 1] == (keys[j] as int * 1664525 + 1013904223) % 0x1_0000_0000
  {
    hide XorWord;
    StartKeys();
    assert StreamKey(4, 0x2220A0) == 0x8F63_25F5;
    hide StreamKey;
    assert (0x8F63_25F5 * 1664525 + 1013904223) % 0x1_0000_0000 == 0xBA84_7ED0;
    assert (0xBA84_7ED0 * 1664525 + 1013904223) % 0x1_0000_0000 == 0xE200_43EF;
    assert (0xE200_43EF * 1664525 + 1013904223) % 0x1_0000_0000 == 0x73DA_A082;
    assert (0x73DA_A082 * 1664525 + 1013904223) % 0x1_0000_0000 == 0xE72E_E5F9;
    assert keys[0] == 0x8F63_25F5 && keys[1] == 0xBA84_7ED0 && keys[2] == 0xE200_43EF && keys[3] == 0x73DA_A082;
    forall j | 0 <= j < 4
      ensures keys[j + 1] == (keys[j] as int * 1664525 + 1013904223) % 0x1_0000_0000
    {
      if j == 0 {
      } else if j == 1 {
      } else if j == 2 {
      } else {
      }
    }
  }

  lemma {:induction false} FirstKeyByte()
    ensures XorByte(0, KeyByte(0xBA84_7ED0)) == 0x90
  {
    hide Xor, XorByte, KeyByte;
    TwoDigits(0xB, 0xA, 0x8, 0x4, 0x3, 0xE);
    TwoDigits(0x3, 0xE, 0x7, 0xE, 0x4, 0x0);
    TwoDigits(0x4, 0x0, 0xD, 0x0, 0x9, 0x0);
    FourBytes(0xBA84_7ED0, 0xBA, 0x84, 0x7E, 0xD0, 0x3E, 0x40, 0x90);
  }

  lemma {:induction false} SecondKeyByte()
    ensures XorByte(0, KeyByte(0xE200_43EF)) == 0x4E
  {
    hide Xor, XorByte, KeyByte;
    TwoDigits(0xE, 0x2, 0x0, 0x0, 0xE, 0x2);
    TwoDigits(0xE, 0x2, 0x4, 0x3, 0xA, 0x1);
    TwoDigits(0xA, 0x1, 0xE, 0xF, 0x4, 0xE);
    FourBytes(0xE200_43EF, 0xE2, 0x00, 0x43, 0xEF, 0xE2, 0xA1, 0x4E);
  }

  lemma {:induction false} ThirdKeyByte()
    ensures XorByte(0, KeyByte(0x73DA_A082)) == 0x8B
  {
    hide Xor, XorByte, KeyByte;
    TwoDigits(0x7, 0x3, 0xD, 0xA, 0xA, 0x9);
    TwoDigits(0xA, 0x9, 0xA, 0x0, 0x0, 0x9);
    TwoDigits(0x0, 0x9, 0x8, 0x2, 0x8, 0xB);
    FourBytes(0x73DA_A082, 0x73, 0xDA, 0xA0, 0x82, 0xA9, 0x09, 0x8B);
  }

  lemma {:induction false} FourthKeyByte()
    ensures XorByte(0, KeyByte(0xE72E_E5F9)) == 0xD5
  {
    hide Xor, XorByte, KeyByte;
    TwoDigits(0xE, 0x7, 0x2, 0xE, 0xC, 0x9);
    TwoDigits(0xC, 0x9, 0xE, 0x5, 0x2, 0xC);
    TwoDigits(0x2, 0xC, 0xF, 0x9, 0xD, 0x5);
    FourBytes(0xE72E_E5F9, 0xE7, 0x2E, 0xE5, 0xF9, 0xC9, 0x2C, 0xD5);
  }

  lemma {:induction false} MagicXor()
    ensures XorWord(0xA5A5_5A5A, 0x4C42_4457) == 0xE9E7_1E0D
  {
    hide Xor, XorWord;
    EightDigits(0xA, 0x5, 0xA, 0x5, 0x5, 0xA, 0x5, 0xA,
                0x4, 0xC, 0x4, 0x2, 0x4, 0x4, 0x5, 0x7,
                0xE, 0x9, 0xE, 0x7, 0x1, 0xE, 0x0, 0xD);
    WordIsXor(0xA5A5_5A5A, 0x4C42_4457);
  }

  lemma {:induction false} Turns()
    ensures Rol5(0xE9E7_1E0D) == 0x3CE3_C1BD
    ensures Rol5(0x3CE3_C1BC) == 0x9C78_3787
    ensures Rol5(0x9C78_379B) == 0x8F06_F373
    ensures Rol5(0x8F06_F372) == 0xE0DE_6E51
    ensures Rol5(0xE0FC_4EF1) == 0x1F89_DE3C
  {
  }

  lemma {:induction false} MixIs(hash: Word, turned: Word, word: Word, mixed: Word)
    requires Rol5(hash) == turned && Xor(turned, word) == mixed
    ensures Mix(hash, word) == mixed
  {
    hide Xor, Rol5, Pow2;
  }

  lemma {:induction false} VersionMix()
    ensures Mix(0xE9E7_1E0D, 1) == 0x3CE3_C1BC
  {
    hide Xor, Mix, Rol5;
    Turns();
    EightDigits(0x3, 0xC, 0xE, 0x3, 0xC, 0x1, 0xB, 0xD,
                0x0, 0x0, 0x0, 0x0, 0x0, 0x0, 0x0, 0x1,
                0x3, 0xC, 0xE, 0x3, 0xC, 0x1, 0xB, 0xC);
    MixIs(0xE9E7_1E0D, 0x3CE3_C1BD, 1, 0x3CE3_C1BC);
  }

  lemma {:induction false} HeaderSizeMix()
    ensures Mix(0x3CE3_C1BC, 0x1C) == 0x9C78_379B
  {
    hide Xor, Mix, Rol5;
    Turns();
    EightDigits(0x9, 0xC, 0x7, 0x8, 0x3, 0x7, 0x8, 0x7,
                0x0, 0x0, 0x0, 0x0, 0x0, 0x0, 0x1, 0xC,
                0x9, 0xC, 0x7, 0x8, 0x3, 0x7, 0x9, 0xB);
    MixIs(0x3CE3_C1BC, 0x9C78_3787, 0x1C, 0x9C78_379B);
  }

  lemma {:induction false} PayloadSizeMix()
    ensures Mix(0x9C78_379B, 1) == 0x8F06_F372
  {
    hide Xor, Mix, Rol5;
    Turns();
    EightDigits(0x8, 0xF, 0x0, 0x6, 0xF, 0x3, 0x7, 0x3,
                0x0, 0x0, 0x0, 0x0, 0x0, 0x0, 0x0, 0x1,
                0x8, 0xF, 0x0, 0x6, 0xF, 0x3, 0x7, 0x2);
    MixIs(0x9C78_379B, 0x8F06_F373, 1, 0x8F06_F372);
  }

  lemma {:induction false} CodeMix()
    ensures Mix(0x8F06_F372, 0x2220A0) == 0xE0FC_4EF1
  {
    hide Xor, Mix, Rol5;
    Turns();
    EightDigits(0xE, 0x0, 0xD, 0xE, 0x6, 0xE, 0x5, 0x1,
                0x0, 0x0, 0x2, 0x2, 0x2, 0x0, 0xA, 0x0,
                0xE, 0x0, 0xF, 0xC, 0x4, 0xE, 0xF, 0x1);
    MixIs(0x8F06_F372, 0xE0DE_6E51, 0x2220A0, 0xE0FC_4EF1);
  }

  lemma {:induction false} PayloadChecksumMix()
    ensures Mix(0xE0FC_4EF1, 0x50C_5D1F) == 0x1A85_8323
  {
    hide Xor, Mix, Rol5;
    Turns();
    EightDigits(0x1, 0xF, 0x8, 0x9, 0xD, 0xE, 0x3, 0xC,
                0x0, 0x5, 0x0, 0xC, 0x5, 0xD, 0x1, 0xF,
                0x1, 0xA, 0x8, 0x5, 0x8, 0x3, 0x2, 0x3);
    MixIs(0xE0FC_4EF1, 0x1F89_DE3C, 0x50C_5D1F, 0x1A85_8323);
  }

  lemma {:induction false} KeyXor()
    ensures XorWord(0x1A85_8323, 0x9E37_79B9) == 0x84B2_FA9A
  {
    hide Xor, XorWord;
    EightDigits(0x1, 0xA, 0x8, 0x5, 0x8, 0x3, 0x2, 0x3,
                0x9, 0xE, 0x3, 0x7, 0x7, 0x9, 0xB, 0x9,
                0x8, 0x4, 0xB, 0x2, 0xF, 0xA, 0x9, 0xA);
    WordIsXor(0x1A85_8323, 0x9E37_79B9);
  }

  /** The header checksum of the packet with one zero byte. */
  lemma {:induction false} ZeroChecksum()
    ensures HeaderChecksum(Header(0x4C42_4457, 1, 28, 1, 0x2220A0, 0x50C_5D1F, 0)) == 0x84B2_FA9A
  {
    hide XorWord, Mix;
    MagicXor();
    VersionMix();
    HeaderSizeMix();
    PayloadSizeMix();
    CodeMix();
    PayloadChecksumMix();
    KeyXor();
  }

  lemma {:induction false} ZeroFnv()
    ensures PayloadChecksum([0]) == 0x50C_5D1F
  {
    hide Xor, Pow2;
    XorCommutes(0x811C_9DC5, 0);
    ZeroLeft(0x811C_9DC5);
    WordIsXor(0x811C_9DC5, 0);
    hide XorWord;
    assert TimesPrime(0x811C_9DC5) == 0x50C_5D1F;
    hide TimesPrime;
    assert [0][1..] == [];
    assert Fnv(0x50C_5D1F, []) == 0x50C_5D1F;
  }

  const ZERO_PACKET: Bytes := [
    0x57, 0x44, 0x42, 0x4C, 0x01, 0x00, 0x00, 0x00, 0x1C, 0x00, 0x00, 0x00, 0x01, 0x00, 0x00, 0x00,
    0xA0, 0x20, 0x22, 0x00, 0x1F, 0x5D, 0x0C, 0x05, 0x9A, 0xFA, 0xB2, 0x84, 0x98]

  /** The whole packet of one zero byte under the code of the event query. */
  lemma {:induction false} ZeroPacket()
    ensures Encode(0x2220A0, [0]) == ZERO_PACKET
  {
    hide HeaderBytes, HeaderChecksum, PayloadChecksum, Crypt, StreamKey;
    ZeroFnv();
    ZeroChecksum();
    OneZero();
    var h := PacketHeader(0x2220A0, [0]);
    assert h == Header(0x4C42_4457, 1, 28, 1, 0x2220A0, 0x50C_5D1F, 0x84B2_FA9A);
    hide PacketHeader;
    ZeroHeader(h);
    HeaderRoundTrip(h, ZERO_PACKET);
    hide ParseHeader;
    FrontAndBack(Encode(0x2220A0, [0]), HeaderBytes(h));
  }

  lemma {:induction false} FrontAndBack(packet: Bytes, header: Bytes)
    requires |packet| == 29 && |header| == 28 && packet[..28] == header == ZERO_PACKET[..28] && packet[28..] == [0x98]
    ensures packet == ZERO_PACKET
  {
    assert packet == packet[..28] + packet[28..];
    assert ZERO_PACKET == ZERO_PACKET[..28] + [0x98];
  }

  lemma {:induction false} ZeroHeader(h: Header)
    requires h == Header(0x4C42_4457, 1, 28, 1, 0x2220A0, 0x50C_5D1F, 0x84B2_FA9A)
    ensures ParseHeader(ZERO_PACKET) == h
  {
  }
}
