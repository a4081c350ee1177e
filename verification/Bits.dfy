/** Bytes, 32-bit words and exclusive or, on integers. */
module Bits {

  const WORD_LIMIT: nat := 0x1_0000_0000

  type Byte = b: int | 0 <= b < 0x100
  type Word = w: int | 0 <= w < 0x1_0000_0000
  type Bytes = seq<Byte>

  /** Bitwise exclusive or of two naturals, from the lowest bit up. */
  function Xor(a: nat, b: nat): nat
    decreases a + b
  {
    if a == 0 && b == 0 then 0 else (if a % 2 == b % 2 then 0 else 1) + 2 * Xor(a / 2, b / 2)
  }

  lemma {:induction false} XorStep(a: nat, b: nat)
    ensures Xor(a, b) == (if a % 2 == b % 2 then 0 else 1) + 2 * Xor(a / 2, b / 2)
  {
  }

  lemma {:induction false} XorHalves(a: nat, b: nat)
    ensures Xor(a, b) / 2 == Xor(a / 2, b / 2)
    ensures Xor(a, b) % 2 == if a % 2 == b % 2 then 0 else 1
  {
    hide Xor;
    XorStep(a, b);
  }

  lemma {:induction false} XorInvolution(a: nat, b: nat)
    ensures Xor(Xor(a, b), b) == a
    decreases a + b
  {
    if a != 0 || b != 0 {
      var x := Xor(a, b);
      XorHalves(a, b);
      XorInvolution(a / 2, b / 2);
      XorHalves(x, b);
      assert Xor(x, b) / 2 == a / 2;
      assert Xor(x, b) % 2 == a % 2;
    }
  }

  lemma {:induction false} XorCommutes(a: nat, b: nat)
    ensures Xor(a, b) == Xor(b, a)
    decreases a + b
  {
    if a != 0 || b != 0 { XorCommutes(a / 2, b / 2); }
  }

  /** Exclusive or with a fixed number is injective, on either side. */
  lemma {:induction false} XorCancel(a: nat, b: nat, x: nat)
    ensures Xor(a, x) == Xor(b, x) ==> a == b
    ensures Xor(x, a) == Xor(x, b) ==> a == b
  {
    XorInvolution(a, x);
    XorInvolution(b, x);
    XorCommutes(x, a);
    XorCommutes(x, b);
  }

  /** Bitwise or of two naturals. */
  function Or(a: nat, b: nat): nat
    decreases a + b
  {
    if a == 0 && b == 0 then 0 else (if a % 2 == 0 && b % 2 == 0 then 0 else 1) + 2 * Or(a / 2, b / 2)
  }

  lemma {:induction false} OrZero(a: nat, b: nat)
    ensures Or(a, b) == 0 <==> a == 0 && b == 0
    decreases a + b
  {
    if a != 0 || b != 0 { OrZero(a / 2, b / 2); }
  }

  lemma {:induction false} XorZero(a: nat, b: nat)
    ensures Xor(a, b) == 0 <==> a == b
  {
    XorInvolution(a, b);
    ZeroLeft(b);
    XorSelf(b);
  }

  lemma {:induction false} ZeroLeft(b: nat)
    ensures Xor(0, b) == b
  {
    if b != 0 { ZeroLeft(b / 2); }
  }

  lemma {:induction false} XorSelf(b: nat)
    ensures Xor(b, b) == 0
  {
    if b != 0 { XorSelf(b / 2); }
  }

  function Pow2(n: nat): (p: nat)
    ensures p > 0
  {
    if n == 0 then 1 else 2 * Pow2(n - 1)
  }

  lemma {:induction false} XorBelow(a: nat, b: nat, n: nat)
    requires a < Pow2(n) && b < Pow2(n)
    ensures Xor(a, b) < Pow2(n)
    decreases n
  {
    if n > 0 && (a != 0 || b != 0) { XorBelow(a / 2, b / 2, n - 1); }
  }

  lemma {:induction false} Powers()
    ensures Pow2(8) == 0x100 && Pow2(32) == WORD_LIMIT
  {
    assert Pow2(4) == 16 && Pow2(8) == 0x100;
    assert Pow2(12) == 0x1000 && Pow2(16) == 0x1_0000 && Pow2(20) == 0x10_0000;
    assert Pow2(24) == 0x100_0000 && Pow2(28) == 0x1000_0000;
  }

  /** The high and the low parts are combined apart from each other. */
  lemma {:induction false} XorParts(a: nat, low: nat, b: nat, down: nat, n: nat)
    requires low < Pow2(n) && down < Pow2(n)
    ensures Xor(a * Pow2(n) + low, b * Pow2(n) + down) == Xor(a, b) * Pow2(n) + Xor(low, down)
    ensures Xor(low, down) < Pow2(n)
    decreases n
  {
    hide Xor;
    XorBelow(low, down, n);
    if n == 0 {
      XorSelf(0);
    } else {
      var p := Pow2(n - 1);
      assert Pow2(n) == 2 * p;
      hide Pow2;
      XorParts(a, low / 2, b, down / 2, n - 1);
      PartsStep(a, low, b, down, p);
    }
  }

  lemma {:induction false} PartsStep(a: nat, low: nat, b: nat, down: nat, p: nat)
    requires Xor(a * p + low / 2, b * p + down / 2) == Xor(a, b) * p + Xor(low / 2, down / 2)
    ensures Xor(a * (2 * p) + low, b * (2 * p) + down) == Xor(a, b) * (2 * p) + Xor(low, down)
  {
    hide Xor;
    Doubled(a, p, low);
    Doubled(b, p, down);
    Doubled(Xor(a, b), p, 0);
    XorStep(a * (2 * p) + low, b * (2 * p) + down);
    XorStep(low, down);
  }

  lemma {:induction false} Doubled(a: nat, p: nat, low: nat)
    ensures a * (2 * p) == 2 * (a * p)
    ensures (a * (2 * p) + low) / 2 == a * p + low / 2 && (a * (2 * p) + low) % 2 == low % 2
  {
    var half := a * p;
    assert a * (2 * p) == 2 * half;
  }

  lemma {:induction false} XorBytes(a: nat, low: Byte, b: nat, down: Byte)
    ensures Xor(a * 0x100 + low, b * 0x100 + down) == Xor(a, b) * 0x100 + Xor(low, down)
    ensures Xor(low, down) < 0x100
  {
    Powers();
    XorParts(a, low, b, down, 8);
  }

  function XorByte(a: Byte, b: Byte): Byte {
    Powers();
    XorBelow(a, b, 8);
    Xor(a, b)
  }

  function XorWord(a: Word, b: Word): Word {
    Powers();
    XorBelow(a, b, 32);
    Xor(a, b)
  }

  /** Exclusive or of two equally long byte strings. */
  function XorSeq(a: Bytes, b: Bytes): (out: Bytes)
    requires |a| == |b|
    ensures |out| == |a|
    ensures forall i :: 0 <= i < |a| ==> out[i] == XorByte(a[i], b[i])
  {
    seq(|a|, i requires 0 <= i < |a| => XorByte(a[i], b[i]))
  }

  lemma {:induction false} XorSeqInvolution(a: Bytes, b: Bytes)
    requires |a| == |b|
    ensures XorSeq(XorSeq(a, b), b) == a
  {
    forall i | 0 <= i < |a|
      ensures XorSeq(XorSeq(a, b), b)[i] == a[i]
    {
      XorInvolution(a[i], b[i]);
    }
  }

  /** Rotation left by five: the high five bits come back in at the bottom. */
  function Rol5(w: Word): Word {
    (w * 0x20) % 0x1_0000_0000 + w / 0x800_0000
  }

  lemma {:induction false} Rol5Injective(v: Word, w: Word)
    requires Rol5(v) == Rol5(w)
    ensures v == w
  {
    RolBack(v);
    RolBack(w);
  }

  lemma {:induction false} RolBack(w: Word)
    ensures w == Rol5(w) / 0x20 + (Rol5(w) % 0x20) * 0x800_0000
  {
    var high, low := w / 0x800_0000, w % 0x800_0000;
    assert w * 0x20 == high * 0x1_0000_0000 + low * 0x20;
    assert (w * 0x20) % 0x1_0000_0000 == low * 0x20;
  }
}
