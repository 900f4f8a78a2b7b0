/**
 Bitwise operators on natural numbers, defined bit by bit, and the laws that relate the
 masks and shifts of the C code to division and remainder.
 */
module Bits {

  type byte = n: nat | n < 256

  type bytes = seq<byte>

  function Pow2(k: nat): (p: nat)
    ensures p > 0
  {
    if k == 0 then 1 else 2 * Pow2(k - 1)
  }

  /** The C operator `a | b`. */
  function BitOr(a: nat, b: nat): nat {
    if a == 0 then b
    else if b == 0 then a
    else (if a % 2 == 1 || b % 2 == 1 then 1 else 0) + 2 * BitOr(a / 2, b / 2)
  }

  /** The C operator `a & b`. */
  function BitAnd(a: nat, b: nat): nat {
    if a == 0 || b == 0 then 0
    else (if a % 2 == 1 && b % 2 == 1 then 1 else 0) + 2 * BitAnd(a / 2, b / 2)
  }

  /** The C operator `a << k` before truncation to the width of the left operand. */
  function Shl(a: nat, k: nat): nat {
    a * Pow2(k)
  }

  /** The C operator `a >> k` on an unsigned operand. */
  function Shr(a: nat, k: nat): nat {
    if k == 0 then a else Shr(a / 2, k - 1)
  }

  lemma {:induction false} Pow2Add(a: nat, b: nat)
    ensures Pow2(a + b) == Pow2(a) * Pow2(b)
  {
    if a == 0 {
    } else {
      Pow2Add(a - 1, b);
      assert Pow2(a + b) == 2 * Pow2(a - 1 + b);
    }
  }

  lemma {:induction false} Pow2Values()
    ensures Pow2(3) == 8 && Pow2(4) == 16 && Pow2(7) == 0x80 && Pow2(8) == 0x100 && Pow2(16) == 0x1_0000
    ensures Pow2(24) == 0x100_0000 && Pow2(31) == 0x8000_0000 && Pow2(32) == 0x1_0000_0000
    ensures Pow2(40) == 0x100_0000_0000 && Pow2(48) == 0x1_0000_0000_0000 && Pow2(56) == 0x100_0000_0000_0000
    ensures Pow2(63) == 0x8000_0000_0000_0000 && Pow2(64) == 0x1_0000_0000_0000_0000
  {
  }

  lemma {:induction false} DivPow2Step(v: nat, k: nat)
    requires k > 0
    ensures v / Pow2(k) == (v / 2) / Pow2(k - 1)
    ensures v % Pow2(k) == v % 2 + 2 * ((v / 2) % Pow2(k - 1))
  {
    var p, h := Pow2(k - 1), v / 2;
    var q, r := h / p, h % p;
    assert v == (2 * p) * q + (2 * r + v % 2) by { assert h == p * q + r; }
    DivModUnique(v, 2 * p, q, 2 * r + v % 2);
  }

  lemma {:induction false} DivModUnique(v: nat, d: nat, q: nat, r: nat)
    requires d > 0 && r < d && v == d * q + r
    ensures v / d == q && v % d == r
  {
    var q' := v / d;
    if q' != q {
      MulAtLeast(d, if q' < q then q - q' else q' - q);
    }
  }

  lemma {:induction false} MulAtLeast(d: nat, k: nat)
    requires k >= 1
    ensures d * k >= d
  {
  }

  /** Masking with the low k bits is the remainder modulo 2^k. */
  lemma {:induction false} AndMask(v: nat, k: nat)
    ensures BitAnd(v, Pow2(k) - 1) == v % Pow2(k)
  {
    if k == 0 {
    } else {
      var m := Pow2(k) - 1;
      assert m % 2 == 1 && m / 2 == Pow2(k - 1) - 1;
      AndMask(v / 2, k - 1);
      DivPow2Step(v, k);
    }
  }

  lemma {:induction false} AndEven(v: nat, h: nat)
    ensures BitAnd(v, 2 * h) == 2 * BitAnd(v / 2, h)
  {
  }

  lemma {:induction false} DoubleShl(g: nat, k: nat)
    requires k > 0
    ensures Shl(g, k) == 2 * Shl(g, k - 1) && Shl(g, k) % 2 == 0 && Shl(g, k) / 2 == Shl(g, k - 1)
  {
  }

  /** Or-ing in bits above all the bits set so far is addition. */
  lemma {:induction false} OrDisjoint(a: nat, g: nat, k: nat)
    requires a < Pow2(k)
    ensures BitOr(a, Shl(g, k)) == a + Shl(g, k)
  {
    if k == 0 {
    } else {
      DoubleShl(g, k);
      OrDisjoint(a / 2, g, k - 1);
    }
  }

  /** The masks of the varint code. */
  lemma {:induction false} LowSeven(v: nat)
    ensures BitAnd(v, 0x7F) == v % 128
  {
    Pow2Values();
    AndMask(v, 7);
  }

  lemma {:induction false} TopBit(v: nat, k: nat)
    requires v < Pow2(k + 1)
    ensures BitAnd(v, Pow2(k)) == if v < Pow2(k) then 0 else Pow2(k)
  {
    if k == 0 {
    } else {
      TopBit(v / 2, k - 1);
      AndEven(v, Pow2(k - 1));
    }
  }

  lemma {:induction false} ContinuationBit(b: byte)
    ensures BitAnd(b, 0x80) == if b < 128 then 0 else 128
  {
    Pow2Values();
    TopBit(b, 7);
  }

  lemma {:induction false} LowBit(v: nat)
    ensures BitAnd(v, 1) == v % 2 && Shr(v, 1) == v / 2
  {
  }

  /** Word and bit of an index into a bitmap of 32-bit words. */
  lemma {:induction false} BitmapIndex(v: nat)
    ensures BitAnd(v, 31) == v % 32 && Shr(v, 5) == v / 32
  {
    assert Pow2(5) == 32;
    AndMask(v, 5);
    ShrTwo(v, 3);
    ShrTwo(v / 4, 1);
  }

  lemma {:induction false} ShrTwo(v: nat, k: nat)
    ensures Shr(v, k + 2) == Shr(v / 4, k)
  {
  }

  lemma {:induction false} TimesFour(v: nat, m: nat)
    ensures BitAnd(v, 4 * m) == 4 * BitAnd(v / 4, m)
  {
  }

  lemma {:induction false} UpperBits(b: byte)
    ensures BitAnd(b, 0x70) == 16 * ((b / 16) % 8)
  {
    TimesFour(b, 28);
    TimesFour(b / 4, 7);
    assert (b / 4) / 4 == b / 16;
    Pow2Values();
    AndMask(b / 16, 3);
  }

  lemma {:induction false} Assoc<T>(a: seq<T>, b: seq<T>, c: seq<T>)
    ensures (a + b) + c == a + (b + c)
  {
  }

  lemma {:induction false} AppendNil<T>(a: seq<T>)
    ensures a + [] == a && [] + a == a
  {
  }
}
