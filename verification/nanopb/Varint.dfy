/**
 The base-128 varint wire form: what the 64-bit and the 32-bit decoders accept, and how
 they relate to the encoder and to each other.
 */
module Varint {
  import opened Bits

  /** Result of reading one item from the front of a byte sequence. */
  datatype Parse<+T> = Bad | Parsed(value: T, rest: bytes)

  const TWO32: nat := 0x1_0000_0000
  const TWO64: nat := 0x1_0000_0000_0000_0000

  /** Seven bits per byte, least significant group first, continuation bit on all but the last. */
  function VarintBytes(v: nat): (s: bytes)
    ensures |s| > 0
  {
    if v < 128 then [v] else [v % 128 + 128] + VarintBytes(v / 128)
  }

  /** Index of the first byte without a continuation bit, or |s| when there is none. */
  function Terminator(s: bytes): (n: nat)
    ensures n <= |s|
    ensures n < |s| ==> s[n] < 128
  {
    if s == [] || s[0] < 128 then 0 else 1 + Terminator(s[1..])
  }

  /** The number spelled by the seven-bit groups, without any truncation. */
  function RawValue(s: bytes): nat {
    if s == [] then 0 else s[0] % 128 + 128 * RawValue(s[1..])
  }

  /** pb_decode_varint: at most ten bytes, bits above 63 dropped. */
  function Dec64(s: bytes): (p: Parse<nat>)
    ensures p.Parsed? ==> |p.rest| < |s| && p.value < TWO64
  {
    var n := Terminator(s);
    if n < |s| && n < 10 then Parsed(RawValue(s[..n + 1]) % TWO64, s[n + 1..]) else Bad
  }

  function SignExtension(bitpos: nat): byte {
    if bitpos < 63 then 0xFF else 0x01
  }

  lemma {:induction false} BitOrBound(a: nat, b: nat, k: nat)
    requires a < Pow2(k) && b < Pow2(k)
    ensures BitOr(a, b) < Pow2(k)
  {
    if a == 0 || b == 0 {
    } else {
      BitOrBound(a / 2, b / 2, k - 1);
    }
  }

  /** The continuation loop of pb_decode_varint32_eof; the bit counter is eight bits wide. */
  function Dec32From(s: bytes, bitpos: nat, result: nat): (p: Parse<nat>)
    requires result < TWO32
    ensures p.Parsed? ==> |p.rest| < |s| && p.value < TWO32
  {
    if s == [] then Bad
    else
      var b := s[0];
      if bitpos >= 32 && b % 128 != 0 && (result < 0x8000_0000 || b != SignExtension(bitpos)) then Bad
      else
        var r := if bitpos >= 32 then result else Merged32(result, b % 128, bitpos);
        var next := (bitpos + 7) % 256;
        if b >= 128 then Dec32From(s[1..], next, r)
        else if next == 35 && b >= 16 then Bad
        else Parsed(r, s[1..])
  }

  /** `result |= (uint32_t)g << bitpos` */
  function Merged32(result: nat, g: nat, bitpos: nat): (r: nat)
    requires result < TWO32
    ensures r < TWO32
  {
    Pow2Values();
    BitOrBound(result, Shl(g, bitpos) % TWO32, 32);
    BitOr(result, Shl(g, bitpos) % TWO32)
  }

  /** pb_decode_varint32_eof, apart from its end-of-stream flag. */
  function Dec32(s: bytes): (p: Parse<nat>)
    ensures p.Parsed? ==> |p.rest| < |s| && p.value < TWO32
  {
    if s == [] then Bad
    else if s[0] < 128 then Parsed(s[0], s[1..])
    else Dec32From(s[1..], 7, s[0] % 128)
  }

  // ----- the encoder's output

  lemma {:induction false} TerminatorFirst(s: bytes, i: nat)
    requires i < Terminator(s)
    ensures s[i] >= 128
  {
    if i > 0 {
      TerminatorFirst(s[1..], i - 1);
    }
  }

  lemma {:induction false} VarintLength(v: nat, k: nat)
    requires 0 < k && v < Pow2(7 * k)
    ensures |VarintBytes(v)| <= k
  {
    if v < 128 {
    } else {
      Pow2Values();
      if k > 1 {
        Pow2Add(7, 7 * (k - 1));
        assert 7 + 7 * (k - 1) == 7 * k;
        VarintLength(v / 128, k - 1);
      }
    }
  }

  /** For every uint64 the encoder emits between one and ten bytes. */
  lemma {:induction false} VarintLength64(v: nat)
    requires v < TWO64
    ensures 1 <= |VarintBytes(v)| <= 10
  {
    Pow2Values();
    Pow2Add(64, 6);
    VarintLength(v, 10);
  }

  lemma {:induction false} VarintFraming(v: nat, t: bytes)
    ensures Terminator(VarintBytes(v) + t) == |VarintBytes(v)| - 1
    ensures RawValue(VarintBytes(v)) == v
  {
    var s := VarintBytes(v) + t;
    if v < 128 {
    } else {
      VarintFraming(v / 128, t);
      assert s[1..] == VarintBytes(v / 128) + t;
      assert VarintBytes(v)[1..] == VarintBytes(v / 128);
    }
  }

  lemma {:induction false} VarintTerminated(v: nat)
    ensures Terminated(VarintBytes(v))
  {
    if v >= 128 {
      VarintTerminated(v / 128);
    }
  }

  /** Whatever follows, the 64-bit decoder gives the value back and stops right after it. */
  lemma {:induction false} VarintRoundTrip(v: nat, t: bytes)
    requires v < TWO64
    ensures Dec64(VarintBytes(v) + t) == Parsed(v, t)
  {
    var s := VarintBytes(v) + t;
    VarintLength64(v);
    VarintFraming(v, t);
    assert s[..|VarintBytes(v)|] == VarintBytes(v);
    assert s[|VarintBytes(v)|..] == t;
  }

  // ----- the 32-bit decoder

  lemma {:induction false} RawSnoc(s: bytes, b: byte)
    ensures RawValue(s + [b]) == RawValue(s) + (b % 128) * Pow2(7 * |s|)
  {
    if s == [] {
    } else {
      RawSnoc(s[1..], b);
      assert (s + [b])[1..] == s[1..] + [b];
      Pow2Values();
      Pow2Add(7, 7 * (|s| - 1));
      assert 7 * |s| == 7 + 7 * (|s| - 1);
      Scaled(RawValue(s[1..]), b % 128, Pow2(7 * (|s| - 1)));
    }
  }

  lemma {:induction false} Scaled(r: nat, g: nat, p: nat)
    ensures 128 * (r + g * p) == 128 * r + g * (128 * p)
  {
  }

  lemma {:induction false} RawBound(s: bytes)
    ensures RawValue(s) < Pow2(7 * |s|)
  {
    if s == [] {
    } else {
      RawBound(s[1..]);
      Pow2Values();
      Pow2Add(7, 7 * |s[1..]|);
      assert 7 * |s| == 7 + 7 * |s[1..]|;
    }
  }

  /** Group j of a varint of at most ten bytes does not spoil a 32-bit reading of the whole. */
  predicate Harmless(g: bytes, j: nat)
    requires j < |g|
  {
    g[j] % 128 == 0 || (RawValue(g) % TWO32 >= 0x8000_0000 && g[j] == SignExtension(7 * j))
  }

  /** What the 32-bit decoder accepts among varints of at most ten bytes. */
  predicate Accepted32(g: bytes) {
    && (|g| == 5 ==> g[4] < 16)
    && forall j | 5 <= j < |g| :: Harmless(g, j)
  }

  /** The first terminated varint in s. */
  function Head(s: bytes): bytes
    requires Terminator(s) < |s|
  {
    s[..Terminator(s) + 1]
  }

  lemma {:induction false} ModPlusMultiple(a: nat, k: nat, d: nat)
    requires d > 0
    ensures (a + d * k) % d == a % d
  {
    var q := a / d;
    assert a + d * k == d * (q + k) + a % d by { assert d * (q + k) == d * q + d * k; }
    DivModUnique(a + d * k, d, q + k, a % d);
  }

  lemma {:induction false} Swap(a: nat, b: nat, c: nat)
    ensures a * (b * c) == b * (a * c)
  {
  }

  /** Groups at index 5 and above are multiples of 2^32. */
  lemma {:induction false} HighGroup(s: bytes, b: byte)
    requires |s| >= 5
    ensures RawValue(s + [b]) % TWO32 == RawValue(s) % TWO32
  {
    hide RawValue, Pow2;
    RawSnoc(s, b);
    Pow2Values();
    Pow2Add(32, 7 * |s| - 32);
    var p := Pow2(7 * |s| - 32);
    Swap(b % 128, TWO32, p);
    ModPlusMultiple(RawValue(s), (b % 128) * p, TWO32);
  }

  lemma {:induction false} HighGroups(g: bytes, i: nat)
    requires 5 <= i <= |g|
    ensures RawValue(g) % TWO32 == RawValue(g[..i]) % TWO32
    decreases |g| - i
  {
    if i == |g| {
      assert g[..i] == g;
    } else {
      HighGroups(g, i + 1);
      assert g[..i + 1] == g[..i] + [g[i]];
      HighGroup(g[..i], g[i]);
    }
  }

  /** The OR of a group below index 5 into the accumulator. */
  lemma {:induction false} LowGroup(s: bytes, b: byte)
    requires |s| <= 4
    ensures RawValue(s) < TWO32
    ensures Merged32(RawValue(s), b % 128, 7 * |s|) == RawValue(s + [b]) % TWO32
  {
    hide RawValue, Pow2, BitOr;
    var k := 7 * |s|;
    RawSnoc(s, b);
    RawBound(s);
    Pow2Values();
    Pow2Add(k, 32 - k);
    var p, g := Pow2(k), b % 128;
    var q := Pow2(32 - k);
    assert p * q == TWO32;
    assert p >= 1 && q >= 1;
    assert p <= TWO32 by { MulAtLeast(p, q); }
    ShiftedSum(0, g, p, q);
    OrDisjoint(RawValue(s), g % q, k);
    ShiftedSum(RawValue(s), g, p, q);
  }

  lemma {:induction false} Distribute(a: nat, b: nat, q: nat, r: nat, t: nat)
    ensures a * (b * q + r) + t == (a * b) * q + (a * r + t)
  {
  }

  lemma {:induction false} Below(a: nat, b: nat, r: nat, t: nat)
    requires t < a && r < b
    ensures a * r + t < a * b
  {
    MulAtLeast(a, b - r);
    assert a * (b - r) == a * b - a * r;
  }

  lemma {:induction false} ShiftedSum(a: nat, g: nat, p: nat, q: nat)
    requires 0 < p && 0 < q && a < p
    ensures p * q > 0 && (a + g * p) % (p * q) == a + (g % q) * p
  {
    ShiftedParts(a + g * p, a, p, q, g / q, g % q, p * q);
  }

  lemma {:induction false} ShiftedParts(v: nat, a: nat, p: nat, q: nat, d: nat, m: nat, n: nat)
    requires v == p * (q * d + m) + a && a < p && m < q && n == p * q
    ensures n > 0 && v % n == a + m * p
  {
    Distribute(p, q, d, m, a);
    Below(p, q, m, a);
    var r := p * m + a;
    assert v == n * d + r && r < n;
    DivModUnique(v, n, d, r);
  }

  predicate HarmlessFrom(g: bytes, i: nat) {
    forall j | 5 <= j < |g| && i <= j :: Harmless(g, j)
  }

  /** What the accumulator holds after one more byte. */
  lemma {:induction false} Accumulate(p: bytes, b: byte)
    ensures var r := RawValue(p) % TWO32;
            RawValue(p + [b]) % TWO32 == if |p| <= 4 then Merged32(r, b % 128, 7 * |p|) else r
  {
    if |p| <= 4 {
      LowGroup(p, b);
      SmallMod(RawValue(p));
    } else {
      HighGroup(p, b);
    }
  }

  lemma {:induction false} SmallMod(v: nat)
    requires v < TWO32
    ensures v % TWO32 == v
  {
  }

  /** One turn of the continuation loop: b is group i of a varint, and more bytes may follow. */
  lemma {:induction false} Dec32Turn(x: bytes, b: byte, t: bytes, i: nat, r: nat, r': nat)
    requires x == [b] + t && i < 10 && r < TWO32
    requires r' == if i <= 4 then Merged32(r, b % 128, 7 * i) else r
    ensures Dec32From(x, 7 * i, r) ==
            if i >= 5 && b % 128 != 0 && (r < 0x8000_0000 || b != SignExtension(7 * i)) then Bad
            else if b >= 128 then Dec32From(t, 7 * (i + 1), r')
            else if i == 4 && b >= 16 then Bad
            else Parsed(r', t)
  {
  }

  /** All bytes but the last carry the continuation bit. */
  predicate Terminated(g: bytes) {
    g != [] && g[|g| - 1] < 128 && forall i | 0 <= i < |g| - 1 :: g[i] >= 128
  }

  lemma {:induction false} HarmlessStep(g: bytes, i: nat)
    ensures HarmlessFrom(g, i) == ((5 <= i < |g| ==> Harmless(g, i)) && HarmlessFrom(g, i + 1))
  {
  }

  /** The continuation loop over the last groups x of the varint g == p + x. */
  lemma {:induction false} Dec32Run(p: bytes, x: bytes, t: bytes, g: bytes)
    requires g == p + x && Terminated(x) && 0 < |p| && |g| <= 10
    ensures Dec32From(x + t, 7 * |p|, RawValue(p) % TWO32) ==
            if (|p| <= 4 && |g| == 5 ==> g[4] < 16) && HarmlessFrom(g, |p|)
            then Parsed(RawValue(g) % TWO32, t) else Bad
    decreases |x|
  {
    hide Dec32From, RawValue, Merged32;
    var i, b, p', x' := |p|, x[0], p + [x[0]], x[1..];
    assert x + t == [b] + (x' + t) && g == p' + x';
    if i >= 5 {
      HighGroups(g, i);
      assert g[..i] == p;
    }
    Accumulate(p, b);
    HarmlessStep(g, i);
    Dec32Turn(x + t, b, x' + t, i, RawValue(p) % TWO32, RawValue(p') % TWO32);
    if x' == [] {
      assert g == p' && x' + t == t;
    } else {
      Dec32Run(p', x', t, g);
    }
  }

  /** Exactly what the 32-bit decoder does on a varint of at most ten bytes. */
  lemma {:induction false} Dec32Exact(g: bytes, t: bytes)
    requires Terminated(g) && |g| <= 10
    ensures Dec32(g + t) == if Accepted32(g) then Parsed(RawValue(g) % TWO32, t) else Bad
  {
    hide Dec32, Dec32From;
    var p, x := g[..1], g[1..];
    assert g == p + x && p == [g[0]];
    Assoc(p, x, t);
    if x == [] {
      Dec32Single(g[0], t);
      AppendNil(g);
      AppendNil(t);
    } else {
      Dec32Cons(g[0], x + t);
      OneByte(g[0]);
      Dec32Run(p, x, t, g);
      AcceptedFromFirst(g);
    }
  }

  /** The 64-bit decoder on a varint of at most ten bytes. */
  lemma {:induction false} Dec64Exact(g: bytes, t: bytes)
    requires Terminated(g) && |g| <= 10
    ensures Dec64(g + t) == Parsed(RawValue(g) % TWO64, t)
  {
    TerminatedHead(g, t);
    assert (g + t)[|g|..] == t;
  }

  lemma {:induction false} AcceptedFromFirst(g: bytes)
    ensures Accepted32(g) == ((|g| == 5 ==> g[4] < 16) && HarmlessFrom(g, 1))
  {
  }

  lemma {:induction false} Dec32Single(b: byte, t: bytes)
    requires b < 128
    ensures Dec32([b] + t) == Parsed(RawValue([b]) % TWO32, t)
  {
  }

  lemma {:induction false} Dec32Cons(b: byte, t: bytes)
    ensures Dec32([b] + t) == if b < 128 then Parsed(b, t) else Dec32From(t, 7, b % 128)
  {
  }

  lemma {:induction false} HeadTerminated(s: bytes)
    requires Terminator(s) < |s|
    ensures Terminated(Head(s)) && s == Head(s) + s[|Head(s)|..]
  {
    forall i | 0 <= i < Terminator(s) ensures s[i] >= 128 {
      TerminatorFirst(s, i);
    }
  }

  lemma {:induction false} TerminatedHead(g: bytes, t: bytes)
    requires Terminated(g)
    ensures Terminator(g + t) == |g| - 1 && Head(g + t) == g
  {
    if |g| > 1 {
      TerminatedHead(g[1..], t);
      assert (g + t)[1..] == g[1..] + t;
    }
  }

  lemma {:induction false} OneByte(b: byte)
    ensures RawValue([b]) == b % 128
  {
  }

  /** When both decoders succeed they consume the same bytes and agree modulo 2^32. */
  lemma {:induction false} Varint32Refines(s: bytes)
    requires Dec64(s).Parsed? && Dec32(s).Parsed?
    ensures Dec32(s).rest == Dec64(s).rest
    ensures Dec32(s).value == Dec64(s).value % TWO32
  {
    HeadTerminated(s);
    Dec32Exact(Head(s), s[|Head(s)|..]);
    var raw := RawValue(Head(s));
    assert raw == TWO64 * (raw / TWO64) + raw % TWO64;
    ModPlusMultiple(raw % TWO64, TWO32 * (raw / TWO64), TWO32);
  }

  lemma {:induction false} GroupAtMost(s: bytes, j: nat)
    requires j < |s|
    ensures (s[j] % 128) * Pow2(7 * j) <= RawValue(s)
  {
    if j == 0 {
    } else {
      GroupAtMost(s[1..], j - 1);
      Pow2Values();
      Pow2Add(7, 7 * (j - 1));
      assert 7 * j == 7 + 7 * (j - 1);
      Regroup(s[j] % 128, Pow2(7 * (j - 1)));
    }
  }

  lemma {:induction false} Regroup(g: nat, p: nat)
    ensures g * (128 * p) == 128 * (g * p)
  {
  }

  /** A 32-bit value is accepted however it is padded. */
  lemma {:induction false} SmallAccepted(g: bytes)
    requires 0 < |g| <= 10 && RawValue(g) < TWO32 && g[|g| - 1] < 128
    ensures Accepted32(g)
  {
    forall j | 5 <= j < |g| ensures Harmless(g, j) {
      GroupAtMost(g, j);
      HighPower(j);
      ZeroFactor(g[j] % 128, Pow2(7 * j), RawValue(g));
    }
    if |g| == 5 {
      GroupAtMost(g, 4);
      Pow2Values();
      Pow2Add(24, 4);
    }
  }

  lemma {:induction false} HighPower(j: nat)
    requires j >= 5
    ensures Pow2(7 * j) >= TWO32
  {
    Pow2Values();
    Pow2Add(32, 7 * j - 32);
    MulAtLeast(TWO32, Pow2(7 * j - 32));
  }

  lemma {:induction false} ZeroFactor(x: nat, q: nat, raw: nat)
    requires x * q <= raw < TWO32 <= q
    ensures x == 0
  {
  }

  /**
   A 64-bit reading below 2^32 is also accepted by the 32-bit decoder exactly when the
   spelled number fits 64 bits, that is, when the 64-bit decoder dropped nothing.
   */
  lemma {:induction false} Varint32Succeeds(s: bytes)
    requires Dec64(s).Parsed? && Dec64(s).value < TWO32
    ensures Dec32(s).Parsed? <==> RawValue(Head(s)) < TWO64
  {
    hide Dec32, Accepted32, RawValue;
    var g := Head(s);
    HeadTerminated(s);
    Dec32Exact(Head(s), s[|Head(s)|..]);
    if RawValue(g) < TWO64 {
      SmallAccepted(g);
    } else {
      DroppedBits(g);
      HighTop(g);
    }
  }

  /** Ten bytes that spell 2^64 or more have a last group above 1. */
  lemma {:induction false} DroppedBits(g: bytes)
    requires 0 < |g| <= 10 && g[|g| - 1] < 128 && RawValue(g) >= TWO64
    ensures |g| == 10 && g[9] > 1
  {
    Pow2Values();
    RawBound(g);
    if |g| < 10 {
      Pow2Add(7 * |g|, 63 - 7 * |g|);
      MulAtLeast(Pow2(7 * |g|), Pow2(63 - 7 * |g|));
      assert false;
    }
    assert g == g[..9] + [g[9]];
    RawSnoc(g[..9], g[9]);
    RawBound(g[..9]);
  }

  lemma {:induction false} HighTop(g: bytes)
    requires |g| == 10 && 1 < g[9] < 128
    ensures !Accepted32(g)
  {
    assert !Harmless(g, 9);
  }

  /** The bits above 63 that the 64-bit decoder drops are an overflow for the 32-bit one. */
  lemma {:induction false} Varint32RejectsDroppedBits(t: bytes)
    requires |t| == 9 && forall i | 0 <= i < 9 :: t[i] == 0x80
    ensures Dec64(t + [0x02]) == Parsed(0, [])
    ensures Dec32(t + [0x02]) == Bad
  {
    var s := t + [0x02];
    RawZero(t);
    TopGroup(t, 0x02);
    AppendNil(s);
    Dec64Exact(s, []);
    Dec32Exact(s, []);
    HighTop(s);
  }

  lemma {:induction false} TopGroup(t: bytes, b: byte)
    requires |t| == 9
    ensures RawValue(t + [b]) == RawValue(t) + (b % 128) * 0x8000_0000_0000_0000
  {
    RawSnoc(t, b);
    Pow2Values();
  }

  lemma {:induction false} RawZero(t: bytes)
    requires forall i | 0 <= i < |t| :: t[i] == 0x80
    ensures RawValue(t) == 0
  {
    if t != [] {
      RawZero(t[1..]);
    }
  }

  /** Below 2^32 the 32-bit decoder inverts the encoder. */
  lemma {:induction false} Varint32RoundTrip(v: nat, t: bytes)
    requires v < TWO32
    ensures Dec32(VarintBytes(v) + t) == Parsed(v, t)
  {
    hide Dec32, Accepted32;
    var g := VarintBytes(v);
    VarintLength64(v);
    VarintTerminated(v);
    VarintFraming(v, t);
    SmallAccepted(g);
    Dec32Exact(g, t);
  }

  lemma {:induction false} VarintByteAt(v: nat, j: nat)
    requires v / Pow2(7 * j) >= 128
    ensures j < |VarintBytes(v)| - 1 && VarintBytes(v)[j] == v / Pow2(7 * j) % 128 + 128
  {
    if j == 0 {
    } else {
      Pow2Values();
      var p := Pow2(7 * (j - 1));
      Pow2Add(7, 7 * (j - 1));
      assert 7 * j == 7 + 7 * (j - 1);
      DivDiv(v, 128, p);
      VarintByteAt(v / 128, j - 1);
    }
  }

  lemma {:induction false} DivDiv(v: nat, a: nat, b: nat)
    requires a > 0 && b > 0
    ensures a * b > 0 && v / (a * b) == (v / a) / b
  {
    var h := v / a;
    DivDivParts(v, a, b, h / b, h % b, v % a, a * b);
  }

  lemma {:induction false} DivDivParts(v: nat, a: nat, b: nat, q: nat, r: nat, t: nat, d: nat)
    requires v == a * (b * q + r) + t && t < a && r < b && d == a * b
    ensures d > 0 && v / d == q
  {
    Distribute(a, b, q, r, t);
    Below(a, b, r, t);
    var m := a * r + t;
    assert v == d * q + m && m < d;
    DivModUnique(v, d, q, m);
  }

  /** A negative int32 is sent as ten bytes; the 32-bit decoder reads its two's complement. */
  lemma {:induction false} Varint32Negative(v: int, t: bytes)
    requires -0x8000_0000 <= v < 0
    ensures |VarintBytes(v + TWO64)| == 10
    ensures Dec32(VarintBytes(v + TWO64) + t) == Parsed(v + TWO32, t)
  {
    hide Dec32, Accepted32, VarintBytes, Pow2;
    var u := v + TWO64;
    var g := VarintBytes(u);
    NegativeGroups(u);
    VarintTerminated(u);
    VarintFraming(u, t);
    LowWord(v);
    NegativeAccepted(g);
    Dec32Exact(g, t);
  }

  lemma {:induction false} LowWord(v: int)
    requires -0x8000_0000 <= v < 0
    ensures (v + TWO64) % TWO32 == v + TWO32
  {
  }

  lemma {:induction false} NegativeAccepted(g: bytes)
    requires |g| == 10 && g[5] == g[6] == g[7] == g[8] == 0xFF && g[9] == 1
    requires RawValue(g) % TWO32 >= 0x8000_0000
    ensures Accepted32(g)
  {
  }

  lemma {:induction false} NegativeGroups(u: nat)
    requires TWO64 - 0x8000_0000 <= u < TWO64
    ensures var g := VarintBytes(u);
            |g| == 10 && g[5] == g[6] == g[7] == g[8] == 0xFF && g[9] == 1
  {
    NegativeShifts(u);
    VarintByteAt(u, 5); VarintByteAt(u, 6); VarintByteAt(u, 7); VarintByteAt(u, 8);
    VarintLength64(u);
    NegativeTop(u, VarintBytes(u));
  }

  lemma {:induction false} NegativeTop(u: nat, g: bytes)
    requires TWO64 - 0x8000_0000 <= u < TWO64 && g == VarintBytes(u) && |g| == 10
    ensures g[9] == 1
  {
    VarintFraming(u, []);
    VarintTerminated(u);
    TopGroup(g[..9], g[9]);
    assert g == g[..9] + [g[9]];
    RawBound(g[..9]);
    Pow2Values();
  }

  lemma {:induction false} NegativeShifts(u: nat)
    requires TWO64 - 0x8000_0000 <= u < TWO64
    ensures Pow2(63) == 0x8000_0000_0000_0000
    ensures u / Pow2(35) == 0x1FFF_FFFF && u / Pow2(42) == 0x3F_FFFF && u / Pow2(49) == 0x7FFF && u / Pow2(56) == 0xFF
  {
    Pow2Values();
    Pow2Add(32, 3);
    Pow2Add(35, 7);
    Pow2Add(42, 7);
    assert Pow2(35) == 0x8_0000_0000 && Pow2(42) == 0x400_0000_0000 && Pow2(49) == 0x2_0000_0000_0000;
  }

  // ----- zigzag and the integer widths

  function ZigZag(n: int): nat {
    if n < 0 then -2 * n - 1 else 2 * n
  }

  function UnZigZag(z: nat): int {
    if z % 2 == 1 then -(z / 2) - 1 else z / 2
  }

  /** Zigzag is a bijection between int64 and uint64. */
  lemma {:induction false} ZigZagBijection(n: int, z: nat)
    ensures UnZigZag(ZigZag(n)) == n && ZigZag(UnZigZag(z)) == z
    ensures -0x8000_0000_0000_0000 <= n < 0x8000_0000_0000_0000 <==> ZigZag(n) < TWO64
  {
  }

  predicate IsIntSize(size: nat) {
    size == 1 || size == 2 || size == 4 || size == 8
  }

  function Width(size: nat): (w: nat)
    requires IsIntSize(size)
    ensures w > 0
  {
    if size == 1 then 0x100 else if size == 2 then 0x1_0000 else if size == 4 then TWO32 else TWO64
  }

  predicate FitsSigned(n: int, size: nat)
    requires IsIntSize(size)
  {
    -(Width(size) / 2) <= n < Width(size) / 2
  }

  predicate FitsUnsigned(n: int, size: nat)
    requires IsIntSize(size)
  {
    0 <= n < Width(size)
  }

  /** The C cast to a signed integer of the given size. */
  function CastSigned(n: int, size: nat): (r: int)
    requires IsIntSize(size)
    ensures FitsSigned(r, size)
  {
    var m := n % Width(size);
    if m < Width(size) / 2 then m else m - Width(size)
  }

  lemma {:induction false} CastSignedFits(n: int, size: nat)
    requires IsIntSize(size) && FitsSigned(n, size)
    ensures CastSigned(n, size) == n
  {
  }

}
