/** Output streams over a buffer, sizing streams, and the writers of wire-level items. */
module OutputStream {
  import opened Bits
  import opened Varint
  import opened WireEncode
  import opened Wrappers

  /** What a stream has written, and the whole of its buffer. */
  datatype Snap = Snap(sizing: bool, state: nat, maxSize: nat, bytesWritten: nat, image: bytes)

  predicate SnapOk(s: Snap) {
    !s.sizing ==> s.bytesWritten <= s.maxSize && s.state + (s.maxSize - s.bytesWritten) <= |s.image|
  }

  /** Bytes that may still be written to a buffer stream. */
  function Room(s: Snap): (n: nat)
    requires SnapOk(s) && !s.sizing
  {
    s.maxSize - s.bytesWritten
  }

  /** Nothing was moved or touched but the part of the buffer that the stream may write. */
  predicate Within(a: Snap, b: Snap) {
    && SnapOk(a) && SnapOk(b)
    && b.sizing == a.sizing && b.maxSize == a.maxSize && |b.image| == |a.image|
    && (a.sizing ==> b.image == a.image && b.state == a.state)
    && (!a.sizing ==>
          && a.bytesWritten <= b.bytesWritten && b.state - a.state == b.bytesWritten - a.bytesWritten
          && b.image[..a.state] == a.image[..a.state]
          && b.image[a.state + Room(a)..] == a.image[a.state + Room(a)..])
  }

  /** The buffer with e written at position p. */
  function Splice(image: bytes, p: nat, e: bytes): bytes
    requires p + |e| <= |image|
  {
    image[..p] + e + image[p + |e|..]
  }

  /** The stream after e has been written to it. */
  function Advance(a: Snap, e: bytes): Snap
    requires SnapOk(a) && (a.sizing || |e| <= Room(a))
  {
    if a.sizing then a.(bytesWritten := a.bytesWritten + |e|)
    else a.(state := a.state + |e|, bytesWritten := a.bytesWritten + |e|, image := Splice(a.image, a.state, e))
  }

  /**
   The outcome of an encoder that is to write e. It fails if e is an error; otherwise it
   succeeds exactly if the stream only counts or has room for all of e, and then e, and nothing
   else, has been written. (Encodings of 2^64 bytes and more are not covered: their length does
   not fit the varint that precedes them.)
   */
  predicate Emitted(a: Snap, b: Snap, e: Option<bytes>, ok: bool) {
    && Within(a, b)
    && (e.None? ==> !ok)
    && (e.Some? && |e.value| < TWO64 ==>
          && ok == (a.sizing || |e.value| <= Room(a))
          && (ok ==> b == Advance(a, e.value)))
  }

  function Cat(e: Option<bytes>, f: Option<bytes>): Option<bytes> {
    if e.Some? && f.Some? then Some(e.value + f.value) else None
  }

  lemma {:induction false} WithinTrans(a: Snap, b: Snap, c: Snap)
    requires Within(a, b) && Within(b, c)
    ensures Within(a, c)
  {
  }

  /** Writing e and then f is writing their concatenation. */
  lemma {:induction false} Then(a: Snap, b: Snap, c: Snap, e: Option<bytes>, f: Option<bytes>, ok: bool)
    requires Emitted(a, b, e, true) && Emitted(b, c, f, ok)
    ensures Emitted(a, c, Cat(e, f), ok)
  {
  }

  /** If e could not be written, neither could anything that begins with it. */
  lemma {:induction false} Cut(a: Snap, b: Snap, e: Option<bytes>, f: Option<bytes>)
    requires Emitted(a, b, e, false)
    ensures Emitted(a, b, Cat(e, f), false)
  {
  }

  lemma {:induction false} NothingWritten(a: Snap)
    requires SnapOk(a)
    ensures Emitted(a, a, Some([]), true)
  {
  }

  class OStream {
    /** A sizing stream, which has no callback, only counts. */
    const sizing: bool
    const buf: array<byte>
    var state: nat
    var maxSize: nat
    var bytesWritten: nat

    ghost function Now(): Snap
      reads this, buf
    {
      Snap(sizing, state, maxSize, bytesWritten, buf[..])
    }

    ghost predicate Valid()
      reads this, buf
    {
      SnapOk(Now())
    }

    /** pb_ostream_from_buffer */
    constructor (buf: array<byte>)
      ensures Now() == Snap(false, 0, buf.Length, 0, buf[..]) && Valid() && this.buf == buf
    {
      sizing := false;
      this.buf := buf;
      state, maxSize, bytesWritten := 0, buf.Length, 0;
    }

    /** PB_OSTREAM_SIZING */
    constructor Sizing()
      ensures Now() == Snap(true, 0, 0, 0, []) && Valid() && fresh(buf)
    {
      sizing := true;
      buf := new byte[0];
      state, maxSize, bytesWritten := 0, 0, 0;
    }

    /** The substream for a submessage of the given size. */
    constructor Limited(parent: OStream, size: nat)
      requires parent.Valid() && !parent.sizing && size <= Room(parent.Now())
      ensures buf == parent.buf && Now() == Snap(false, parent.state, size, 0, buf[..]) && Valid()
    {
      sizing := false;
      buf := parent.buf;
      state, maxSize, bytesWritten := parent.state, size, 0;
    }

    /** buf_write */
    method BufWrite(data: bytes)
      requires state + |data| <= buf.Length
      modifies this`state, buf
      ensures state == old(state) + |data| && buf[..] == Splice(old(buf[..]), old(state), data)
    {
      var dest := state;
      state := state + |data|;
      var i := 0;
      ghost var before := buf[..];
      while i < |data|
        invariant i <= |data| && state == dest + |data|
        invariant buf[..] == before[..dest] + data[..i] + before[dest + i..]
      {
        buf[dest + i] := data[i];
        assert data[..i + 1] == data[..i] + [data[i]];
        i := i + 1;
      }
      assert data[..i] == data;
    }

    /** pb_write */
    method Write(data: bytes) returns (ok: bool)
      requires Valid()
      modifies this, buf
      ensures Emitted(old(Now()), Now(), Some(data), ok)
    {
      if |data| > 0 && !sizing {
        if bytesWritten + |data| > maxSize {
          return false;
        }
        BufWrite(data);
      } else {
        NothingWritten(Now());
      }
      bytesWritten := bytesWritten + |data|;
      return true;
    }

    /** pb_write without data, on a sizing stream. */
    method Count(size: nat)
      requires sizing
      modifies this
      ensures Now() == old(Now()).(bytesWritten := old(bytesWritten) + size)
    {
      bytesWritten := bytesWritten + size;
    }

    /** pb_encode_varint */
    method EncodeVarint(value: nat) returns (ok: bool)
      requires Valid() && value < TWO64
      modifies this, buf
      ensures Emitted(old(Now()), Now(), Some(VarintBytes(value)), ok)
    {
      hide Emitted;
      if value <= 0x7F {
        ok := Write([value]);
        return;
      }
      var groups := VarintGroups(value);
      ok := Write(groups);
    }

    /** The loop of pb_encode_varint, which fills a buffer of ten bytes and uses the part that it filled. */
    static method VarintGroups(value: nat) returns (groups: bytes)
      requires 0x7F < value < TWO64
      ensures groups == VarintBytes(value)
    {
      hide BitAnd, BitOr, Shr;
      var buffer := new byte[10];
      var v, i := value, 0;
      VarintLength64(value);
      while v != 0
        invariant 0 <= i <= 10
        invariant if v != 0 then VarintBytes(value) == buffer[..i] + VarintBytes(v)
                  else i > 0 && buffer[i - 1] >= 128 && VarintBytes(value) == buffer[..i - 1] + [buffer[i - 1] - 128]
        invariant v == value ==> i == 0
        decreases v
      {
        LowSeven(v);
        Marked(v % 128);
        Shift7(v);
        ghost var before := buffer[..i];
        buffer[i] := BitOr(BitAnd(v, 0x7F), 0x80);
        assert buffer[..i + 1] == before + [buffer[i]];
        if v >= 128 {
          Assoc(before, [buffer[i]], VarintBytes(v / 128));
        }
        v := Shr(v, 7);
        i := i + 1;
      }
      LowSeven(buffer[i - 1]);
      buffer[i - 1] := BitAnd(buffer[i - 1], 0x7F);
      assert buffer[..i] == buffer[..i - 1] + [buffer[i - 1]];
      groups := buffer[..i];
    }

    /** pb_encode_svarint */
    method EncodeSVarint(value: int) returns (ok: bool)
      requires Valid() && -0x8000_0000_0000_0000 <= value < 0x8000_0000_0000_0000
      modifies this, buf
      ensures Emitted(old(Now()), Now(), Some(VarintBytes(ZigZag(value))), ok)
    {
      var shifted := (value * 2) % TWO64;
      var zigzagged := if value < 0 then TWO64 - 1 - shifted else shifted;
      Doubled(value);
      ok := EncodeVarint(zigzagged);
    }

    /** pb_encode_fixed32 and pb_encode_fixed64: k bytes, low byte first. */
    method EncodeFixed(value: nat, k: nat) returns (ok: bool)
      requires Valid()
      modifies this, buf
      ensures Emitted(old(Now()), Now(), Some(LEBytes(value, k)), ok)
    {
      var b := new byte[k];
      var i, v := 0, value;
      while i < k
        invariant i <= k && Now() == old(Now()) && Valid()
        invariant LEBytes(value, k) == b[..i] + LEBytes(v, k - i)
      {
        LowEight(v);
        ghost var before := b[..i];
        b[i] := BitAnd(v, 0xFF);
        assert b[..i + 1] == before + [b[i]];
        Assoc(before, [b[i]], LEBytes(v / 256, k - i - 1));
        v := Shr(v, 8);
        i := i + 1;
      }
      assert b[..i] == b[..];
      AppendNil(b[..]);
      ok := Write(b[..]);
    }

    /** pb_encode_tag */
    method EncodeTag(wt: nat, tag: nat) returns (ok: bool)
      requires Valid() && wt < 8 && tag < TWO32
      modifies this, buf
      ensures Emitted(old(Now()), Now(), Some(TagBytes(tag, wt)), ok)
    {
      KeyOf(tag, wt);
      ok := EncodeVarint(BitOr(Shl(tag, 3), wt));
    }

    /** pb_encode_string */
    method EncodeString(data: bytes) returns (ok: bool)
      requires Valid()
      modifies this, buf
      ensures Emitted(old(Now()), Now(), Some(LengthPrefixed(data)), ok)
    {
      ghost var a := Now();
      ok := EncodeVarint(|data| % TWO64);
      ghost var b := Now();
      if |data| < TWO64 {
        if !ok {
          Cut(a, b, Some(VarintBytes(|data|)), Some(data));
          return;
        }
        ok := Write(data);
        Then(a, b, Now(), Some(VarintBytes(|data|)), Some(data), ok);
      } else if ok {
        ok := Write(data);
        WithinTrans(a, b, Now());
      }
    }
  }

  /** `(v & 0x7F) | 0x80` */
  lemma {:induction false} Marked(g: nat)
    requires g < 128
    ensures BitOr(g, 0x80) == g + 128
  {
    Pow2Values();
    OrDisjoint(g, 1, 7);
  }

  lemma {:induction false} Shift7(v: nat)
    ensures Shr(v, 7) == v / 128
  {
    assert Shr(v, 7) == Shr(v / 2, 6) == Shr(v / 4, 5);
    assert Shr(v / 4, 5) == Shr(v / 8, 4) == Shr(v / 16, 3);
    assert Shr(v / 16, 3) == Shr(v / 32, 2) == Shr(v / 64, 1);
    assert Shr(v / 64, 1) == Shr(v / 128, 0);
  }

  lemma {:induction false} LowEight(v: nat)
    ensures BitAnd(v, 0xFF) == v % 256 && Shr(v, 8) == v / 256
  {
    Pow2Values();
    AndMask(v, 8);
    Shift7(v / 2);
    assert Shr(v, 8) == Shr(v / 2, 7);
    assert (v / 2) / 128 == v / 256;
  }

  lemma {:induction false} Doubled(value: int)
    requires -0x8000_0000_0000_0000 <= value < 0x8000_0000_0000_0000
    ensures (value * 2) % TWO64 == if value < 0 then value * 2 + TWO64 else value * 2
  {
  }

  /** `(field_number << 3) | wiretype` */
  lemma {:induction false} KeyOf(tag: nat, wt: nat)
    requires wt < 8
    ensures BitOr(Shl(tag, 3), wt) == tag * 8 + wt
  {
    Pow2Values();
    OrDisjoint(wt, tag, 3);
    OrSym(Shl(tag, 3), wt);
  }

  lemma {:induction false} OrSym(a: nat, b: nat)
    ensures BitOr(a, b) == BitOr(b, a)
  {
    if a != 0 && b != 0 {
      OrSym(a / 2, b / 2);
    }
  }
}
