/** Memory input streams: pb_istream_t and the readers of wire-level items. */
module InputStream {
  import opened Bits
  import opened Varint
  import opened WireDecode
  import opened WireEncode

  class IStream {
    const buf: bytes
    var state: nat
    var bytesLeft: nat

    ghost predicate Valid()
      reads this
    {
      state + bytesLeft <= |buf|
    }

    /** The bytes that can still be read. */
    ghost function Rest(): bytes
      reads this
      requires Valid()
    {
      buf[state..state + bytesLeft]
    }

    /** Where the stream ends. No reader moves it. */
    ghost function End(): nat
      reads this
    {
      state + bytesLeft
    }

    /** pb_istream_from_buffer */
    constructor (buf: bytes)
      ensures Valid() && this.buf == buf && Rest() == buf && End() == |buf|
    {
      this.buf := buf;
      state, bytesLeft := 0, |buf|;
    }

    /** The copy of a stream from which a substream is made. */
    constructor Copy(other: IStream)
      ensures buf == other.buf && state == other.state && bytesLeft == other.bytesLeft
    {
      buf := other.buf;
      state, bytesLeft := other.state, other.bytesLeft;
    }

    /** pb_read with a destination. */
    method Read(dest: array<byte>, count: nat) returns (ok: bool)
      requires Valid() && count <= dest.Length
      modifies this, dest
      ensures Valid() && End() == old(End())
      ensures ok == Take(count, old(Rest())).Parsed?
      ensures ok ==> dest[..count] == Take(count, old(Rest())).value && Rest() == Take(count, old(Rest())).rest
      ensures !ok ==> state == old(state)
      ensures dest[count..] == old(dest[count..])
    {
      if count == 0 {
        return true;
      }
      if bytesLeft < count {
        return false;
      }
      BufRead(dest, count);
      bytesLeft := bytesLeft - count;
      return true;
    }

    /** buf_read */
    method BufRead(dest: array<byte>, count: nat)
      requires state + count <= |buf| && count <= dest.Length
      modifies this`state, dest
      ensures state == old(state) + count
      ensures dest[..count] == buf[old(state)..old(state) + count]
      ensures dest[count..] == old(dest[count..])
    {
      var source := state;
      state := state + count;
      var i := 0;
      while i < count
        invariant i <= count
        invariant dest[..i] == buf[source..source + i]
        invariant dest[count..] == old(dest[count..])
        invariant state == source + count
      {
        dest[i] := buf[source + i];
        i := i + 1;
      }
    }

    /** pb_read without a destination: the bytes are skipped. */
    method Discard(count: nat) returns (ok: bool)
      requires Valid()
      modifies this
      ensures Valid() && End() == old(End())
      ensures ok == Take(count, old(Rest())).Parsed?
      ensures ok ==> Rest() == Take(count, old(Rest())).rest
      ensures !ok ==> state == old(state)
    {
      if count == 0 {
        return true;
      }
      if bytesLeft < count {
        return false;
      }
      state := state + count;
      bytesLeft := bytesLeft - count;
      return true;
    }

    /** pb_readbyte */
    method ReadByte() returns (ok: bool, b: byte)
      requires Valid()
      modifies this
      ensures Valid() && End() == old(End())
      ensures ok == (old(Rest()) != [])
      ensures ok ==> old(Rest()) == [b] + Rest()
      ensures !ok ==> state == old(state)
    {
      if bytesLeft == 0 {
        return false, 0;
      }
      b := buf[state];
      state := state + 1;
      bytesLeft := bytesLeft - 1;
      return true, b;
    }

    /** pb_decode_varint32_eof */
    method DecodeVarint32Eof() returns (ok: bool, value: nat, eof: bool)
      requires Valid()
      modifies this
      ensures Valid() && End() == old(End())
      ensures ok == Dec32(old(Rest())).Parsed?
      ensures ok ==> value == Dec32(old(Rest())).value && Rest() == Dec32(old(Rest())).rest
      ensures eof == (old(Rest()) == [])
    {
      hide Dec32From, BitAnd;
      value, eof := 0, false;
      ghost var input := Rest();
      var more, b := ReadByte();
      if !more {
        return false, 0, true;
      }
      LowSeven(b);
      ContinuationBit(b);
      Dec32Cons(b, Rest());
      if BitAnd(b, 0x80) == 0 {
        return true, b, false;
      }
      var bitpos: nat := 7;
      var result: nat := BitAnd(b, 0x7F);
      var again := true;
      while again
        invariant Valid() && End() == old(End()) && result < TWO32
        invariant again ==> Dec32(input) == Dec32From(Rest(), bitpos, result)
        invariant !again ==> Dec32(input) == if bitpos == 35 && BitAnd(b, 0x70) != 0 then Bad
            else Parsed(result, Rest())
        decreases bytesLeft, again
      {
        more, b := ReadByte();
        if !more {
          return false, 0, false;
        }
        LowSeven(b);
        ContinuationBit(b);
        UpperBits(b);
        Dec32FromCons(b, Rest(), bitpos, result);
        if bitpos >= 32 {
          var signExtension := if bitpos < 63 then 0xFF else 0x01;
          if BitAnd(b, 0x7F) != 0 && (result < 0x8000_0000 || b != signExtension) {
            return false, 0, false;
          }
        } else {
          result := Merged32(result, BitAnd(b, 0x7F), bitpos);
        }
        bitpos := (bitpos + 7) % 256;
        again := BitAnd(b, 0x80) != 0;
      }
      if bitpos == 35 && BitAnd(b, 0x70) != 0 {
        return false, 0, false;
      }
      return true, result, false;
    }

    /** pb_decode_varint32 */
    method DecodeVarint32() returns (ok: bool, value: nat)
      requires Valid()
      modifies this
      ensures Valid() && End() == old(End())
      ensures ok == Dec32(old(Rest())).Parsed?
      ensures ok ==> value == Dec32(old(Rest())).value && Rest() == Dec32(old(Rest())).rest
    {
      var eof;
      ok, value, eof := DecodeVarint32Eof();
    }

    /** pb_decode_varint */
    method DecodeVarint() returns (ok: bool, value: nat)
      requires Valid()
      modifies this
      ensures Valid() && End() == old(End())
      ensures ok == Dec64(old(Rest())).Parsed?
      ensures ok ==> value == Dec64(old(Rest())).value && Rest() == Dec64(old(Rest())).rest
    {
      hide Terminator, Dec64;
      var bitpos: nat, result: nat := 0, 0;
      ghost var input, done: bytes := Rest(), [];
      var again := true;
      while again
        invariant Valid() && End() == old(End()) && input == done + Rest()
        invariant bitpos == 7 * |done| && |done| <= 10
        invariant result == RawValue(done) % TWO64
        invariant again ==> forall i | 0 <= i < |done| :: done[i] >= 128
        invariant !again ==> Terminated(done)
        decreases 10 - |done|, again
      {
        if bitpos >= 64 {
          TooLong(done, Rest());
          return false, 0;
        }
        var more, b := ReadByte();
        if !more {
          NotTerminated(done);
          AppendNil(done);
          return false, 0;
        }
        LowSeven(b);
        ContinuationBit(b);
        Accumulate64(done, b);
        result := BitOr(result, Shl(BitAnd(b, 0x7F), bitpos) % TWO64);
        Assoc(done, [b], Rest());
        done := done + [b];
        bitpos := bitpos + 7;
        again := BitAnd(b, 0x80) != 0;
      }
      Dec64Exact(done, Rest());
      return true, result;
    }

    /** pb_skip_varint */
    method SkipVarint() returns (ok: bool)
      requires Valid()
      modifies this
      ensures Valid() && End() == old(End())
      ensures ok == WireDecode.SkipVarint(old(Rest())).Parsed?
      ensures ok ==> Rest() == WireDecode.SkipVarint(old(Rest())).rest
    {
      hide Terminator;
      ghost var input, done: bytes := Rest(), [];
      var again := true;
      while again
        invariant Valid() && End() == old(End()) && input == done + Rest()
        invariant again ==> forall i | 0 <= i < |done| :: done[i] >= 128
        invariant !again ==> Terminated(done)
        decreases bytesLeft, again
      {
        var more, b := ReadByte();
        if !more {
          NotTerminated(done);
          AppendNil(done);
          return false;
        }
        ContinuationBit(b);
        Assoc(done, [b], Rest());
        done := done + [b];
        again := BitAnd(b, 0x80) != 0;
      }
      TerminatedHead(done, Rest());
      assert (done + Rest())[|done|..] == Rest();
      return true;
    }

    /** pb_skip_string */
    method SkipString() returns (ok: bool)
      requires Valid()
      modifies this
      ensures Valid() && End() == old(End())
      ensures ok == TakeString(old(Rest())).Parsed?
      ensures ok ==> Rest() == TakeString(old(Rest())).rest
    {
      var length;
      ok, length := DecodeVarint32();
      if ok {
        ok := Discard(length);
      }
    }

    /** pb_skip_field */
    method SkipField(wt: nat) returns (ok: bool)
      requires Valid()
      modifies this
      ensures Valid() && End() == old(End())
      ensures ok == Skip(wt, old(Rest())).Parsed?
      ensures ok ==> Rest() == Skip(wt, old(Rest())).rest
    {
      if wt == WT_VARINT {
        ok := SkipVarint();
      } else if wt == WT_64BIT {
        ok := Discard(8);
      } else if wt == WT_STRING {
        ok := SkipString();
      } else if wt == WT_32BIT {
        ok := Discard(4);
      } else {
        ok := false;
      }
    }

    /** pb_decode_tag; eof is set at the end of the bytes and at a zero key. */
    method DecodeTag() returns (ok: bool, wt: nat, tag: nat, eof: bool)
      requires Valid()
      modifies this
      ensures Valid() && End() == old(End())
      ensures ok ==> var p := Dec32(old(Rest())); p.Parsed? && p.value != 0 && tag == p.value / 8 && wt == p.value % 8
      ensures !ok && eof ==> old(Rest()) == [] || (Dec32(old(Rest())).Parsed? && Dec32(old(Rest())).value == 0)
      ensures !ok && !eof ==> Dec32(old(Rest())).Bad?
      ensures Dec32(old(Rest())).Parsed? ==> Rest() == Dec32(old(Rest())).rest
    {
      var key;
      ok, key, eof := DecodeVarint32Eof();
      if !ok {
        return false, 0, 0, eof;
      }
      if key == 0 {
        return false, 0, 0, true;
      }
      KeyParts(key);
      return true, BitAnd(key, 7), Shr(key, 3), false;
    }

    /**
     pb_make_string_substream. While the substream is open, the parent stands behind the length
     prefix and its bytesLeft is what remains after the payload.
     */
    method MakeSubstream() returns (ok: bool, sub: IStream)
      requires Valid()
      modifies this
      ensures fresh(sub) && Valid() && sub.buf == buf && End() <= old(End())
      ensures ok == TakeString(old(Rest())).Parsed?
      ensures ok ==> sub.Valid() && sub.Rest() == TakeString(old(Rest())).value
      ensures ok ==> sub.End() + bytesLeft == old(End()) && bytesLeft == |TakeString(old(Rest())).rest|
      ensures ok ==> buf[sub.End()..sub.End() + bytesLeft] == TakeString(old(Rest())).rest
      ensures !ok ==> End() == old(End())
    {
      var size;
      ok, size := DecodeVarint32();
      sub := new IStream.Copy(this);
      if !ok {
        return;
      }
      if sub.bytesLeft < size {
        ok := false;
        return;
      }
      sub.bytesLeft := size;
      bytesLeft := bytesLeft - size;
    }

    /** pb_close_string_substream: skips what was not read and moves the parent behind the payload. */
    method CloseSubstream(sub: IStream) returns (ok: bool)
      requires sub != this && sub.Valid() && sub.buf == buf && sub.End() + bytesLeft <= |buf|
      modifies this, sub
      ensures ok && Valid() && state == old(sub.End()) && bytesLeft == old(bytesLeft)
    {
      if sub.bytesLeft != 0 {
        ok := sub.Discard(sub.bytesLeft);
        if !ok {
          return;
        }
      }
      state := sub.state;
      ok := true;
    }
  }

  lemma {:induction false} Dec32FromCons(b: byte, t: bytes, bitpos: nat, result: nat)
    requires result < TWO32
    ensures Dec32From([b] + t, bitpos, result) ==
            if bitpos >= 32 && b % 128 != 0 && (result < 0x8000_0000 || b != SignExtension(bitpos)) then Bad
            else
              var r := if bitpos >= 32 then result else Merged32(result, b % 128, bitpos);
              if b >= 128 then Dec32From(t, (bitpos + 7) % 256, r)
              else if (bitpos + 7) % 256 == 35 && b >= 16 then Bad
              else Parsed(r, t)
  {
  }

  lemma {:induction false} KeyParts(key: nat)
    ensures BitAnd(key, 7) == key % 8 && Shr(key, 3) == key / 8
  {
    Pow2Values();
    AndMask(key, 3);
    assert Shr(key, 3) == Shr(key / 2, 2) == Shr(key / 4, 1) == Shr(key / 8, 0);
  }

  lemma {:induction false} NotTerminated(s: bytes)
    requires forall i | 0 <= i < |s| :: s[i] >= 128
    ensures Terminator(s) == |s| && Dec64(s) == Bad
  {
  }

  /** Ten continued bytes are too many for the 64-bit decoder. */
  lemma {:induction false} TooLong(s: bytes, t: bytes)
    requires |s| == 10 && forall i | 0 <= i < |s| :: s[i] >= 128
    ensures Dec64(s + t) == Bad
  {
  }

  /** The OR of one more group into the 64-bit accumulator. */
  lemma {:induction false} Accumulate64(p: bytes, b: byte)
    requires |p| <= 9
    ensures BitOr(RawValue(p) % TWO64, Shl(b % 128, 7 * |p|) % TWO64) == RawValue(p + [b]) % TWO64
  {
    var k := 7 * |p|;
    RawSnoc(p, b);
    RawBound(p);
    Pow2Values();
    Pow2Add(k, 64 - k);
    var q, r := Pow2(k), Pow2(64 - k);
    MulAtLeast(q, r);
    ShiftedSum(0, b % 128, q, r);
    OrDisjoint(RawValue(p), (b % 128) % r, k);
    ShiftedSum(RawValue(p), b % 128, q, r);
    Mod64(RawValue(p));
  }

  lemma {:induction false} Mod64(v: nat)
    ensures v < TWO64 ==> v % TWO64 == v
  {
  }
}
