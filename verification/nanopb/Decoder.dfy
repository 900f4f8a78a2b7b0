/**
 The decoder of pb_decode.c over a memory stream, with its loops and its state, proved against
 the functions of WireDecode.
 */
module Decoder {
  import opened Bits
  import opened Descriptor
  import opened FieldIterator
  import opened InputStream
  import opened RequiredBitmap
  import opened Varint
  import opened WireDecode
  import opened WireEncode
  import opened Wrappers

  /** The outcome of a read is the one p describes. */
  ghost predicate Reads<T>(p: Parse<T>, ok: bool, v: T, rest: bytes) {
    ok == p.Parsed? && (ok ==> p == Parsed(v, rest))
  }

  // ----- field decoders

  /** pb_dec_bool */
  method DecBool(stream: IStream, f: Field) returns (ok: bool, v: Value)
    requires stream.Valid() && f.ltype.Bool?
    modifies stream
    ensures stream.Valid() && stream.End() == old(stream.End())
    ensures Reads(DecScalar(f, old(stream.Rest())), ok, v, stream.Rest())
  {
    var value;
    ok, value := stream.DecodeVarint32();
    v := Num(if value != 0 then 1 else 0);
  }

  /** pb_dec_varint */
  method DecVarint(stream: IStream, f: Field) returns (ok: bool, v: Value)
    requires stream.Valid() && f.ltype.Varint?
    modifies stream
    ensures stream.Valid() && stream.End() == old(stream.End())
    ensures Reads(DecScalar(f, old(stream.Rest())), ok, v, stream.Rest())
  {
    hide Dec64, CastSigned;
    v := Num(0);
    var value;
    ok, value := stream.DecodeVarint();
    if !ok {
      return;
    }
    var svalue := if f.dataSize == 8 then CastSigned(value, 8) else CastSigned(value, 4);
    if !IsIntSize(f.dataSize) {
      return false, v;
    }
    var clamped := CastSigned(svalue, f.dataSize);
    ok := clamped == svalue;
    v := Num(clamped);
  }

  /** pb_dec_uvarint */
  method DecUVarint(stream: IStream, f: Field) returns (ok: bool, v: Value)
    requires stream.Valid() && f.ltype.UVarint?
    modifies stream
    ensures stream.Valid() && stream.End() == old(stream.End())
    ensures Reads(DecScalar(f, old(stream.Rest())), ok, v, stream.Rest())
  {
    hide Dec64;
    v := Num(0);
    var value;
    ok, value := stream.DecodeVarint();
    if !ok {
      return;
    }
    if !IsIntSize(f.dataSize) {
      return false, v;
    }
    var clamped := value % Width(f.dataSize);
    ok := clamped == value;
    v := Num(clamped);
  }

  /** pb_decode_svarint's reading of a zigzag value. */
  method UnZigZagged(value: nat) returns (n: int)
    requires value < TWO64
    ensures n == UnZigZag(value)
  {
    hide BitAnd, Shr, Pow2;
    LowBit(value);
    if BitAnd(value, 1) != 0 {
      n := CastSigned(TWO64 - 1 - Shr(value, 1), 8);
    } else {
      n := CastSigned(Shr(value, 1), 8);
    }
  }

  /** pb_dec_svarint */
  method DecSVarint(stream: IStream, f: Field) returns (ok: bool, v: Value)
    requires stream.Valid() && f.ltype.SVarint?
    modifies stream
    ensures stream.Valid() && stream.End() == old(stream.End())
    ensures Reads(DecScalar(f, old(stream.Rest())), ok, v, stream.Rest())
  {
    hide Dec64, CastSigned;
    v := Num(0);
    var value;
    ok, value := stream.DecodeVarint();
    if !ok {
      return;
    }
    var n := UnZigZagged(value);
    if !IsIntSize(f.dataSize) {
      return false, v;
    }
    var clamped := CastSigned(n, f.dataSize);
    ok := clamped == n;
    v := Num(clamped);
  }

  /** The OR of one more byte into a little-endian word. */
  lemma {:induction false} OrByte(acc: nat, b: byte, k: nat)
    requires acc < Pow2(k)
    ensures BitOr(acc, Shl(b, k)) == acc + b * Pow2(k) < Pow2(k + 8)
  {
    OrDisjoint(acc, b, k);
    Pow2Values();
    Pow2Add(k, 8);
    MulAtMost(b, 255, Pow2(k));
  }

  lemma {:induction false} MulAtMost(a: nat, b: nat, p: nat)
    requires a <= b
    ensures a * p <= b * p
  {
  }

  lemma {:induction false} LESnoc(s: bytes, b: byte)
    ensures LEValue(s + [b]) == LEValue(s) + b * Pow2(8 * |s|)
  {
    if s == [] {
      assert (s + [b])[1..] == [];
    } else {
      LESnoc(s[1..], b);
      assert (s + [b])[1..] == s[1..] + [b];
      var p := Pow2(8 * (|s| - 1));
      Pow2Values();
      Pow2Add(8, 8 * (|s| - 1));
      assert 8 * |s| == 8 + 8 * (|s| - 1);
      assert 256 * (b * p) == b * (256 * p);
    }
  }

  /** The shifts and ORs of pb_decode_fixed32 and pb_decode_fixed64, byte by byte. */
  method Assemble(b: array<byte>) returns (word: nat)
    ensures word == LEValue(b[..])
  {
    word := 0;
    var i := 0;
    while i < b.Length
      invariant i <= b.Length && word == LEValue(b[..i]) < Pow2(8 * i)
    {
      OrByte(word, b[i], 8 * i);
      LESnoc(b[..i], b[i]);
      assert b[..i + 1] == b[..i] + [b[i]];
      assert 8 * (i + 1) == 8 * i + 8;
      word := BitOr(word, Shl(b[i], 8 * i));
      i := i + 1;
    }
    assert b[..i] == b[..];
  }

  /** pb_dec_fixed32 and pb_dec_fixed64 */
  method DecFixed(stream: IStream, f: Field) returns (ok: bool, v: Value)
    requires stream.Valid() && (f.ltype.Fixed32? || f.ltype.Fixed64?)
    modifies stream
    ensures stream.Valid() && stream.End() == old(stream.End())
    ensures Reads(DecScalar(f, old(stream.Rest())), ok, v, stream.Rest())
  {
    var n := if f.ltype.Fixed32? then 4 else 8;
    var b := new byte[n];
    ok := stream.Read(b, n);
    assert b[..n] == b[..];
    var word := Assemble(b);
    v := Num(word);
  }

  /** pb_dec_bytes */
  method DecBytesField(stream: IStream, f: Field) returns (ok: bool, v: Value)
    requires stream.Valid() && f.ltype.Bytes?
    modifies stream
    ensures stream.Valid() && stream.End() == old(stream.End())
    ensures Reads(DecScalar(f, old(stream.Rest())), ok, v, stream.Rest())
  {
    hide Dec32;
    v := Blob([]);
    var size;
    ok, size := stream.DecodeVarint32();
    if !ok {
      return;
    }
    if size > PB_SIZE_MAX {
      return false, v;
    }
    var allocSize := size + BYTES_OFFSET;
    if allocSize > f.dataSize {
      return false, v;
    }
    var dest := new byte[size];
    ok := stream.Read(dest, size);
    assert dest[..size] == dest[..];
    v := Blob(dest[..]);
  }

  /** pb_dec_string */
  method DecStringField(stream: IStream, f: Field) returns (ok: bool, v: Value)
    requires stream.Valid() && f.ltype.String?
    modifies stream
    ensures stream.Valid() && stream.End() == old(stream.End())
    ensures Reads(DecScalar(f, old(stream.Rest())), ok, v, stream.Rest())
  {
    hide Dec32;
    v := Text([0]);
    var size;
    ok, size := stream.DecodeVarint32();
    if !ok {
      return;
    }
    var allocSize := (size + 1) % TWO32;
    if allocSize < size {
      return false, v;
    }
    if allocSize > f.dataSize {
      return false, v;
    }
    assert allocSize == size + 1;
    var dest := new byte[size + 1];
    ok := stream.Read(dest, size);
    dest[size] := 0;
    assert dest[..] == dest[..size] + [0];
    v := Text(dest[..]);
  }

  /** pb_dec_fixed_length_bytes */
  method DecFixedLengthField(stream: IStream, f: Field) returns (ok: bool, v: Value)
    requires stream.Valid() && f.ltype.FixedLengthBytes?
    modifies stream
    ensures stream.Valid() && stream.End() == old(stream.End())
    ensures Reads(DecScalar(f, old(stream.Rest())), ok, v, stream.Rest())
  {
    hide Dec32;
    v := Blob([]);
    var size;
    ok, size := stream.DecodeVarint32();
    if !ok {
      return;
    }
    if size > PB_SIZE_MAX {
      return false, v;
    }
    if size == 0 {
      return true, Blob(Zeros(f.dataSize));
    }
    if size != f.dataSize {
      return false, v;
    }
    var dest := new byte[size];
    ok := stream.Read(dest, f.dataSize);
    assert dest[..size] == dest[..];
    v := Blob(dest[..]);
  }

  /** The decoder table, without the submessage entry. */
  method DecScalarField(stream: IStream, f: Field) returns (ok: bool, v: Value)
    requires stream.Valid() && !f.ltype.Submessage?
    modifies stream
    ensures stream.Valid() && stream.End() == old(stream.End())
    ensures Reads(DecScalar(f, old(stream.Rest())), ok, v, stream.Rest())
  {
    hide DecScalar;
    match f.ltype
    case Bool => ok, v := DecBool(stream, f);
    case Varint => ok, v := DecVarint(stream, f);
    case UVarint => ok, v := DecUVarint(stream, f);
    case SVarint => ok, v := DecSVarint(stream, f);
    case Fixed32 => ok, v := DecFixed(stream, f);
    case Fixed64 => ok, v := DecFixed(stream, f);
    case Bytes => ok, v := DecBytesField(stream, f);
    case String => ok, v := DecStringField(stream, f);
    case FixedLengthBytes => ok, v := DecFixedLengthField(stream, f);
  }

  // ----- defaults

  /** The descriptor, and every descriptor below it, was generated from a struct. */
  ghost predicate Generated(fields: seq<Field>)
    decreases fields
  {
    && (exists off: seq<int> :: LaidOut(fields, off))
    && forall i | 0 <= i < |fields| :: GeneratedField(fields[i])
  }

  ghost predicate GeneratedField(f: Field)
    decreases f
  {
    f.tag <= PB_SIZE_MAX && (f.ptr.Fields? ==> Generated(f.ptr.fields))
  }

  method NewIter(fields: seq<Field>) returns (iter: FieldIter)
    requires Generated(fields)
    ensures fresh(iter) && iter.fields == fields && iter.Exact() && iter.pos == 0
  {
    ghost var off: seq<int> :| LaidOut(fields, off);
    iter := new FieldIter(fields, 0, off);
  }

  /** pb_field_set_to_default, for one field's storage cell. */
  method FieldToDefault(f: Field) returns (s: Slot)
    requires WellFormedField(f) && GeneratedField(f)
    ensures s == DefaultSlot(f)
    decreases f, 0
  {
    if f.htype.Repeated? {
      return Rep([]);
    }
    if f.htype.Oneof? {
      return NO_MEMBER;
    }
    var v;
    if f.ltype.Submessage? {
      var m := SetToDefaults(f.ptr.fields);
      v := Nested(m);
    } else if f.ptr.Default? {
      v := f.ptr.v;
    } else {
      v := ZeroValue(f);
    }
    s := if f.htype.Optional? && f.sizeOffset != 0 then Opt(false, v) else Single(v);
  }

  /** The cells below i are set, the others are as they were. */
  ghost predicate DefaultedUpTo(fields: seq<Field>, slots: seq<Slot>, i: nat) {
    && |slots| == |fields| && i <= |fields|
    && forall j | 0 <= j < |fields| :: slots[j] == if j < i then Defaults(fields).slots[j] else Void
  }

  lemma {:induction false} DefaultOne(fields: seq<Field>, slots: seq<Slot>, i: nat)
    requires i < |fields| && DefaultedUpTo(fields, slots, i)
    ensures DefaultedUpTo(fields, slots[Home(fields, i) := DefaultSlot(fields[i])], i + 1)
  {
    HomeFacts(fields, i);
    var h := Home(fields, i);
    assert Defaults(fields).slots[h] == DefaultSlot(fields[h]);
    assert h < i ==> fields[h].htype.Oneof? && fields[i].htype.Oneof?;
  }

  /** pb_message_set_to_defaults */
  method SetToDefaults(fields: seq<Field>) returns (m: Msg)
    requires WellFormed(fields) && Generated(fields)
    ensures m == Defaults(fields)
    decreases fields
  {
    var slots: seq<Slot> := seq(|fields|, _ => Void);
    var iter := NewIter(fields);
    var more := |fields| > 0;
    ghost var count := 0;
    while more
      invariant iter.Valid() && iter.fields == fields && fresh(iter)
      invariant if more then count == iter.pos < |fields| else count == |fields|
      invariant DefaultedUpTo(fields, slots, count)
      decreases |fields| - count, more
    {
      var i := iter.pos;
      var s := FieldToDefault(fields[i]);
      DefaultOne(fields, slots, i);
      slots := slots[Home(fields, i) := s];
      count := i + 1;
      more := iter.Next();
    }
    assert slots == Defaults(fields).slots;
    m := Msg(slots);
  }

  // ----- one record

  function WithoutRest(p: Parse<Msg>): Option<Msg> {
    match p
    case Bad => None
    case Parsed(m, _) => Some(m)
  }

  /** pb_dec_submessage */
  method DecSubmessage(stream: IStream, f: Field, prior: Value) returns (ok: bool, v: Value)
    requires stream.Valid() && f.ltype.Submessage?
    requires WellFormedField(f) && GeneratedField(f)
    modifies stream
    ensures stream.Valid() && stream.End() <= old(stream.End())
    ensures Reads(DecElem(f, old(stream.Rest()), prior), ok, v, stream.Rest())
    ensures ok ==> stream.End() == old(stream.End())
    ensures ok && !f.htype.Repeated? && prior.Nested? && |prior.m.slots| == |f.ptr.fields| ==>
              var p := TakeString(old(stream.Rest()));
              p.Parsed? && v.Nested? && WithoutRest(DecodeNoinit(f.ptr.fields, p.value, prior.m)) == Some(v.m)
    decreases f, 0
  {
    hide TakeString, DecodeNoinit;
    v := Num(0);
    var sub;
    ok, sub := stream.MakeSubstream();
    if !ok {
      return;
    }
    var m;
    if f.htype.Repeated? {
      ok, m := DecodeMessage(sub, f.ptr.fields);
    } else {
      ok, m := DecodeMerging(sub, f.ptr.fields, NestedOr(f.ptr.fields, prior));
    }
    var status := ok;
    ok := stream.CloseSubstream(sub);
    if !ok {
      return;
    }
    ok := status;
    v := Nested(m);
  }

  /** The decoder table. */
  method DecElemField(stream: IStream, f: Field, prior: Value) returns (ok: bool, v: Value)
    requires stream.Valid() && WellFormedField(f) && GeneratedField(f)
    modifies stream
    ensures stream.Valid() && stream.End() <= old(stream.End())
    ensures Reads(DecElem(f, old(stream.Rest()), prior), ok, v, stream.Rest())
    ensures ok ==> stream.End() == old(stream.End())
    decreases f, 1
  {
    hide DecScalar;
    if f.ltype.Submessage? {
      ok, v := DecSubmessage(stream, f, prior);
    } else {
      ok, v := DecScalarField(stream, f);
    }
  }

  /** The packed-array loop over an open substream. */
  method DecodePacked(sub: IStream, f: Field, items: seq<Value>, k: nat)
    returns (status: bool, items': seq<Value>, k': nat)
    requires sub.Valid() && Packable(f.ltype)
    modifies sub
    ensures sub.Valid() && sub.End() == old(sub.End())
    ensures var r := DecPacked(f, old(sub.Rest()), items, k);
            (status && sub.bytesLeft == 0) == r.Some? && (r.Some? ==> r == Some((items', k')))
  {
    hide DecScalar;
    ghost var input := sub.Rest();
    status, items', k' := true, items, k;
    while sub.bytesLeft > 0 && k' < f.arraySize && status
      invariant sub.Valid() && sub.End() == old(sub.End())
      invariant DecPacked(f, input, items, k) == if status then DecPacked(f, sub.Rest(), items', k') else None
      decreases if status then 1 + sub.bytesLeft else 0
    {
      var v;
      status, v := DecScalarField(sub, f);
      if status {
        items', k' := Put(items', k', v), k' + 1;
      }
    }
  }

  /** The packed branch of decode_static_field. */
  method DecodePackedField(stream: IStream, f: Field, slot: Slot, k: nat)
    returns (ok: bool, slot': Slot, k': nat)
    requires stream.Valid() && f.htype.Repeated? && Packable(f.ltype)
    modifies stream
    ensures stream.Valid() && stream.End() <= old(stream.End())
    ensures Reads(DecSlot(f, WT_STRING, old(stream.Rest()), slot, k), ok, (slot', k'), stream.Rest())
    ensures ok ==> stream.End() == old(stream.End())
  {
    hide TakeString, DecPacked;
    slot', k' := slot, k;
    var sub;
    ok, sub := stream.MakeSubstream();
    if !ok {
      return;
    }
    var status, items', count := DecodePacked(sub, f, ItemsOf(slot), k);
    if sub.bytesLeft != 0 {
      return false, slot, k;
    }
    ok := stream.CloseSubstream(sub);
    if !ok {
      return;
    }
    return status, Rep(items'), count;
  }

  /** The value a union member is decoded into: cleared and set to defaults if it was not the current member. */
  method PrepareMember(f: Field, slot: Slot) returns (prior: Value)
    requires WellFormedField(f) && GeneratedField(f)
    ensures prior == MemberBase(f, slot)
    decreases f, 1
  {
    if f.ltype.Submessage? && !(slot.Union? && slot.which == f.tag) {
      var m := SetToDefaults(f.ptr.fields);
      prior := Nested(m);
    } else {
      prior := ValueOf(slot);
    }
  }

  /** decode_static_field */
  method DecodeStaticField(stream: IStream, wt: nat, f: Field, slot: Slot, k: nat)
    returns (ok: bool, slot': Slot, k': nat)
    requires stream.Valid() && WellFormedField(f) && GeneratedField(f)
    modifies stream
    ensures stream.Valid() && stream.End() <= old(stream.End())
    ensures Reads(DecSlot(f, wt, old(stream.Rest()), slot, k), ok, (slot', k'), stream.Rest())
    ensures ok ==> stream.End() == old(stream.End())
    decreases f, 2
  {
    hide DecElem, TakeString, DecPacked, MemberBase;
    slot', k' := slot, k;
    var v;
    match f.htype
    case Required =>
      ok, v := DecElemField(stream, f, ValueOf(slot));
      slot' := Single(v);
    case Optional =>
      ok, v := DecElemField(stream, f, ValueOf(slot));
      slot' := if f.sizeOffset != 0 then Opt(true, v) else Single(v);
    case Repeated =>
      if wt == WT_STRING && Packable(f.ltype) {
        ok, slot', k' := DecodePackedField(stream, f, slot, k);
      } else {
        if k >= f.arraySize {
          return false, slot, k;
        }
        ok, v := DecElemField(stream, f, Num(0));
        slot', k' := Rep(Put(ItemsOf(slot), k, v)), k + 1;
      }
    case Oneof =>
      var prior := PrepareMember(f, slot);
      ok, v := DecElemField(stream, f, prior);
      slot' := Union(f.tag, v);
  }

  // ----- the field loop

  /** The variables of pb_decode_noinit. */
  class FieldLoop {
    const fields: seq<Field>
    const iter: FieldIter
    const fieldsSeen: array<nat>
    var msg: Msg
    var fixedField: Option<nat>
    var fixedCount: nat
    /** The required fields noted in fieldsSeen, and those beyond its reach. */
    ghost var noted: set<nat>

    ghost function State(): DState
      reads this
    {
      DState(msg, noted, fixedField, fixedCount)
    }

    ghost predicate Valid()
      reads this, iter, fieldsSeen
    {
      && WellFormed(fields) && Generated(fields)
      && iter.fields == fields && iter.Valid() && fieldsSeen.Length == 2
      && Represents(fields, noted, fieldsSeen[..])
      && StateOk(fields, State())
      && (iter.pSize == iter.ELSEWHERE && |fields| > 0 && FixedCount(fields[iter.pos]) ==> fixedField == Some(iter.pos))
    }

    constructor (fields: seq<Field>, m: Msg)
      requires WellFormed(fields) && Generated(fields) && |m.slots| == |fields|
      ensures Valid() && this.fields == fields && State() == Start(m)
      ensures fresh(iter) && fresh(fieldsSeen)
    {
      var it := NewIter(fields);
      var words := new nat[2];
      words[0], words[1] := 0, 0;
      this.fields := fields;
      iter := it;
      fieldsSeen := words;
      msg := m;
      fixedField := None;
      fixedCount := 0;
      noted := {};
      new;
      NothingNoted(fields);
      assert fieldsSeen[..] == [0, 0];
    }

    /** The bookkeeping for fixed-count fields when a record of the current field arrives. */
    method TrackFixed() returns (ok: bool)
      requires Valid() && |fields| > 0
      modifies this, iter
      ensures iter.pos == old(iter.pos) && msg == old(msg) && noted == old(noted)
      ensures ok == Track(fields, iter.pos, old(State())).Some?
      ensures ok ==> Valid() && State() == Track(fields, iter.pos, old(State())).value
      ensures ok && FixedCount(fields[iter.pos]) ==> iter.pSize == iter.ELSEWHERE
    {
      var i := iter.pos;
      if fields[i].htype.Repeated? && iter.pSize == iter.pData {
        if fixedField != Some(i) {
          if fixedField.Some? && fixedCount != fields[fixedField.value].arraySize {
            return false;
          }
          fixedField := Some(i);
          fixedCount := 0;
        }
        iter.pSize := iter.ELSEWHERE;
      }
      return true;
    }

    /** The bit of the current field is set, if it is required and the bitmap reaches it. */
    method NoteRequired()
      requires Valid() && |fields| > 0
      modifies this`noted, fieldsSeen
      ensures Valid()
      ensures noted == if fields[iter.pos].htype.Required? then old(noted) + {iter.pos} else old(noted)
    {
      var i, r := iter.pos, iter.requiredFieldIndex;
      if fields[i].htype.Required? {
        NoteField(fields, noted, fieldsSeen[..], i);
        noted := noted + {i};
        if r < PB_MAX_REQUIRED_FIELDS {
          BitmapIndex(r);
          var word := Shr(r, 5);
          ghost var before := fieldsSeen[..];
          fieldsSeen[word] := BitOr(fieldsSeen[word], Shl(1, BitAnd(r, 31)));
          assert fieldsSeen[..] == before[word := fieldsSeen[word]];
        }
      }
    }

    /** A record of the current field, after its tag. */
    method KnownField(stream: IStream, wt: nat) returns (ok: bool)
      requires Valid() && |fields| > 0 && stream.Valid()
      modifies this, iter, fieldsSeen, stream
      ensures stream.Valid() && stream.End() <= old(stream.End())
      ensures var r := DecField(fields, old(iter.pos), wt, old(stream.Rest()), old(State()));
              ok == r.Next? && (ok ==> Valid() && State() == r.st && stream.Rest() == r.rest)
      ensures ok ==> stream.End() == old(stream.End())
      decreases fields, 0
    {
      hide DecSlot;
      var i := iter.pos;
      ok := TrackFixed();
      if !ok {
        return;
      }
      NoteRequired();
      var slot := SlotOf(fields, msg, i);
      var redirected := FixedCount(fields[i]);
      var k := if redirected then fixedCount else |ItemsOf(slot)|;
      ok, slot, k := DecodeStaticField(stream, wt, fields[i], slot, k);
      if !ok {
        return;
      }
      msg := WithSlot(fields, msg, i, slot);
      if redirected {
        fixedCount := k;
      }
    }

    /** A record whose tag is not in the descriptor, or any record of an empty descriptor with tag 0. */
    method UnknownField(stream: IStream, tag: nat, wt: nat) returns (ok: bool)
      requires stream.Valid()
      modifies stream
      ensures stream.Valid() && stream.End() == old(stream.End())
      ensures var p := SkipUnknown(fields, tag, wt, old(stream.Rest()));
              ok == p.Parsed? && (ok ==> stream.Rest() == p.rest)
    {
      hide Skip, Dec32;
      if |fields| == 0 && tag == 0 {
        var value;
        ok, value := stream.DecodeVarint32();
      } else {
        ok := stream.SkipField(wt);
      }
    }

    /** One turn of the loop; stop is set when the message ends early. */
    method Turn(stream: IStream) returns (ok: bool, stop: bool)
      requires Valid() && stream.Valid() && stream.bytesLeft > 0
      modifies this, iter, fieldsSeen, stream
      ensures stream.Valid() && stream.End() <= old(stream.End())
      ensures match Step(fields, old(stream.Rest()), old(State()))
              case Fail => !ok
              case Halt(r) => ok && stop && State() == old(State()) && stream.Rest() == r
              case Next(st, r) => ok && !stop && State() == st && stream.Rest() == r
      ensures ok ==> Valid() && stream.End() == old(stream.End())
      decreases fields, 1
    {
      hide DecField, Dec32, SkipUnknown;
      var got, wt, tag, eof := stream.DecodeTag();
      if !got {
        return eof, eof;
      }
      var found := iter.Find(tag);
      if found && |fields| > 0 {
        ok := KnownField(stream, wt);
      } else {
        ok := UnknownField(stream, tag, wt);
      }
      stop := false;
    }

    /** The loop of pb_decode_noinit. */
    method Run(stream: IStream) returns (ok: bool)
      requires Valid() && stream.Valid()
      modifies this, iter, fieldsSeen, stream
      ensures stream.Valid() && stream.End() <= old(stream.End())
      ensures match DecLoop(fields, old(stream.Rest()), old(State()))
              case Failed => !ok
              case Ended(st, r, _) => ok && State() == st && stream.Rest() == r
      ensures ok ==> Valid() && stream.End() == old(stream.End())
      decreases fields, 2
    {
      hide Step;
      ghost var input, start := stream.Rest(), State();
      var stop := false;
      while stream.bytesLeft > 0 && !stop
        invariant Valid() && stream.Valid() && stream.End() == old(stream.End())
        invariant DecLoop(fields, input, start) ==
                  if stop then Ended(State(), stream.Rest(), true) else DecLoop(fields, stream.Rest(), State())
        decreases stream.bytesLeft, !stop
      {
        ok, stop := Turn(stream);
        if !ok {
          return;
        }
      }
      ok := true;
    }

    /** The number of required fields, found by running the iterator to the end of the descriptor. */
    method CountRequired() returns (count: nat)
      requires Valid()
      modifies iter
      ensures count == RequiredCount(fields)
    {
      if |fields| == 0 {
        var _ := iter.Next();
        assert RequiredBefore(fields, 0) == 0;
        return 0;
      }
      var last := Required;
      count := 0;
      var more := true;
      ghost var p := iter.pos;
      while more
        invariant iter.Valid() && p < |fields|
        invariant more ==> iter.pos == p
        invariant !more ==> count == RequiredBefore(fields, |fields| - 1) && last == fields[|fields| - 1].htype
        decreases |fields| - p, more
      {
        count := iter.requiredFieldIndex;
        last := fields[iter.pos].htype;
        more := iter.Next();
        p := if more then p + 1 else p;
      }
      assert RequiredCount(fields) == RequiredBefore(fields, |fields|);
      if last.Required? {
        count := count + 1;
      }
    }

    /** The comparisons of the bitmap with all-ones masks. */
    method CheckWords(count: nat) returns (ok: bool)
      requires fieldsSeen.Length == 2 && count <= PB_MAX_REQUIRED_FIELDS
      ensures ok == WordsComplete(fieldsSeen[..], count)
    {
      BitmapIndex(count);
      var allbits: nat := 0xFFFF_FFFF;
      Pow2Values();
      var k := 0;
      while k < Shr(count, 5)
        invariant k <= count / 32
        invariant forall j | 0 <= j < k :: fieldsSeen[j] == allbits
      {
        if fieldsSeen[k] != allbits {
          return false;
        }
        k := k + 1;
      }
      var rest := BitAnd(count, 31);
      if rest != 0 {
        ShiftedMask(rest);
        if fieldsSeen[Shr(count, 5)] != Shr(allbits, 32 - rest) {
          return false;
        }
      }
      return true;
    }

    /** The checks after the loop. */
    method Check() returns (ok: bool)
      requires Valid()
      modifies iter
      ensures ok == (FixedComplete(fields, State()) && RequiredSeen(fields, noted))
    {
      hide RequiredSeen, WordsComplete, RequiredCount;
      if fixedField.Some? && fixedCount != fields[fixedField.value].arraySize {
        return false;
      }
      var count := CountRequired();
      if count > PB_MAX_REQUIRED_FIELDS {
        count := PB_MAX_REQUIRED_FIELDS;
      }
      BitmapExact(fields, noted, fieldsSeen[..]);
      ok := CheckWords(count);
    }
  }

  /** allbits >> (32 - r) */
  lemma {:induction false} ShiftedMask(r: nat)
    requires 0 < r < 32
    ensures Shr(0xFFFF_FFFF, 32 - r) == Pow2(r) - 1
  {
    Pow2Values();
    ShiftMask(32, 32 - r);
  }

  lemma {:induction false} ShiftMask(n: nat, k: nat)
    requires k <= n
    ensures Shr(Pow2(n) - 1, k) == Pow2(n - k) - 1
  {
    if k > 0 {
      assert (Pow2(n) - 1) / 2 == Pow2(n - 1) - 1;
      ShiftMask(n - 1, k - 1);
    }
  }

  /** pb_decode_noinit */
  method DecodeMerging(stream: IStream, fields: seq<Field>, m: Msg) returns (ok: bool, r: Msg)
    requires stream.Valid() && WellFormed(fields) && Generated(fields) && |m.slots| == |fields|
    modifies stream
    ensures stream.Valid() && stream.End() <= old(stream.End())
    ensures Reads(DecodeNoinit(fields, old(stream.Rest()), m), ok, r, stream.Rest())
    ensures ok ==> stream.End() == old(stream.End())
    decreases fields, 3
  {
    hide DecLoop, RequiredSeen;
    var loop := new FieldLoop(fields, m);
    ok := loop.Run(stream);
    r := loop.msg;
    if ok {
      ok := loop.Check();
    }
  }

  /** pb_decode */
  method DecodeMessage(stream: IStream, fields: seq<Field>) returns (ok: bool, r: Msg)
    requires stream.Valid() && WellFormed(fields) && Generated(fields)
    modifies stream
    ensures stream.Valid() && stream.End() <= old(stream.End())
    ensures Reads(Decode(fields, old(stream.Rest())), ok, r, stream.Rest())
    ensures ok ==> stream.End() == old(stream.End())
    decreases fields, 4
  {
    hide DecodeNoinit;
    var m := SetToDefaults(fields);
    ok, r := DecodeMerging(stream, fields, m);
  }
}
