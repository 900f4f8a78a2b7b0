/**
 The encoder of pb_encode.c, sizing passes included, proved against the functions of
 WireEncode. The same code runs on counting and on buffer streams.
 */
module Encoder {
  import opened Bits
  import Decoder
  import opened Descriptor
  import opened OutputStream
  import opened Varint
  import opened WireEncode
  import opened Wrappers

  // ----- field encoders

  /** pb_enc_varint */
  method EncVarint(stream: OStream, f: Field, v: Value) returns (ok: bool)
    requires stream.Valid() && f.ltype.Varint?
    modifies stream, stream.buf
    ensures Emitted(old(stream.Now()), stream.Now(), EncElem(f, v), ok)
  {
    if !v.Num? || !IsIntSize(f.dataSize) {
      return false;
    }
    ok := stream.EncodeVarint(v.n % TWO64);
  }

  /** pb_enc_uvarint */
  method EncUVarint(stream: OStream, f: Field, v: Value) returns (ok: bool)
    requires stream.Valid() && f.ltype.UVarint?
    modifies stream, stream.buf
    ensures Emitted(old(stream.Now()), stream.Now(), EncElem(f, v), ok)
  {
    if !v.Num? || !IsIntSize(f.dataSize) {
      return false;
    }
    ok := stream.EncodeVarint(v.n % TWO64);
  }

  /** pb_enc_svarint */
  method EncSVarint(stream: OStream, f: Field, v: Value) returns (ok: bool)
    requires stream.Valid() && f.ltype.SVarint?
    modifies stream, stream.buf
    ensures Emitted(old(stream.Now()), stream.Now(), EncElem(f, v), ok)
  {
    hide CastSigned;
    if !v.Num? || !IsIntSize(f.dataSize) {
      return false;
    }
    ok := stream.EncodeSVarint(CastSigned(v.n, 8));
  }

  /** pb_enc_bool */
  method EncBool(stream: OStream, f: Field, v: Value) returns (ok: bool)
    requires stream.Valid() && f.ltype.Bool?
    modifies stream, stream.buf
    ensures Emitted(old(stream.Now()), stream.Now(), EncElem(f, v), ok)
  {
    ok := stream.EncodeVarint(if NumOf(v) != 0 then 1 else 0);
  }

  /** pb_enc_fixed32 and pb_enc_fixed64 */
  method EncFixed(stream: OStream, f: Field, v: Value) returns (ok: bool)
    requires stream.Valid() && (f.ltype.Fixed32? || f.ltype.Fixed64?)
    modifies stream, stream.buf
    ensures Emitted(old(stream.Now()), stream.Now(), EncElem(f, v), ok)
  {
    hide LEBytes;
    if f.ltype.Fixed32? {
      ok := stream.EncodeFixed(NumOf(v) % TWO32, 4);
    } else {
      ok := stream.EncodeFixed(NumOf(v) % TWO64, 8);
    }
  }

  /** pb_enc_bytes */
  method EncBytes(stream: OStream, f: Field, v: Value) returns (ok: bool)
    requires stream.Valid() && f.ltype.Bytes?
    modifies stream, stream.buf
    ensures Emitted(old(stream.Now()), stream.Now(), EncElem(f, v), ok)
  {
    if !v.Blob? || |v.b| > (f.dataSize - BYTES_OFFSET) % TWO64 {
      return false;
    }
    ok := stream.EncodeString(v.b);
  }

  /** pb_enc_string */
  method EncString(stream: OStream, f: Field, v: Value) returns (ok: bool)
    requires stream.Valid() && f.ltype.String?
    modifies stream, stream.buf
    ensures Emitted(old(stream.Now()), stream.Now(), EncElem(f, v), ok)
  {
    if !v.Text? {
      return false;
    }
    var size := TextSize(f, v.chars);
    ok := stream.EncodeString(v.chars[..size]);
  }

  /** pb_enc_string's search for the end of the string. */
  method TextSize(f: Field, chars: bytes) returns (size: nat)
    ensures size <= |chars| && chars[..size] == TextContent(f, chars)
  {
    size := 0;
    while size < f.dataSize && size < |chars| && chars[size] != 0
      invariant size <= f.dataSize && size <= StrLen(chars)
      invariant StrLen(chars) == size + StrLen(chars[size..])
    {
      size := size + 1;
      assert chars[size - 1..][1..] == chars[size..];
    }
  }

  /** pb_enc_fixed_length_bytes */
  method EncFixedLength(stream: OStream, f: Field, v: Value) returns (ok: bool)
    requires stream.Valid() && f.ltype.FixedLengthBytes?
    modifies stream, stream.buf
    ensures Emitted(old(stream.Now()), stream.Now(), EncElem(f, v), ok)
  {
    if !v.Blob? || |v.b| != f.dataSize {
      return false;
    }
    ok := stream.EncodeString(v.b);
  }

  /** pb_enc_submessage */
  method EncSubmessage(stream: OStream, f: Field, v: Value) returns (ok: bool)
    requires stream.Valid() && f.ltype.Submessage? && Decoder.GeneratedField(f)
    modifies stream, stream.buf
    ensures Emitted(old(stream.Now()), stream.Now(), EncElem(f, v), ok)
    decreases f, 0
  {
    if !f.ptr.Fields? || !v.Nested? {
      return false;
    }
    var changed;
    ok, changed := EncodeSubmessage(stream, f.ptr.fields, v.m);
  }

  /** The encoder table. */
  method EncElemTo(stream: OStream, f: Field, v: Value) returns (ok: bool)
    requires stream.Valid() && Decoder.GeneratedField(f)
    modifies stream, stream.buf
    ensures Emitted(old(stream.Now()), stream.Now(), EncElem(f, v), ok)
    decreases f, 1
  {
    hide EncElem, Emitted;
    match f.ltype
    case Bool => ok := EncBool(stream, f, v);
    case Varint => ok := EncVarint(stream, f, v);
    case UVarint => ok := EncUVarint(stream, f, v);
    case SVarint => ok := EncSVarint(stream, f, v);
    case Fixed32 => ok := EncFixed(stream, f, v);
    case Fixed64 => ok := EncFixed(stream, f, v);
    case Bytes => ok := EncBytes(stream, f, v);
    case String => ok := EncString(stream, f, v);
    case FixedLengthBytes => ok := EncFixedLength(stream, f, v);
    case Submessage => ok := EncSubmessage(stream, f, v);
  }

  // ----- submessages: a sizing pass, then a writing pass

  /** LengthPrefixed of an encoding, if there is one. */
  function Prefixed(e: Option<bytes>): Option<bytes> {
    match e { case None => None case Some(b) => Some(LengthPrefixed(b)) }
  }

  /** The substream's writes are the parent's. */
  lemma {:induction false} SubstreamWithin(b: Snap, c: Snap, d: Snap, r: Snap)
    requires SnapOk(b) && !b.sizing && c == b.(maxSize := c.maxSize, bytesWritten := 0) && c.maxSize <= Room(b)
    requires Within(c, d)
    requires r == b.(state := d.state, bytesWritten := b.bytesWritten + d.bytesWritten, image := d.image)
    ensures Within(b, r)
  {
  }

  /** A payload of the announced size fills its substream exactly. */
  lemma {:induction false} SubstreamExact(b: Snap, c: Snap, d: Snap, r: Snap, e: bytes, ok: bool)
    requires SnapOk(b) && !b.sizing && c == b.(maxSize := |e|, bytesWritten := 0) && |e| <= Room(b)
    requires |e| < TWO64 && Emitted(c, d, Some(e), ok)
    requires r == b.(state := d.state, bytesWritten := b.bytesWritten + d.bytesWritten, image := d.image)
    ensures ok && d.bytesWritten == |e| && Emitted(b, r, Some(e), true)
  {
  }

  /** What is promised about an encoding too long for its length varint. */
  lemma {:induction false} Oversize(a: Snap, b: Snap, e: bytes, ok: bool)
    requires Within(a, b) && |e| >= TWO64
    ensures Emitted(a, b, Prefixed(Some(e)), ok)
  {
  }

  /**
   pb_encode_submessage. `changed` is its error "submsg size changed": the writing pass never
   disagrees with the sizing pass.
   */
  method EncodeSubmessage(stream: OStream, fields: seq<Field>, m: Msg) returns (ok: bool, changed: bool)
    requires stream.Valid() && Decoder.Generated(fields)
    modifies stream, stream.buf
    ensures Emitted(old(stream.Now()), stream.Now(), Prefixed(EncMsg(fields, m)), ok)
    ensures EncMsg(fields, m).Some? && |EncMsg(fields, m).value| < TWO64 ==> !changed
    decreases fields, |fields| + 3
  {
    hide EncMsg;
    changed := false;
    ghost var e, a := EncMsg(fields, m), stream.Now();
    var counter := new OStream.Sizing();
    ok := Encode(counter, fields, m);
    if !ok {
      if e.Some? && |e.value| >= TWO64 {
        Oversize(a, stream.Now(), e.value, false);
      }
      return;
    }
    var size := counter.bytesWritten;
    ok := stream.EncodeVarint(size % TWO64);
    ghost var b := stream.Now();
    if !ok {
      WithoutPayload(a, b, e.value, size);
      return;
    }
    changed, ok := SubmessagePayload(stream, fields, m, size);
    WithPayload(a, b, stream.Now(), e.value, size, ok);
  }

  lemma {:induction false} WithoutPayload(a: Snap, b: Snap, e: bytes, size: nat)
    requires |e| < TWO64 ==> size == |e|
    requires Emitted(a, b, Some(VarintBytes(size % TWO64)), false)
    ensures Emitted(a, b, Prefixed(Some(e)), false)
  {
  }

  lemma {:induction false} WithPayload(a: Snap, b: Snap, c: Snap, e: bytes, size: nat, ok: bool)
    requires |e| < TWO64 ==> size == |e|
    requires Emitted(a, b, Some(VarintBytes(size % TWO64)), true)
    requires Emitted(b, c, Some(e), ok)
    ensures Emitted(a, c, Prefixed(Some(e)), ok)
  {
    if |e| < TWO64 {
      Then(a, b, c, Some(VarintBytes(|e|)), Some(e), ok);
    } else {
      WithinTrans(a, b, c);
      Oversize(a, c, e, ok);
    }
  }

  /** The part of pb_encode_submessage behind the length. */
  method SubmessagePayload(stream: OStream, fields: seq<Field>, m: Msg, size: nat) returns (changed: bool, ok: bool)
    requires stream.Valid() && Decoder.Generated(fields) && EncMsg(fields, m).Some?
    requires |EncMsg(fields, m).value| < TWO64 ==> size == |EncMsg(fields, m).value|
    modifies stream, stream.buf
    ensures Emitted(old(stream.Now()), stream.Now(), EncMsg(fields, m), ok)
    ensures |EncMsg(fields, m).value| < TWO64 ==> !changed
    decreases fields, |fields| + 2
  {
    hide EncMsg;
    ghost var e, b := EncMsg(fields, m).value, stream.Now();
    changed := false;
    if stream.sizing {
      stream.Count(size);
      return false, true;
    }
    if stream.bytesWritten + size > stream.maxSize {
      return false, false;
    }
    var sub := new OStream.Limited(stream, size);
    ghost var c := sub.Now();
    ok := Encode(sub, fields, m);
    ghost var d := sub.Now();
    stream.bytesWritten := stream.bytesWritten + sub.bytesWritten;
    stream.state := sub.state;
    SubstreamWithin(b, c, d, stream.Now());
    if |e| < TWO64 {
      SubstreamExact(b, c, d, stream.Now(), e, ok);
    }
    if sub.bytesWritten != size {
      return true, false;
    }
  }

  // ----- one field

  /** pb_encode_tag_for_field */
  method EncodeTagForField(stream: OStream, f: Field) returns (ok: bool)
    requires stream.Valid() && f.tag <= PB_SIZE_MAX
    modifies stream, stream.buf
    ensures Emitted(old(stream.Now()), stream.Now(), Some(Tagged(f)), ok)
  {
    ok := stream.EncodeTag(WireType(f.ltype), f.tag);
  }

  /** A tag and its item. */
  method EncodeRecord(stream: OStream, f: Field, v: Value) returns (ok: bool)
    requires stream.Valid() && Decoder.GeneratedField(f)
    modifies stream, stream.buf
    ensures Emitted(old(stream.Now()), stream.Now(), EncRecord(f, v), ok)
    decreases f, 2
  {
    hide EncElem, Emitted, Tagged;
    ghost var a := stream.Now();
    ok := EncodeTagForField(stream, f);
    ghost var b := stream.Now();
    assert EncRecord(f, v) == Cat(Some(Tagged(f)), EncElem(f, v));
    if !ok {
      Cut(a, b, Some(Tagged(f)), EncElem(f, v));
      return;
    }
    EmittedSome(a, b, Some(Tagged(f)));
    ok := EncElemTo(stream, f, v);
    Then(a, b, stream.Now(), Some(Tagged(f)), EncElem(f, v), ok);
  }

  /** All items, one after the other: the loop of a packed array. */
  method EncodeItems(stream: OStream, f: Field, items: seq<Value>) returns (ok: bool)
    requires stream.Valid() && Decoder.GeneratedField(f)
    modifies stream, stream.buf
    ensures Emitted(old(stream.Now()), stream.Now(), EncItems(f, items), ok)
    decreases f, 2
  {
    hide EncElem, Emitted;
    ghost var a := stream.Now();
    NothingWritten(a);
    CatNil(EncItems(f, items));
    assert items[0..] == items;
    var i := 0;
    ghost var done: bytes := [];
    while i < |items|
      invariant stream.Valid() && i <= |items|
      invariant Emitted(a, stream.Now(), Some(done), true)
      invariant EncItems(f, items) == Cat(Some(done), EncItems(f, items[i..]))
    {
      ghost var b, e := stream.Now(), EncElem(f, items[i]);
      ItemsStep(f, items, i, done);
      ok := EncElemTo(stream, f, items[i]);
      if !ok {
        Then(a, b, stream.Now(), Some(done), e, false);
        Cut(a, stream.Now(), Cat(Some(done), e), EncItems(f, items[i + 1..]));
        return;
      }
      EmittedSome(b, stream.Now(), e);
      Then(a, b, stream.Now(), Some(done), e, true);
      done := done + e.value;
      i := i + 1;
    }
    assert items[i..] == [];
    AppendNil(done);
    ok := true;
  }

  lemma {:induction false} EmittedSome(a: Snap, b: Snap, e: Option<bytes>)
    requires Emitted(a, b, e, true)
    ensures e.Some? && SnapOk(b)
  {
  }

  lemma {:induction false} CatNil(e: Option<bytes>)
    ensures Cat(Some([]), e) == e
  {
    if e.Some? {
      AppendNil(e.value);
    }
  }

  lemma {:induction false} ItemsStep(f: Field, items: seq<Value>, i: nat, done: bytes)
    requires i < |items| && EncItems(f, items) == Cat(Some(done), EncItems(f, items[i..]))
    ensures var e := EncElem(f, items[i]);
            && EncItems(f, items) == Cat(Cat(Some(done), e), EncItems(f, items[i + 1..]))
            && (e.Some? ==> EncItems(f, items) == Cat(Some(done + e.value), EncItems(f, items[i + 1..])))
  {
    hide EncElem;
    assert items[i..][0] == items[i] && items[i..][1..] == items[i + 1..];
    if EncElem(f, items[i]).Some? && EncItems(f, items[i + 1..]).Some? {
      Assoc(done, EncElem(f, items[i]).value, EncItems(f, items[i + 1..]).value);
    }
  }

  /** All items, each with its tag: the loop of an unpacked array. */
  method EncodeTaggedItems(stream: OStream, f: Field, items: seq<Value>) returns (ok: bool)
    requires stream.Valid() && Decoder.GeneratedField(f)
    modifies stream, stream.buf
    ensures Emitted(old(stream.Now()), stream.Now(), EncRecords(f, items), ok)
    decreases f, 3
  {
    hide EncRecord, Emitted;
    ghost var a := stream.Now();
    NothingWritten(a);
    CatNil(EncRecords(f, items));
    assert items[0..] == items;
    var i := 0;
    ghost var done: bytes := [];
    while i < |items|
      invariant stream.Valid() && i <= |items|
      invariant Emitted(a, stream.Now(), Some(done), true)
      invariant EncRecords(f, items) == Cat(Some(done), EncRecords(f, items[i..]))
    {
      ghost var b, e := stream.Now(), EncRecord(f, items[i]);
      RecordsStep(f, items, i, done);
      ok := EncodeRecord(stream, f, items[i]);
      if !ok {
        Then(a, b, stream.Now(), Some(done), e, false);
        Cut(a, stream.Now(), Cat(Some(done), e), EncRecords(f, items[i + 1..]));
        return;
      }
      EmittedSome(b, stream.Now(), e);
      Then(a, b, stream.Now(), Some(done), e, true);
      done := done + e.value;
      i := i + 1;
    }
    assert items[i..] == [];
    AppendNil(done);
    ok := true;
  }

  lemma {:induction false} RecordsStep(f: Field, items: seq<Value>, i: nat, done: bytes)
    requires i < |items| && EncRecords(f, items) == Cat(Some(done), EncRecords(f, items[i..]))
    ensures var e := EncRecord(f, items[i]);
            && EncRecords(f, items) == Cat(Cat(Some(done), e), EncRecords(f, items[i + 1..]))
            && (e.Some? ==> EncRecords(f, items) == Cat(Some(done + e.value), EncRecords(f, items[i + 1..])))
  {
    hide EncRecord;
    assert items[i..][0] == items[i] && items[i..][1..] == items[i + 1..];
    if EncRecord(f, items[i]).Some? && EncRecords(f, items[i + 1..]).Some? {
      Assoc(done, EncRecord(f, items[i]).value, EncRecords(f, items[i + 1..]).value);
    }
  }

  lemma {:induction false} FixedSize(f: Field, items: seq<Value>)
    requires f.ltype.Fixed32? || f.ltype.Fixed64?
    ensures EncItems(f, items).Some?
    ensures |EncItems(f, items).value| == |items| * if f.ltype.Fixed32? then 4 else 8
  {
    if items != [] {
      FixedSize(f, items[1..]);
    }
  }

  /** The size of a packed array, computed or counted. */
  method PackedSize(f: Field, items: seq<Value>) returns (ok: bool, size: nat)
    requires Packable(f.ltype) && Decoder.GeneratedField(f)
    ensures EncItems(f, items).None? ==> !ok
    ensures EncItems(f, items).Some? && |EncItems(f, items).value| < TWO64 ==> ok && size == |EncItems(f, items).value|
    decreases f, 3
  {
    ok := true;
    if f.ltype.Fixed32? {
      FixedSize(f, items);
      size := 4 * |items|;
    } else if f.ltype.Fixed64? {
      FixedSize(f, items);
      size := 8 * |items|;
    } else {
      var counter := new OStream.Sizing();
      ok := EncodeItems(counter, f, items);
      size := counter.bytesWritten;
    }
  }

  /** encode_array */
  method EncodeArray(stream: OStream, f: Field, items: seq<Value>) returns (ok: bool)
    requires stream.Valid() && Decoder.GeneratedField(f)
    modifies stream, stream.buf
    ensures Emitted(old(stream.Now()), stream.Now(), EncArray(f, items), ok)
    decreases f, 5
  {
    hide EncItems, EncRecords, Emitted, TagBytes;
    ghost var a := stream.Now();
    if |items| == 0 {
      NothingWritten(a);
      return true;
    }
    if |items| > f.arraySize {
      FailsOn(a);
      return false;
    }
    if Packable(f.ltype) {
      ghost var t := Some(TagBytes(f.tag, WT_STRING));
      ok := stream.EncodeTag(WT_STRING, f.tag);
      ghost var b := stream.Now();
      assert EncArray(f, items) == Cat(t, Prefixed(EncItems(f, items)));
      if !ok {
        Cut(a, b, t, Prefixed(EncItems(f, items)));
        return;
      }
      EmittedSome(a, b, t);
      ok := EncodePacked(stream, f, items);
      Then(a, b, stream.Now(), t, Prefixed(EncItems(f, items)), ok);
    } else {
      ok := EncodeTaggedItems(stream, f, items);
    }
  }

  lemma {:induction false} FailsOn(a: Snap)
    requires SnapOk(a)
    ensures Emitted(a, a, None, false)
  {
  }

  /** The part of a packed array behind its tag. */
  method EncodePacked(stream: OStream, f: Field, items: seq<Value>) returns (ok: bool)
    requires stream.Valid() && Packable(f.ltype) && Decoder.GeneratedField(f)
    modifies stream, stream.buf
    ensures Emitted(old(stream.Now()), stream.Now(), Prefixed(EncItems(f, items)), ok)
    decreases f, 4
  {
    hide EncItems;
    ghost var e, a := EncItems(f, items), stream.Now();
    var size;
    ok, size := PackedSize(f, items);
    if !ok {
      if e.Some? {
        Oversize(a, a, e.value, false);
      }
      return;
    }
    ok := stream.EncodeVarint(size % TWO64);
    ghost var b := stream.Now();
    if !ok {
      WithoutPayload(a, b, e.value, size);
      return;
    }
    if stream.sizing {
      stream.Count(size);
      ok := true;
    } else {
      ok := EncodeItems(stream, f, items);
    }
    WithPayload(a, b, stream.Now(), e.value, size, ok);
  }

  /** pb_check_proto3_default_value */
  method CheckDefault(f: Field, s: Slot) returns (zero: bool)
    requires Decoder.GeneratedField(f)
    ensures zero == IsDefault(f, s)
    decreases f, 1
  {
    match f.htype
    case Required => return false;
    case Repeated =>
      if f.sizeOffset != 0 {
        return s.Rep? && |s.items| == 0;
      }
      return false;
    case Oneof => return s.Union? && s.which == 0;
    case Optional =>
      if f.sizeOffset != 0 {
        return s.Opt? && !s.has;
      }
      if !s.Single? {
        return false;
      }
      zero := CheckZero(f, s.v);
  }

  /** The part of the check that looks at the value. */
  method CheckZero(f: Field, v: Value) returns (zero: bool)
    requires Decoder.GeneratedField(f)
    ensures zero == IsZero(f, v)
    decreases f, 0
  {
    match f.ltype
    case Bytes => zero := v.Blob? && |v.b| == 0;
    case String => zero := v.Text? && |v.chars| > 0 && v.chars[0] == 0;
    case FixedLengthBytes => zero := f.dataSize == 0;
    case Submessage =>
      if v.Nested? && f.ptr.Fields? && |v.m.slots| == |f.ptr.fields| {
        zero := CheckAllDefault(f.ptr.fields, v.m);
      } else {
        zero := false;
      }
    case _ => zero := v.Num? && v.n == 0;
  }

  /** The field loop of the check. */
  method CheckAllDefault(fields: seq<Field>, m: Msg) returns (zero: bool)
    requires Decoder.Generated(fields) && |m.slots| == |fields|
    ensures zero == forall i | 0 <= i < |fields| :: IsDefault(fields[i], SlotOf(fields, m, i))
    decreases fields
  {
    hide IsDefault;
    var iter := Decoder.NewIter(fields);
    var more := |fields| > 0;
    ghost var i := 0;
    while more
      invariant iter.fields == fields && iter.Valid() && fresh(iter)
      invariant if more then iter.pos == i < |fields| else i == |fields|
      invariant forall j | 0 <= j < i :: IsDefault(fields[j], SlotOf(fields, m, j))
      decreases |fields| - i, more
    {
      var d := CheckDefault(fields[iter.pos], SlotOf(fields, m, iter.pos));
      if !d {
        return false;
      }
      i := i + 1;
      more := iter.Next();
    }
    return true;
  }

  /** encode_basic_field */
  method EncodeBasicField(stream: OStream, f: Field, s: Slot) returns (ok: bool)
    requires stream.Valid() && Decoder.GeneratedField(f)
    modifies stream, stream.buf
    ensures Emitted(old(stream.Now()), stream.Now(), EncSlot(f, s), ok)
    decreases f, 6
  {
    hide EncRecord, EncArray, Emitted, IsZero;
    FailsOn(stream.Now());
    NothingWritten(stream.Now());
    match f.htype
    case Required =>
      if !s.Single? {
        return false;
      }
      ok := EncodeRecord(stream, f, s.v);
    case Optional =>
      if (f.sizeOffset != 0 && !s.Opt?) || (f.sizeOffset == 0 && !s.Single?) {
        return false;
      }
      var present;
      if f.sizeOffset != 0 {
        present := s.has;
      } else {
        var zero := CheckZero(f, s.v);
        present := !zero;
      }
      if present {
        ok := EncodeRecord(stream, f, s.v);
      } else {
        ok := true;
      }
    case Repeated =>
      if !s.Rep? || (f.sizeOffset == 0 && |s.items| != f.arraySize) {
        return false;
      }
      ok := EncodeArray(stream, f, s.items);
    case Oneof =>
      if !s.Union? {
        return false;
      }
      if s.which == f.tag {
        ok := EncodeRecord(stream, f, s.v);
      } else {
        ok := true;
      }
  }

  /** pb_encode */
  method Encode(stream: OStream, fields: seq<Field>, m: Msg) returns (ok: bool)
    requires stream.Valid() && Decoder.Generated(fields)
    modifies stream, stream.buf
    ensures Emitted(old(stream.Now()), stream.Now(), EncMsg(fields, m), ok)
    decreases fields, |fields| + 1
  {
    hide EncSlot, Emitted;
    ghost var a := stream.Now();
    FailsOn(a);
    NothingWritten(a);
    if |m.slots| != |fields| {
      return false;
    }
    var iter := Decoder.NewIter(fields);
    var more := |fields| > 0;
    ghost var i, done: bytes := 0, [];
    CatNil(EncFrom(fields, 0, m));
    while more
      invariant iter.fields == fields && iter.Valid() && fresh(iter) && stream.Valid()
      invariant if more then iter.pos == i < |fields| else i == |fields|
      invariant Emitted(a, stream.Now(), Some(done), true)
      invariant EncFrom(fields, 0, m) == Cat(Some(done), EncFrom(fields, i, m))
      decreases |fields| - i, more
    {
      var s := SlotOf(fields, m, iter.pos);
      ghost var b, e := stream.Now(), EncSlot(fields[i], s);
      FromStep(fields, m, i, done);
      ok := EncodeBasicField(stream, fields[iter.pos], s);
      if !ok {
        Then(a, b, stream.Now(), Some(done), e, false);
        Cut(a, stream.Now(), Cat(Some(done), e), EncFrom(fields, i + 1, m));
        return;
      }
      EmittedSome(b, stream.Now(), e);
      Then(a, b, stream.Now(), Some(done), e, true);
      done := done + e.value;
      i := i + 1;
      more := iter.Next();
    }
    AppendNil(done);
    ok := true;
  }

  lemma {:induction false} FromStep(fields: seq<Field>, m: Msg, i: nat, done: bytes)
    requires i < |fields| == |m.slots| && EncFrom(fields, 0, m) == Cat(Some(done), EncFrom(fields, i, m))
    ensures var e := EncSlot(fields[i], SlotOf(fields, m, i));
            && EncFrom(fields, 0, m) == Cat(Cat(Some(done), e), EncFrom(fields, i + 1, m))
            && (e.Some? ==> EncFrom(fields, 0, m) == Cat(Some(done + e.value), EncFrom(fields, i + 1, m)))
  {
    hide EncSlot;
    var e := EncSlot(fields[i], SlotOf(fields, m, i));
    if e.Some? && EncFrom(fields, i + 1, m).Some? {
      Assoc(done, e.value, EncFrom(fields, i + 1, m).value);
    }
  }

  /** pb_get_encoded_size */
  method GetEncodedSize(fields: seq<Field>, m: Msg) returns (ok: bool, size: nat)
    requires Decoder.Generated(fields)
    ensures EncMsg(fields, m).None? ==> !ok
    ensures EncMsg(fields, m).Some? && |EncMsg(fields, m).value| < TWO64 ==> ok && size == |EncMsg(fields, m).value|
  {
    var stream := new OStream.Sizing();
    ok := Encode(stream, fields, m);
    size := stream.bytesWritten;
  }

  /**
   The sizing pass predicts the writing pass: encoding into a buffer succeeds exactly when the
   predicted number of bytes is there, and then fills exactly that many.
   */
  method EncodeIntoBuffer(buf: array<byte>, fields: seq<Field>, m: Msg) returns (predicted: nat, ok: bool, written: nat)
    requires Decoder.Generated(fields) && EncMsg(fields, m).Some? && |EncMsg(fields, m).value| < TWO64
    modifies buf
    ensures predicted == |EncMsg(fields, m).value| && ok == (predicted <= buf.Length)
    ensures ok ==> written == predicted && buf[..written] == EncMsg(fields, m).value
    ensures ok ==> buf[written..] == old(buf[written..])
  {
    var counted;
    counted, predicted := GetEncodedSize(fields, m);
    var stream := new OStream(buf);
    ok := Encode(stream, fields, m);
    written := stream.bytesWritten;
  }
}
