/**
 Field descriptors and message structs (pb.h). A message struct is a sequence of slots, one
 for each storage cell the descriptor lays out; the members of a union share the slot of the
 union's first member.
 */
module Descriptor {
  import opened Bits
  import opened Varint

  /** pb_size_t is 8, 16 or 32 bits wide, depending on the build. */
  type SizeMax = n: nat | n == 0xFF || n == 0xFFFF || n == 0xFFFF_FFFF witness 0xFF

  /** The largest pb_size_t of the build; nothing here depends on which of the three it is. */
  const PB_SIZE_MAX: SizeMax

  /** offsetof(pb_bytes_array_t, bytes) */
  const BYTES_OFFSET: nat := if PB_SIZE_MAX == 0xFF then 1 else if PB_SIZE_MAX == 0xFFFF then 2 else 4

  const PB_MAX_REQUIRED_FIELDS: nat := 64

  datatype HType = Required | Optional | Repeated | Oneof

  datatype LType =
    | Bool | Varint | UVarint | SVarint | Fixed32 | Fixed64
    | Bytes | String | Submessage | FixedLengthBytes

  /** The `ptr` member of a descriptor: nothing, a submessage's fields, or a default value. */
  datatype Ptr = Null | Fields(fields: seq<Field>) | Default(v: Value)

  datatype Field = Field(
    tag: nat, htype: HType, ltype: LType,
    dataOffset: nat, sizeOffset: int, dataSize: nat, arraySize: nat, ptr: Ptr)

  /**
   What one data item holds. Text is the written part of a char buffer, up to and including
   the terminator that was written last.
   */
  datatype Value = Num(n: int) | Blob(b: bytes) | Text(chars: bytes) | Nested(m: Msg)

  /** A storage cell. Rep lists the items in use; Void stands at the later members of a union. */
  datatype Slot = Void | Single(v: Value) | Opt(has: bool, v: Value) | Rep(items: seq<Value>) |
    Union(which: nat, v: Value)

  datatype Msg = Msg(slots: seq<Slot>)

  predicate Packable(l: LType) {
    l.Bool? || l.Varint? || l.UVarint? || l.SVarint? || l.Fixed32? || l.Fixed64?
  }

  /** A repeated field without a count member always holds array_size items. */
  predicate FixedCount(f: Field) {
    f.htype.Repeated? && f.sizeOffset == 0
  }

  /** proto3 presence: an optional field without a has_ member. */
  predicate Implicit(f: Field) {
    f.htype.Optional? && f.sizeOffset == 0
  }

  /** The test by which the field iterator stays inside a union. */
  predicate SharesUnion(prev: Field, cur: Field) {
    prev.htype.Oneof? && cur.htype.Oneof? && cur.dataOffset == PB_SIZE_MAX
  }

  /** Index of the slot that field i lives in. */
  function Home(fields: seq<Field>, i: nat): (h: nat)
    requires i < |fields|
    ensures h <= i
  {
    if i > 0 && SharesUnion(fields[i - 1], fields[i]) then Home(fields, i - 1) else i
  }

  lemma {:induction false} HomeFacts(fields: seq<Field>, i: nat)
    requires i < |fields|
    ensures Home(fields, Home(fields, i)) == Home(fields, i)
    ensures fields[i].htype.Oneof? == fields[Home(fields, i)].htype.Oneof?
    ensures !fields[i].htype.Oneof? ==> Home(fields, i) == i
  {
    if i > 0 && SharesUnion(fields[i - 1], fields[i]) {
      HomeFacts(fields, i - 1);
    }
  }

  /** Index of the field with the given tag, or |fields|. */
  function FindField(fields: seq<Field>, tag: nat): (i: nat)
    ensures i <= |fields|
    ensures i < |fields| ==> fields[i].tag == tag
  {
    if fields == [] then 0
    else if fields[0].tag == tag then 0
    else 1 + FindField(fields[1..], tag)
  }

  lemma {:induction false} FindFieldFirst(fields: seq<Field>, tag: nat, j: nat)
    requires j < FindField(fields, tag)
    ensures fields[j].tag != tag
  {
    if j > 0 {
      FindFieldFirst(fields[1..], tag, j - 1);
    }
  }

  predicate DistinctTags(fields: seq<Field>) {
    forall i, j | 0 <= i < j < |fields| :: fields[i].tag != fields[j].tag
  }

  lemma {:induction false} FindFieldUnique(fields: seq<Field>, i: nat)
    requires i < |fields| && DistinctTags(fields)
    ensures FindField(fields, fields[i].tag) == i
  {
    var j := FindField(fields, fields[i].tag);
    if i < j {
      FindFieldFirst(fields, fields[i].tag, i);
    }
  }

  /** What the generator guarantees of a descriptor. */
  predicate WellFormed(fields: seq<Field>)
    decreases fields
  {
    && DistinctTags(fields)
    && (forall i | 0 <= i < |fields| :: 0 < fields[i].tag < 0x2000_0000)
    && (forall i | 0 <= i < |fields| :: WellFormedField(fields[i]))
  }

  predicate WellFormedField(f: Field)
    decreases f
  {
    && f.dataSize <= PB_SIZE_MAX && f.arraySize <= PB_SIZE_MAX
    && (f.ltype.Varint? || f.ltype.UVarint? || f.ltype.SVarint? ==> IsIntSize(f.dataSize))
    && (f.ltype.Bool? ==> f.dataSize == 1)
    && (f.ltype.Fixed32? ==> f.dataSize == 4)
    && (f.ltype.Fixed64? ==> f.dataSize == 8)
    && (f.ltype.Bytes? ==> f.dataSize >= BYTES_OFFSET)
    && (f.ltype.String? ==> f.dataSize >= 1)
    && (f.ltype.Submessage? ==> f.ptr.Fields? && WellFormed(f.ptr.fields))
    && (f.ptr.Default? ==> !f.ltype.Submessage? && ScalarFits(f, f.ptr.v))
    && (f.ptr.Fields? ==> f.ltype.Submessage?)
    && (Implicit(f) && f.ptr.Default? ==> f.ptr.v == ZeroValue(f))
    && (f.htype.Oneof? ==> f.sizeOffset != 0)
  }

  /** The largest `bytes` payload that a field can store. */
  function BytesCapacity(f: Field): int {
    f.dataSize - BYTES_OFFSET
  }

  /** A value other than a submessage is one the field's C type can hold. */
  predicate ScalarFits(f: Field, v: Value) {
    match f.ltype
    case Bool => v.Num? && 0 <= v.n <= 1
    case Varint => v.Num? && IsIntSize(f.dataSize) && FitsSigned(v.n, f.dataSize)
    case SVarint => v.Num? && IsIntSize(f.dataSize) && FitsSigned(v.n, f.dataSize)
    case UVarint => v.Num? && IsIntSize(f.dataSize) && FitsUnsigned(v.n, f.dataSize)
    case Fixed32 => v.Num? && 0 <= v.n < TWO32
    case Fixed64 => v.Num? && 0 <= v.n < TWO64
    case Bytes => v.Blob? && |v.b| <= BytesCapacity(f)
    case String => v.Text? && |v.chars| <= f.dataSize && StrLen(v.chars) < |v.chars|
    case FixedLengthBytes => v.Blob? && |v.b| == f.dataSize
    case Submessage => false
  }

  /** The value is one the field's C type can hold; every count is within its array. */
  predicate Fits(f: Field, v: Value)
    decreases f
  {
    if f.ltype.Submessage? then f.ptr.Fields? && v.Nested? && Conforms(f.ptr.fields, v.m)
    else ScalarFits(f, v)
  }

  /** The message is a struct of this descriptor's type. */
  predicate Conforms(fields: seq<Field>, m: Msg)
    decreases fields
  {
    && |m.slots| == |fields|
    && forall i | 0 <= i < |fields| :: SlotConforms(fields, i, m.slots[i])
  }

  predicate SlotConforms(fields: seq<Field>, i: nat, s: Slot)
    requires i < |fields|
    decreases fields, 0
  {
    var f := fields[i];
    if Home(fields, i) != i then s.Void?
    else match f.htype
      case Required => s.Single? && Fits(f, s.v)
      case Optional => if f.sizeOffset != 0 then s.Opt? && Fits(f, s.v) else s.Single? && Fits(f, s.v)
      case Repeated => s.Rep? && |s.items| <= f.arraySize && forall k | 0 <= k < |s.items| :: Fits(f, s.items[k])
      case Oneof =>
        s.Union? &&
        (s == NO_MEMBER || exists j | 0 <= j < |fields| :: IsMember(fields, i, j, s.which) && Fits(fields[j], s.v))
  }

  /** Field j is the member with tag `which` of the union whose slot is h. */
  predicate IsMember(fields: seq<Field>, h: nat, j: nat, which: nat)
    requires j < |fields|
  {
    Home(fields, j) == h && fields[j].tag == which
  }

  /** Length of a C string: the index of the first NUL. */
  function StrLen(s: bytes): (n: nat)
    ensures n <= |s|
    ensures n < |s| ==> s[n] == 0
  {
    if s == [] || s[0] == 0 then 0 else 1 + StrLen(s[1..])
  }

  function Zeros(n: nat): (s: bytes)
    ensures |s| == n
  {
    seq(n, _ => 0)
  }

  /** A data item filled with zeros. */
  function ZeroValue(f: Field): Value {
    match f.ltype
    case Bytes => Blob([])
    case String => Text([0])
    case FixedLengthBytes => Blob(Zeros(f.dataSize))
    case _ => Num(0)
  }

  const NO_MEMBER: Slot := Union(0, Num(0))

  /** pb_field_set_to_default */
  function DefaultSlot(f: Field): Slot
    decreases f
  {
    match f.htype
    case Required => Single(DefaultValue(f))
    case Optional => if f.sizeOffset != 0 then Opt(false, DefaultValue(f)) else Single(DefaultValue(f))
    case Repeated => Rep([])
    case Oneof => NO_MEMBER
  }

  function DefaultValue(f: Field): Value
    decreases f, 0
  {
    if f.ltype.Submessage? then (if f.ptr.Fields? then Nested(Defaults(f.ptr.fields)) else Num(0))
    else if f.ptr.Default? then f.ptr.v
    else ZeroValue(f)
  }

  /** pb_message_set_to_defaults */
  function Defaults(fields: seq<Field>): (m: Msg)
    ensures |m.slots| == |fields|
    decreases fields
  {
    Msg(seq(|fields|, i requires 0 <= i < |fields| => if Home(fields, i) == i then DefaultSlot(fields[i]) else Void))
  }

  /** The contents of the storage cell of field i. */
  function SlotOf(fields: seq<Field>, m: Msg, i: nat): Slot
    requires i < |fields| == |m.slots|
  {
    m.slots[Home(fields, i)]
  }

  /** The message with the storage cell of field i replaced. */
  function WithSlot(fields: seq<Field>, m: Msg, i: nat, s: Slot): (r: Msg)
    requires i < |fields| == |m.slots|
    ensures |r.slots| == |fields|
  {
    Msg(m.slots[Home(fields, i) := s])
  }
}
