/**
 The bytes pb_encode produces for a message, as a function of the descriptor and the message.
 None stands for an encoding error.
 */
module WireEncode {
  import opened Bits
  import opened Descriptor
  import opened Varint
  import opened Wrappers

  const WT_VARINT: nat := 0
  const WT_64BIT: nat := 1
  const WT_STRING: nat := 2
  const WT_32BIT: nat := 5

  /** The wire type that pb_encode_tag_for_field chooses. */
  function WireType(l: LType): (wt: nat)
    ensures wt < 8
  {
    match l
    case Bool => WT_VARINT
    case Varint => WT_VARINT
    case UVarint => WT_VARINT
    case SVarint => WT_VARINT
    case Fixed32 => WT_32BIT
    case Fixed64 => WT_64BIT
    case _ => WT_STRING
  }

  function TagBytes(tag: nat, wt: nat): bytes {
    VarintBytes(tag * 8 + wt)
  }

  /** Little-endian bytes of a fixed-width integer. */
  function LEBytes(n: nat, k: nat): (s: bytes)
    ensures |s| == k
  {
    if k == 0 then [] else [n % 256] + LEBytes(n / 256, k - 1)
  }

  function LengthPrefixed(b: bytes): bytes {
    VarintBytes(|b|) + b
  }

  function NumOf(v: Value): int {
    if v.Num? then v.n else 0
  }

  /** The field encoders: one data item, without its tag. */
  function EncElem(f: Field, v: Value): Option<bytes>
    decreases f, 0
  {
    match f.ltype
    case Bool => Some(VarintBytes(if NumOf(v) != 0 then 1 else 0))
    case Varint => if v.Num? && IsIntSize(f.dataSize) then Some(VarintBytes(v.n % TWO64)) else None
    case UVarint => if v.Num? && IsIntSize(f.dataSize) then Some(VarintBytes(v.n % TWO64)) else None
    case SVarint => if v.Num? && IsIntSize(f.dataSize) then Some(VarintBytes(ZigZag(CastSigned(v.n, 8)))) else None
    case Fixed32 => Some(LEBytes(NumOf(v) % TWO32, 4))
    case Fixed64 => Some(LEBytes(NumOf(v) % TWO64, 8))
    case Bytes => if v.Blob? && |v.b| <= BytesCapacity(f) % TWO64 then Some(LengthPrefixed(v.b)) else None
    case String => if v.Text? then Some(LengthPrefixed(TextContent(f, v.chars))) else None
    case FixedLengthBytes => if v.Blob? && |v.b| == f.dataSize then Some(LengthPrefixed(v.b)) else None
    case Submessage =>
      if v.Nested? && f.ptr.Fields? then
        match EncMsg(f.ptr.fields, v.m)
        case None => None
        case Some(b) => Some(LengthPrefixed(b))
      else None
  }

  /** The characters pb_enc_string finds: up to the first NUL, at most data_size of them. */
  function TextContent(f: Field, chars: bytes): bytes {
    var n := StrLen(chars);
    chars[..if n <= f.dataSize then n else f.dataSize]
  }

  /** The items of a packed array, one after the other. */
  function EncItems(f: Field, items: seq<Value>): Option<bytes>
    decreases f, 1, |items|
  {
    if items == [] then Some([])
    else
      match EncElem(f, items[0])
      case None => None
      case Some(b) =>
        match EncItems(f, items[1..])
        case None => None
        case Some(rest) => Some(b + rest)
  }

  function Tagged(f: Field): bytes {
    TagBytes(f.tag, WireType(f.ltype))
  }

  /** One record: tag and item. */
  function EncRecord(f: Field, v: Value): Option<bytes>
    decreases f, 1
  {
    match EncElem(f, v)
    case None => None
    case Some(b) => Some(Tagged(f) + b)
  }

  /** The items of an unpacked array, each with its own tag. */
  function EncRecords(f: Field, items: seq<Value>): Option<bytes>
    decreases f, 2, |items|
  {
    if items == [] then Some([])
    else
      match EncRecord(f, items[0])
      case None => None
      case Some(b) =>
        match EncRecords(f, items[1..])
        case None => None
        case Some(rest) => Some(b + rest)
  }

  /** encode_array */
  function EncArray(f: Field, items: seq<Value>): Option<bytes>
    decreases f, 3
  {
    if items == [] then Some([])
    else if |items| > f.arraySize then None
    else if Packable(f.ltype) then
      match EncItems(f, items)
      case None => None
      case Some(b) => Some(TagBytes(f.tag, WT_STRING) + LengthPrefixed(b))
    else EncRecords(f, items)
  }

  /** pb_check_proto3_default_value */
  predicate IsDefault(f: Field, s: Slot)
    decreases f
  {
    match f.htype
    case Required => false
    case Repeated => f.sizeOffset != 0 && s.Rep? && s.items == []
    case Oneof => s.Union? && s.which == 0
    case Optional => if f.sizeOffset != 0 then s.Opt? && !s.has else s.Single? && IsZero(f, s.v)
  }

  /** The implicit-presence part of the same check. */
  predicate IsZero(f: Field, v: Value)
    decreases f, 0
  {
    match f.ltype
    case Bytes => v.Blob? && v.b == []
    case String => v.Text? && v.chars != [] && v.chars[0] == 0
    case FixedLengthBytes => f.dataSize == 0
    case Submessage =>
      v.Nested? && f.ptr.Fields? && |v.m.slots| == |f.ptr.fields| &&
      forall i | 0 <= i < |f.ptr.fields| :: IsDefault(f.ptr.fields[i], SlotOf(f.ptr.fields, v.m, i))
    case _ => v.Num? && v.n == 0
  }

  /** encode_basic_field, given the contents of the field's storage cell. */
  function EncSlot(f: Field, s: Slot): Option<bytes>
    decreases f, 4
  {
    match f.htype
    case Required => if s.Single? then EncRecord(f, s.v) else None
    case Optional =>
      if f.sizeOffset != 0 then
        if !s.Opt? then None else if s.has then EncRecord(f, s.v) else Some([])
      else
        if !s.Single? then None else if IsZero(f, s.v) then Some([]) else EncRecord(f, s.v)
    case Repeated =>
      if s.Rep? && (FixedCount(f) ==> |s.items| == f.arraySize) then EncArray(f, s.items) else None
    case Oneof => if !s.Union? then None else if s.which == f.tag then EncRecord(f, s.v) else Some([])
  }

  /** The field loop of pb_encode, from field i on. */
  function EncFrom(fields: seq<Field>, i: nat, m: Msg): Option<bytes>
    requires i <= |fields| == |m.slots|
    decreases fields, |fields| - i
  {
    if i == |fields| then Some([])
    else
      match EncSlot(fields[i], SlotOf(fields, m, i))
      case None => None
      case Some(b) =>
        match EncFrom(fields, i + 1, m)
        case None => None
        case Some(rest) => Some(b + rest)
  }

  /** pb_encode */
  function EncMsg(fields: seq<Field>, m: Msg): Option<bytes>
    decreases fields, |fields| + 1
  {
    if |m.slots| == |fields| then EncFrom(fields, 0, m) else None
  }
}
