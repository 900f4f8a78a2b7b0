/**
 What pb_decode makes of a byte sequence, as a function of the descriptor, the bytes and the
 message decoded into. Bad, Fail and Failed stand for a decoding error.
 */
module WireDecode {
  import opened Bits
  import opened Descriptor
  import opened Varint
  import opened WireEncode
  import opened Wrappers

  /** pb_read */
  function Take(n: nat, s: bytes): (p: Parse<bytes>)
    ensures p.Parsed? ==> |p.rest| == |s| - n
  {
    if |s| < n then Bad else Parsed(s[..n], s[n..])
  }

  /** pb_make_string_substream followed by pb_close_string_substream: the payload and what follows it. */
  function TakeString(s: bytes): (p: Parse<bytes>)
    ensures p.Parsed? ==> |p.rest| < |s|
  {
    match Dec32(s)
    case Bad => Bad
    case Parsed(n, r) => Take(n, r)
  }

  /** pb_skip_varint: a varint of any length. */
  function SkipVarint(s: bytes): (p: Parse<()>)
    ensures p.Parsed? ==> |p.rest| < |s|
  {
    var n := Terminator(s);
    if n < |s| then Parsed((), s[n + 1..]) else Bad
  }

  /** pb_skip_field */
  function Skip(wt: nat, s: bytes): (p: Parse<()>)
    ensures p.Parsed? ==> |p.rest| < |s|
  {
    if wt == WT_VARINT then SkipVarint(s)
    else if wt == WT_64BIT then Discard(Take(8, s))
    else if wt == WT_STRING then Discard(TakeString(s))
    else if wt == WT_32BIT then Discard(Take(4, s))
    else Bad
  }

  function Discard<T>(p: Parse<T>): Parse<()> {
    match p
    case Bad => Bad
    case Parsed(_, r) => Parsed((), r)
  }

  function LEValue(b: bytes): nat {
    if b == [] then 0 else b[0] + 256 * LEValue(b[1..])
  }

  // ----- one data item

  /** The integer casts and overflow checks of pb_dec_varint. */
  function NarrowSigned(v: nat, size: nat): Option<int> {
    if !IsIntSize(size) then None
    else
      var svalue := CastSigned(v, if size == 8 then 8 else 4);
      if CastSigned(svalue, size) == svalue then Some(svalue) else None
  }

  /** The same for pb_dec_uvarint. */
  function NarrowUnsigned(v: nat, size: nat): Option<int> {
    if IsIntSize(size) && v % Width(size) == v then Some(v) else None
  }

  /** The same for pb_dec_svarint. */
  function NarrowZigZag(z: nat, size: nat): Option<int> {
    if IsIntSize(size) && CastSigned(UnZigZag(z), size) == UnZigZag(z) then Some(UnZigZag(z)) else None
  }

  function NumOrBad(n: Option<int>, rest: bytes): Parse<Value> {
    match n
    case None => Bad
    case Some(x) => Parsed(Num(x), rest)
  }

  /** The message a submessage field is decoded into. */
  function Target(sub: seq<Field>, f: Field, prior: Value): (m: Msg)
    ensures |m.slots| == |sub|
  {
    if f.htype.Repeated? then Defaults(sub) else NestedOr(sub, prior)
  }

  function NestedOr(sub: seq<Field>, prior: Value): (m: Msg)
    ensures |m.slots| == |sub|
  {
    if prior.Nested? && |prior.m.slots| == |sub| then prior.m else Defaults(sub)
  }

  function DecBytes(f: Field, s: bytes): (p: Parse<Value>)
    ensures p.Parsed? ==> |p.rest| < |s|
  {
    match Dec32(s)
    case Bad => Bad
    case Parsed(n, r) =>
      if n > PB_SIZE_MAX || n + BYTES_OFFSET > f.dataSize then Bad
      else
        match Take(n, r)
        case Bad => Bad
        case Parsed(b, r') => Parsed(Blob(b), r')
  }

  function DecText(f: Field, s: bytes): (p: Parse<Value>)
    ensures p.Parsed? ==> |p.rest| < |s|
  {
    match Dec32(s)
    case Bad => Bad
    case Parsed(n, r) =>
      if (n + 1) % TWO32 < n || n + 1 > f.dataSize then Bad
      else
        match Take(n, r)
        case Bad => Bad
        case Parsed(b, r') => Parsed(Text(b + [0]), r')
  }

  function DecFixedLength(f: Field, s: bytes): (p: Parse<Value>)
    ensures p.Parsed? ==> |p.rest| < |s|
  {
    match Dec32(s)
    case Bad => Bad
    case Parsed(n, r) =>
      if n > PB_SIZE_MAX then Bad
      else if n == 0 then Parsed(Blob(Zeros(f.dataSize)), r)
      else if n != f.dataSize then Bad
      else
        match Take(n, r)
        case Bad => Bad
        case Parsed(b, r') => Parsed(Blob(b), r')
  }

  /** The field decoders for everything but submessages. */
  function DecScalar(f: Field, s: bytes): (p: Parse<Value>)
    ensures p.Parsed? ==> |p.rest| < |s|
  {
    match f.ltype
    case Bool => (match Dec32(s) case Bad => Bad case Parsed(v, r) => Parsed(Num(if v != 0 then 1 else 0), r))
    case Varint => (match Dec64(s) case Bad => Bad case Parsed(v, r) => NumOrBad(NarrowSigned(v, f.dataSize), r))
    case UVarint => (match Dec64(s) case Bad => Bad case Parsed(v, r) => NumOrBad(NarrowUnsigned(v, f.dataSize), r))
    case SVarint => (match Dec64(s) case Bad => Bad case Parsed(v, r) => NumOrBad(NarrowZigZag(v, f.dataSize), r))
    case Fixed32 => (match Take(4, s) case Bad => Bad case Parsed(b, r) => Parsed(Num(LEValue(b)), r))
    case Fixed64 => (match Take(8, s) case Bad => Bad case Parsed(b, r) => Parsed(Num(LEValue(b)), r))
    case Bytes => DecBytes(f, s)
    case String => DecText(f, s)
    case FixedLengthBytes => DecFixedLength(f, s)
    case Submessage => Bad
  }

  /** The field decoders; `prior` is what the field held before. */
  function DecElem(f: Field, s: bytes, prior: Value): (p: Parse<Value>)
    ensures p.Parsed? ==> |p.rest| < |s|
    decreases f, 0
  {
    if !f.ltype.Submessage? then DecScalar(f, s)
    else
      match TakeString(s)
      case Bad => Bad
      case Parsed(b, r) =>
        if !f.ptr.Fields? then Bad
        else
          match DecodeNoinit(f.ptr.fields, b, Target(f.ptr.fields, f, prior))
          case Bad => Bad
          case Parsed(m, _) => Parsed(Nested(m), r)
  }

  // ----- one record

  /** Item k of an array is written. */
  function Put(items: seq<Value>, k: nat, v: Value): seq<Value> {
    if k < |items| then items[k := v] else items + [v]
  }

  /** The packed-array loop: the array and its count afterwards. */
  function DecPacked(f: Field, s: bytes, items: seq<Value>, k: nat): Option<(seq<Value>, nat)>
    decreases |s|
  {
    if s == [] then Some((items, k))
    else if k >= f.arraySize then None
    else
      match DecScalar(f, s)
      case Bad => None
      case Parsed(v, r) => DecPacked(f, r, Put(items, k, v), k + 1)
  }

  function ItemsOf(s: Slot): seq<Value> {
    if s.Rep? then s.items else []
  }

  function ValueOf(s: Slot): Value {
    if s.Single? || s.Opt? || s.Union? then s.v else Num(0)
  }

  /** What a union member is decoded into. */
  function MemberBase(f: Field, s: Slot): Value {
    if f.ltype.Submessage? && !(s.Union? && s.which == f.tag) then DefaultValue(f) else ValueOf(s)
  }

  /** decode_static_field: the storage cell and the array count afterwards. */
  function DecSlot(f: Field, wt: nat, s: bytes, slot: Slot, k: nat): (p: Parse<(Slot, nat)>)
    ensures p.Parsed? ==> |p.rest| < |s|
    decreases f, 1
  {
    match f.htype
    case Required =>
      (match DecElem(f, s, ValueOf(slot)) case Bad => Bad case Parsed(v, r) => Parsed((Single(v), k), r))
    case Optional =>
      (match DecElem(f, s, ValueOf(slot)) case Bad => Bad
       case Parsed(v, r) => Parsed((if f.sizeOffset != 0 then Opt(true, v) else Single(v), k), r))
    case Repeated =>
      if wt == WT_STRING && Packable(f.ltype) then
        match TakeString(s)
        case Bad => Bad
        case Parsed(b, r) =>
          (match DecPacked(f, b, ItemsOf(slot), k) case None => Bad case Some(ik) => Parsed((Rep(ik.0), ik.1), r))
      else if k >= f.arraySize then Bad
      else
        (match DecElem(f, s, Num(0)) case Bad => Bad
         case Parsed(v, r) => Parsed((Rep(Put(ItemsOf(slot), k, v)), k + 1), r))
    case Oneof =>
      (match DecElem(f, s, MemberBase(f, slot)) case Bad => Bad case Parsed(v, r) => Parsed((Union(f.tag, v), k), r))
  }

  // ----- the field loop

  /**
   The decoder's variables: the struct, the indices of the required fields seen so far, and
   the fixed-count field received last with the number of its items received.
   */
  datatype DState = DState(msg: Msg, seen: set<nat>, fixedField: Option<nat>, fixedCount: nat)

  predicate StateOk(fields: seq<Field>, st: DState) {
    |st.msg.slots| == |fields| && (st.fixedField.Some? ==> st.fixedField.value < |fields|)
  }

  function Start(m: Msg): DState {
    DState(m, {}, None, 0)
  }

  /** The fixed-count field received last has all its items, if there is one. */
  predicate FixedComplete(fields: seq<Field>, st: DState)
    requires StateOk(fields, st)
  {
    st.fixedField.Some? ==> st.fixedCount == fields[st.fixedField.value].arraySize
  }

  /** The switch to another fixed-count field; None when the previous one is incomplete. */
  function Track(fields: seq<Field>, i: nat, st: DState): (r: Option<DState>)
    requires i < |fields| && StateOk(fields, st)
    ensures r.Some? ==> StateOk(fields, r.value) && r.value.msg == st.msg && r.value.seen == st.seen
  {
    if !FixedCount(fields[i]) || st.fixedField == Some(i) then Some(st)
    else if FixedComplete(fields, st) then Some(st.(fixedField := Some(i), fixedCount := 0))
    else None
  }

  function CountOf(fields: seq<Field>, i: nat, st: DState): nat
    requires i < |fields| && StateOk(fields, st)
  {
    if FixedCount(fields[i]) then st.fixedCount else |ItemsOf(SlotOf(fields, st.msg, i))|
  }

  /** The variables after field i has been decoded to the given slot and count. */
  function Store(fields: seq<Field>, i: nat, st: DState, slot: Slot, k: nat): (r: DState)
    requires i < |fields| && StateOk(fields, st)
    ensures StateOk(fields, r)
  {
    DState(WithSlot(fields, st.msg, i, slot),
           if fields[i].htype.Required? then st.seen + {i} else st.seen,
           st.fixedField,
           if FixedCount(fields[i]) then k else st.fixedCount)
  }

  /** Outcome of one turn of the field loop. */
  datatype StepResult = Fail | Halt(rest: bytes) | Next(st: DState, rest: bytes)

  /** A record of field i, after its tag. */
  function DecField(fields: seq<Field>, i: nat, wt: nat, s: bytes, st: DState): (r: StepResult)
    requires i < |fields| && StateOk(fields, st)
    ensures !r.Halt?
    ensures r.Next? ==> |r.rest| < |s| && StateOk(fields, r.st)
    decreases fields, 0
  {
    match Track(fields, i, st)
    case None => Fail
    case Some(t) =>
      match DecSlot(fields[i], wt, s, SlotOf(fields, t.msg, i), CountOf(fields, i, t))
      case Bad => Fail
      case Parsed(sk, r) => Next(Store(fields, i, t, sk.0, sk.1), r)
  }

  /** A record with an unknown tag. Tag 0 matches the terminator of an empty descriptor, a BOOL. */
  function SkipUnknown(fields: seq<Field>, tag: nat, wt: nat, s: bytes): (p: Parse<()>)
    ensures p.Parsed? ==> |p.rest| < |s|
  {
    if fields == [] && tag == 0 then Discard(Dec32(s)) else Skip(wt, s)
  }

  /** One turn of the field loop. */
  function Step(fields: seq<Field>, s: bytes, st: DState): (r: StepResult)
    requires StateOk(fields, st)
    ensures r.Next? ==> |r.rest| < |s| && StateOk(fields, r.st)
    ensures r.Halt? ==> |r.rest| < |s|
    decreases fields, 1
  {
    match Dec32(s)
    case Bad => Fail
    case Parsed(key, r) =>
      if key == 0 then Halt(r)
      else
        var i := FindField(fields, key / 8);
        if i < |fields| then DecField(fields, i, key % 8, r, st)
        else
          match SkipUnknown(fields, key / 8, key % 8, r)
          case Bad => Fail
          case Parsed(_, r') => Next(st, r')
  }

  datatype LoopResult = Failed | Ended(st: DState, rest: bytes, halted: bool)

  /** The field loop of pb_decode_noinit; it ends with the bytes, or early at a zero key. */
  function DecLoop(fields: seq<Field>, s: bytes, st: DState): (r: LoopResult)
    requires StateOk(fields, st)
    ensures r.Ended? ==> StateOk(fields, r.st) && |r.rest| <= |s| && (!r.halted ==> r.rest == [])
    decreases fields, 2, |s|
  {
    if s == [] then Ended(st, [], false)
    else
      match Step(fields, s, st)
      case Fail => Failed
      case Halt(r) => Ended(st, r, true)
      case Next(st', r) => DecLoop(fields, r, st')
  }

  /** Number of required fields before field i. */
  function RequiredBefore(fields: seq<Field>, i: nat): (n: nat)
    requires i <= |fields|
    ensures n <= i
  {
    if i == 0 then 0 else RequiredBefore(fields, i - 1) + if fields[i - 1].htype.Required? then 1 else 0
  }

  /** Every one of the first PB_MAX_REQUIRED_FIELDS required fields has been seen. */
  predicate RequiredSeen(fields: seq<Field>, seen: set<nat>) {
    forall i | 0 <= i < |fields| ::
      fields[i].htype.Required? && RequiredBefore(fields, i) < PB_MAX_REQUIRED_FIELDS ==> i in seen
  }

  /** pb_decode_noinit: the message afterwards, and the bytes left after a zero key. */
  function DecodeNoinit(fields: seq<Field>, s: bytes, m: Msg): (p: Parse<Msg>)
    requires |m.slots| == |fields|
    ensures p.Parsed? ==> |p.value.slots| == |fields| && |p.rest| <= |s|
    decreases fields, 3
  {
    match DecLoop(fields, s, Start(m))
    case Failed => Bad
    case Ended(st, r, _) =>
      if FixedComplete(fields, st) && RequiredSeen(fields, st.seen) then Parsed(st.msg, r) else Bad
  }

  /** pb_decode */
  function Decode(fields: seq<Field>, s: bytes): (p: Parse<Msg>)
    ensures p.Parsed? ==> |p.value.slots| == |fields| && |p.rest| <= |s|
  {
    DecodeNoinit(fields, s, Defaults(fields))
  }
}
