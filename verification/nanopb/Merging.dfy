/**
 Merging one message into another: the last scalar wins, repeated fields append, submessages
 merge recursively. None means that a repeated field would grow beyond its array.
 */
module Merging {
  import opened Descriptor
  import opened ScalarRoundTrip
  import opened Varint
  import opened WireDecode
  import opened WireEncode
  import opened Wrappers

  // ----- messages that can be encoded

  /** The item fits its field, and every length in it can be read back by the decoder. */
  predicate EncodableVal(f: Field, v: Value)
    decreases f, 0
  {
    if f.ltype.Submessage? then
      f.ptr.Fields? && v.Nested? && Encodable(f.ptr.fields, v.m) &&
      (EncMsg(f.ptr.fields, v.m).Some? ==> |EncMsg(f.ptr.fields, v.m).value| < TWO32)
    else ScalarFits(f, v)
  }

  /** The contents of field f's storage cell; the value of an absent optional field is arbitrary. */
  predicate EncodableSlot(f: Field, s: Slot)
    decreases f, 1
  {
    match f.htype
    case Required => s.Single? && EncodableVal(f, s.v)
    case Optional =>
      if f.sizeOffset != 0 then s.Opt? && (s.has ==> EncodableVal(f, s.v)) else s.Single? && EncodableVal(f, s.v)
    case Repeated =>
      && s.Rep? && |s.items| <= f.arraySize && (FixedCount(f) ==> |s.items| == f.arraySize)
      && (forall k | 0 <= k < |s.items| :: EncodableVal(f, s.items[k]))
      && (Packable(f.ltype) && EncItems(f, s.items).Some? ==> |EncItems(f, s.items).value| < TWO32)
    case Oneof => s.Union? && (s.which == f.tag ==> EncodableVal(f, s.v))
  }

  predicate Encodable(fields: seq<Field>, m: Msg)
    decreases fields
  {
    && |m.slots| == |fields|
    && (forall i | 0 <= i < |fields| :: EncodableSlot(fields[i], SlotOf(fields, m, i)))
    && (forall i | 0 <= i < |fields| :: WhichOk(fields, i, SlotOf(fields, m, i)))
  }

  /** A union's tag member is 0 or the tag of one of its members. */
  predicate WhichOk(fields: seq<Field>, i: nat, s: Slot)
    requires i < |fields|
  {
    s.Union? && s.which != 0 ==> exists j | 0 <= j < |fields| :: IsMember(fields, Home(fields, i), j, s.which)
  }

  // ----- merging

  function MergeVal(f: Field, prior: Value, v: Value): Option<Value>
    decreases f, 0
  {
    if !f.ltype.Submessage? then Some(Canonical(f, v))
    else if !(v.Nested? && f.ptr.Fields?) then None
    else
      match Merge(f.ptr.fields, Target(f.ptr.fields, f, prior), v.m)
      case None => None
      case Some(m) => Some(Nested(m))
  }

  /** The items of src are written one by one, from index k on. */
  function MergeItems(f: Field, items: seq<Value>, k: nat, src: seq<Value>): Option<seq<Value>>
    decreases f, 1, |src|
  {
    if src == [] then Some(items)
    else if k >= f.arraySize then None
    else
      match MergeVal(f, Num(0), src[0])
      case None => None
      case Some(v) => MergeItems(f, Put(items, k, v), k + 1, src[1..])
  }

  /** Field f of a message with cell b is merged over the cell a. */
  function MergeSlot(f: Field, a: Slot, b: Slot): Option<Slot>
    decreases f, 2
  {
    match f.htype
    case Required => if b.Single? then WrapSingle(MergeVal(f, ValueOf(a), b.v)) else None
    case Optional =>
      if f.sizeOffset != 0 then
        if b.Opt? && b.has then WrapOpt(MergeVal(f, ValueOf(a), b.v)) else Some(a)
      else
        if b.Single? && !IsZero(f, b.v) then WrapSingle(MergeVal(f, ValueOf(a), b.v)) else Some(a)
    case Repeated =>
      if b.Rep? && b.items != [] then
        WrapRep(MergeItems(f, ItemsOf(a), if FixedCount(f) then 0 else |ItemsOf(a)|, b.items))
      else Some(a)
    case Oneof =>
      if b.Union? && b.which == f.tag then WrapUnion(f.tag, MergeVal(f, MemberBase(f, a), b.v)) else Some(a)
  }

  function WrapSingle(v: Option<Value>): Option<Slot> {
    if v.Some? then Some(Single(v.value)) else None
  }

  function WrapOpt(v: Option<Value>): Option<Slot> {
    if v.Some? then Some(Opt(true, v.value)) else None
  }

  function WrapRep(items: Option<seq<Value>>): Option<Slot> {
    if items.Some? then Some(Rep(items.value)) else None
  }

  function WrapUnion(which: nat, v: Option<Value>): Option<Slot> {
    if v.Some? then Some(Union(which, v.value)) else None
  }

  /** The fields of b from index i on are merged into a. */
  function MergeFrom(fields: seq<Field>, i: nat, a: Msg, b: Msg): (r: Option<Msg>)
    requires i <= |fields| == |a.slots| == |b.slots|
    ensures r.Some? ==> |r.value.slots| == |fields|
    decreases fields, |fields| - i
  {
    if i == |fields| then Some(a)
    else
      match MergeSlot(fields[i], SlotOf(fields, a, i), SlotOf(fields, b, i))
      case None => None
      case Some(s) => MergeFrom(fields, i + 1, WithSlot(fields, a, i, s), b)
  }

  function Merge(fields: seq<Field>, a: Msg, b: Msg): (r: Option<Msg>)
    requires |a.slots| == |fields|
    ensures r.Some? ==> |r.value.slots| == |fields|
    decreases fields, |fields| + 1
  {
    if |b.slots| == |fields| then MergeFrom(fields, 0, a, b) else None
  }
}
