/** Exactly which messages the encoder accepts. */
module EncodeSucceeds {
  import opened Descriptor
  import opened Varint
  import opened WireEncode

  /** The item is of the field's kind and within its size. */
  predicate ItemGood(f: Field, v: Value)
    decreases f, 0
  {
    match f.ltype
    case Varint => v.Num?
    case UVarint => v.Num?
    case SVarint => v.Num?
    case Bytes => v.Blob? && BYTES_OFFSET + |v.b| <= f.dataSize
    case FixedLengthBytes => v.Blob? && |v.b| == f.dataSize
    case String => v.Text?
    case Submessage => v.Nested? && f.ptr.Fields? && MsgGood(f.ptr.fields, v.m)
    case _ => true
  }

  predicate ItemsGood(f: Field, items: seq<Value>)
    decreases f, 1
  {
    forall k | 0 <= k < |items| :: ItemGood(f, items[k])
  }

  /** What is sent of the field is good, and an array has as many items as it may or must have. */
  predicate SlotGood(f: Field, s: Slot)
    decreases f, 2
  {
    match f.htype
    case Required => s.Single? && ItemGood(f, s.v)
    case Optional =>
      if f.sizeOffset != 0 then s.Opt? && (s.has ==> ItemGood(f, s.v))
      else s.Single? && (IsZero(f, s.v) || ItemGood(f, s.v))
    case Repeated =>
      s.Rep? && (if f.sizeOffset == 0 then |s.items| == f.arraySize else |s.items| <= f.arraySize) &&
      ItemsGood(f, s.items)
    case Oneof => s.Union? && (s.which == f.tag ==> ItemGood(f, s.v))
  }

  predicate MsgGood(fields: seq<Field>, m: Msg)
    decreases fields
  {
    |m.slots| == |fields| && forall i | 0 <= i < |fields| :: SlotGood(fields[i], SlotOf(fields, m, i))
  }

  lemma {:induction false} ItemEncodes(f: Field, v: Value)
    requires WellFormedField(f)
    ensures EncElem(f, v).Some? <==> ItemGood(f, v)
    decreases f, 0
  {
    if f.ltype.Submessage? && v.Nested? {
      EncodesWhen(f.ptr.fields, v.m);
    } else if f.ltype.Bytes? {
      assert BytesCapacity(f) % TWO64 == BytesCapacity(f);
    }
  }

  lemma {:induction false} AllGood(f: Field, items: seq<Value>)
    requires items != []
    ensures ItemsGood(f, items) <==> ItemGood(f, items[0]) && ItemsGood(f, items[1..])
  {
    assert forall k | 0 < k < |items| :: items[k] == items[1..][k - 1];
  }

  lemma {:induction false} ItemsEncodeWhen(f: Field, items: seq<Value>)
    requires WellFormedField(f)
    ensures EncItems(f, items).Some? <==> ItemsGood(f, items)
    ensures EncRecords(f, items).Some? <==> ItemsGood(f, items)
    decreases f, 1, |items|
  {
    hide EncElem, ItemGood, WellFormedField;
    if items != [] {
      AllGood(f, items);
      ItemEncodes(f, items[0]);
      ItemsEncodeWhen(f, items[1..]);
    }
  }

  lemma {:induction false} SlotEncodesWhen(f: Field, s: Slot)
    requires WellFormedField(f)
    ensures EncSlot(f, s).Some? <==> SlotGood(f, s)
    decreases f, 2
  {
    hide EncElem, ItemGood, ItemsGood, WellFormedField, IsZero, EncItems, EncRecords;
    match s
    case Void =>
    case Single(v) => ItemEncodes(f, v);
    case Opt(_, v) => ItemEncodes(f, v);
    case Union(_, v) => ItemEncodes(f, v);
    case Rep(items) =>
      ItemsEncodeWhen(f, items);
      NoItems(f);
  }

  lemma {:induction false} NoItems(f: Field)
    ensures ItemsGood(f, [])
  {
  }

  lemma {:induction false} FromEncodesWhen(fields: seq<Field>, i: nat, m: Msg)
    requires WellFormed(fields) && i <= |fields| == |m.slots|
    ensures EncFrom(fields, i, m).Some? <==>
            forall j | i <= j < |fields| :: SlotGood(fields[j], SlotOf(fields, m, j))
    decreases fields, |fields| - i
  {
    hide EncSlot, SlotGood, WellFormedField;
    if i < |fields| {
      SlotEncodesWhen(fields[i], SlotOf(fields, m, i));
      FromEncodesWhen(fields, i + 1, m);
    }
  }

  /** Encoding succeeds if and only if everything that is to be sent, down through submessages, is good. */
  lemma {:induction false} EncodesWhen(fields: seq<Field>, m: Msg)
    requires WellFormed(fields)
    ensures EncMsg(fields, m).Some? <==> MsgGood(fields, m)
    decreases fields, |fields| + 1
  {
    if |m.slots| == |fields| {
      FromEncodesWhen(fields, 0, m);
    }
  }
}
