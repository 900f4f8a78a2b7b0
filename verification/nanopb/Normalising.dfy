/** A message that was accepted can be encoded again, and survives it. */
module Normalising {
  import opened Bits
  import opened DecodeConforms
  import opened Descriptor
  import opened Equality
  import opened Merging
  import opened RoundTrip
  import opened Varint
  import opened WireDecode
  import opened WireEncode

  /** What re-encoding asks for beyond the struct's type: fixed-count arrays are full, lengths fit 32 bits. */
  predicate Complete(fields: seq<Field>, m: Msg)
    decreases fields
  {
    |m.slots| == |fields| && forall i | 0 <= i < |fields| :: CompleteSlot(fields[i], SlotOf(fields, m, i))
  }

  predicate CompleteVal(f: Field, v: Value)
    decreases f, 0
  {
    f.ltype.Submessage? && f.ptr.Fields? && v.Nested? ==>
      Complete(f.ptr.fields, v.m) &&
      (EncMsg(f.ptr.fields, v.m).Some? ==> |EncMsg(f.ptr.fields, v.m).value| < TWO32)
  }

  predicate CompleteSlot(f: Field, s: Slot)
    decreases f, 1
  {
    match f.htype
    case Required => s.Single? ==> CompleteVal(f, s.v)
    case Optional => if f.sizeOffset != 0 then s.Opt? && s.has ==> CompleteVal(f, s.v) else s.Single? ==>
        CompleteVal(f, s.v)
    case Repeated =>
      s.Rep? ==>
        && (FixedCount(f) ==> |s.items| == f.arraySize)
        && (forall k | 0 <= k < |s.items| :: CompleteVal(f, s.items[k]))
        && (Packable(f.ltype) && EncItems(f, s.items).Some? ==> |EncItems(f, s.items).value| < TWO32)
    case Oneof => s.Union? && s.which == f.tag ==> CompleteVal(f, s.v)
  }

  lemma {:induction false} FittingValue(f: Field, v: Value)
    requires WellFormedField(f) && Fits(f, v) && CompleteVal(f, v)
    ensures EncodableVal(f, v)
    decreases f, 0
  {
    if f.ltype.Submessage? {
      ConformingEncodable(f.ptr.fields, v.m);
    }
  }

  /** The contents of field i's storage cell, which is that of its own or of its union. */
  lemma {:induction false} FittingSlot(fields: seq<Field>, i: nat, s: Slot)
    requires WellFormed(fields) && i < |fields| && SlotConforms(fields, Home(fields, i), s) &&
        CompleteSlot(fields[i], s)
    ensures EncodableSlot(fields[i], s) && WhichOk(fields, i, s)
    decreases fields, 0
  {
    hide Fits, EncodableVal, CompleteVal, WellFormedField;
    var f := fields[i];
    HomeFacts(fields, i);
    match f.htype
    case Required => FittingValue(f, s.v);
    case Optional => FittingValueIf(f, s);
    case Repeated =>
      forall k | 0 <= k < |s.items| ensures EncodableVal(f, s.items[k]) {
        FittingValue(f, s.items[k]);
      }
    case Oneof =>
      if s.which != 0 {
        var j :| 0 <= j < |fields| && IsMember(fields, Home(fields, i), j, s.which) && Fits(fields[j], s.v);
        if s.which == f.tag {
          assert i == j;
          FittingValue(f, s.v);
        }
      }
  }

  lemma {:induction false} FittingValueIf(f: Field, s: Slot)
    requires WellFormedField(f) && f.htype.Optional? && CompleteSlot(f, s)
    requires if f.sizeOffset != 0 then s.Opt? && Fits(f, s.v) else s.Single? && Fits(f, s.v)
    ensures EncodableSlot(f, s)
    decreases f, 1
  {
    hide Fits, EncodableVal, CompleteVal, WellFormedField;
    if f.sizeOffset == 0 || s.has {
      FittingValue(f, s.v);
    }
  }

  /** A struct of its type that is complete can be encoded. */
  lemma {:induction false} ConformingEncodable(fields: seq<Field>, m: Msg)
    requires WellFormed(fields) && Conforms(fields, m) && Complete(fields, m)
    ensures Encodable(fields, m)
    decreases fields, 1
  {
    hide SlotConforms, CompleteSlot, EncodableSlot, WhichOk, WellFormed;
    forall i | 0 <= i < |fields|
      ensures EncodableSlot(fields[i], SlotOf(fields, m, i)) && WhichOk(fields, i, SlotOf(fields, m, i))
    {
      FittingSlot(fields, i, SlotOf(fields, m, i));
    }
  }

  /**
   Whatever input was accepted: if the message is complete, it can be encoded, and decoding that
   encoding succeeds to the last byte and gives an equal message.
   */
  lemma {:induction false} AcceptedNormalises(fields: seq<Field>, s: bytes)
    requires WellFormed(fields) && Decode(fields, s).Parsed? && Complete(fields, Decode(fields, s).value)
    ensures EncMsg(fields, Decode(fields, s).value).Some?
    ensures var m := Decode(fields, s).value;
            var p := Decode(fields, EncMsg(fields, m).value);
            p.Parsed? && p.rest == [] && SameMsg(fields, m, p.value)
  {
    DecodedConforms(fields, s);
    ConformingEncodable(fields, Decode(fields, s).value);
    RoundTrips(fields, Decode(fields, s).value);
  }
}
