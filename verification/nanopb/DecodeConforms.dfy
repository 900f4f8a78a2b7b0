/**
 Whatever the input, a message that has been decoded without error is a struct of its type:
 every integer is in its C type's range, every string is terminated inside its buffer, every
 byte string and every array count is within its storage, and every union tag is 0 or a member's.
 */
module DecodeConforms {
  import opened Bits
  import opened Descriptor
  import opened Equality
  import opened Varint
  import opened WireDecode
  import opened WireEncode
  import opened Wrappers

  // ----- defaults

  lemma {:induction false} DefaultValueFits(f: Field)
    requires WellFormedField(f)
    ensures Fits(f, DefaultValue(f))
    decreases f, 0
  {
    if f.ltype.Submessage? {
      DefaultsConform(f.ptr.fields);
    } else if !f.ptr.Default? && f.ltype.String? {
      StrLenIs([0], 0);
    } else if IsIntSize(f.dataSize) && !f.ptr.Default? {
      assert FitsSigned(0, f.dataSize);
    }
  }

  lemma {:induction false} DefaultsConform(fields: seq<Field>)
    requires WellFormed(fields)
    ensures Conforms(fields, Defaults(fields))
    decreases fields
  {
    forall i | 0 <= i < |fields| ensures SlotConforms(fields, i, Defaults(fields).slots[i]) {
      if !fields[i].htype.Repeated? && !fields[i].htype.Oneof? {
        DefaultValueFits(fields[i]);
      }
    }
  }

  // ----- data items

  lemma {:induction false} LEBound(b: bytes)
    ensures LEValue(b) < Pow2(8 * |b|)
  {
    if b != [] {
      LEBound(b[1..]);
      Pow2Values();
      Pow2Add(8, 8 * |b[1..]|);
      assert 8 * |b| == 8 + 8 * |b[1..]|;
    }
  }

  lemma {:induction false} TerminatedText(b: bytes)
    ensures StrLen(b + [0]) < |b + [0]|
  {
    if b != [] {
      TerminatedText(b[1..]);
      assert (b + [0])[1..] == b[1..] + [0];
    }
  }

  lemma {:induction false} IntsFit(f: Field, s: bytes)
    requires f.ltype.Bool? || f.ltype.Varint? || f.ltype.UVarint? || f.ltype.SVarint?
    ensures DecScalar(f, s).Parsed? ==> ScalarFits(f, DecScalar(f, s).value)
  {
  }

  lemma {:induction false} WordsFit(f: Field, s: bytes)
    requires f.ltype.Fixed32? || f.ltype.Fixed64?
    ensures DecScalar(f, s).Parsed? ==> ScalarFits(f, DecScalar(f, s).value)
  {
    hide LEValue, Pow2;
    var n := if f.ltype.Fixed32? then 4 else 8;
    if Take(n, s).Parsed? {
      LEBound(Take(n, s).value);
      Pow2Values();
    }
  }

  lemma {:induction false} BlobsFit(f: Field, s: bytes)
    requires f.ltype.Bytes? || f.ltype.String? || f.ltype.FixedLengthBytes?
    ensures DecScalar(f, s).Parsed? ==> ScalarFits(f, DecScalar(f, s).value)
  {
    hide Dec32;
    if Dec32(s).Parsed? {
      var n, r := Dec32(s).value, Dec32(s).rest;
      if n <= |r| {
        TerminatedText(r[..n]);
      }
    }
  }

  lemma {:induction false} ScalarConforms(f: Field, s: bytes)
    requires !f.ltype.Submessage?
    ensures DecScalar(f, s).Parsed? ==> ScalarFits(f, DecScalar(f, s).value)
  {
    hide DecScalar, ScalarFits;
    match f.ltype
    case Bool => IntsFit(f, s);
    case Varint => IntsFit(f, s);
    case UVarint => IntsFit(f, s);
    case SVarint => IntsFit(f, s);
    case Fixed32 => WordsFit(f, s);
    case Fixed64 => WordsFit(f, s);
    case Bytes => BlobsFit(f, s);
    case String => BlobsFit(f, s);
    case FixedLengthBytes => BlobsFit(f, s);
    case Submessage =>
  }

  /** A submessage that is merged into is itself a struct of its type. */
  predicate PriorOk(f: Field, prior: Value) {
    f.ltype.Submessage? && f.ptr.Fields? ==> Conforms(f.ptr.fields, Target(f.ptr.fields, f, prior))
  }

  lemma {:induction false} FittingPrior(f: Field, prior: Value)
    requires WellFormedField(f) && (Fits(f, prior) || prior == Num(0))
    ensures PriorOk(f, prior)
  {
    if f.ltype.Submessage? {
      DefaultsConform(f.ptr.fields);
    }
  }

  lemma {:induction false} ElemConforms(f: Field, s: bytes, prior: Value)
    requires WellFormedField(f) && PriorOk(f, prior)
    ensures DecElem(f, s, prior).Parsed? ==> Fits(f, DecElem(f, s, prior).value)
    decreases f, 0
  {
    hide TakeString, DecScalar;
    if f.ltype.Submessage? {
      if TakeString(s).Parsed? {
        NoinitConforms(f.ptr.fields, TakeString(s).value, Target(f.ptr.fields, f, prior));
      }
    } else {
      ScalarConforms(f, s);
    }
  }

  // ----- storage cells

  /** All the items fit their array. */
  predicate ArrayOk(f: Field, items: seq<Value>) {
    |items| <= f.arraySize && forall j | 0 <= j < |items| :: Fits(f, items[j])
  }

  lemma {:induction false} PutOk(f: Field, items: seq<Value>, k: nat, v: Value)
    requires ArrayOk(f, items) && k <= |items| && k < f.arraySize && Fits(f, v)
    ensures ArrayOk(f, Put(items, k, v)) && k + 1 <= |Put(items, k, v)|
  {
  }

  lemma {:induction false} PackedConforms(f: Field, s: bytes, items: seq<Value>, k: nat)
    requires WellFormedField(f) && Packable(f.ltype) && ArrayOk(f, items) && k <= |items|
    ensures var r := DecPacked(f, s, items, k);
            r.Some? ==> ArrayOk(f, r.value.0) && r.value.1 <= |r.value.0| && (k == |items| ==> r.value.1 == |r.value.0|)
    decreases |s|
  {
    hide DecScalar, ArrayOk, ScalarFits;
    if s != [] && k < f.arraySize && DecScalar(f, s).Parsed? {
      ScalarConforms(f, s);
      var v := DecScalar(f, s).value;
      PutOk(f, items, k, v);
      PackedConforms(f, DecScalar(f, s).rest, Put(items, k, v), k + 1);
    }
  }

  /** What a repeated field's decoder leaves. */
  lemma {:induction false} RepeatedConforms(f: Field, wt: nat, s: bytes, slot: Slot, k: nat)
    requires WellFormedField(f) && f.htype.Repeated? && ArrayOk(f, ItemsOf(slot)) && k <= |ItemsOf(slot)|
    ensures var p := DecSlot(f, wt, s, slot, k);
            p.Parsed? ==> p.value.0.Rep? && ArrayOk(f, p.value.0.items) && p.value.1 <= |p.value.0.items| &&
                          (k == |ItemsOf(slot)| ==> p.value.1 == |p.value.0.items|)
    decreases f, 1
  {
    hide TakeString, DecElem, DecPacked, ArrayOk, Fits;
    if wt == WT_STRING && Packable(f.ltype) {
      if TakeString(s).Parsed? {
        PackedConforms(f, TakeString(s).value, ItemsOf(slot), k);
      }
    } else if k < f.arraySize {
      FittingPrior(f, Num(0));
      ElemConforms(f, s, Num(0));
      if DecElem(f, s, Num(0)).Parsed? {
        PutOk(f, ItemsOf(slot), k, DecElem(f, s, Num(0)).value);
      }
    }
  }

  /** The value a union member is decoded into. */
  lemma {:induction false} MemberPrior(fields: seq<Field>, i: nat, s: Slot)
    requires WellFormed(fields) && i < |fields| && fields[i].htype.Oneof? && SlotConforms(fields, Home(fields, i), s)
    ensures PriorOk(fields[i], MemberBase(fields[i], s))
  {
    hide Fits, DefaultValue;
    HomeFacts(fields, i);
    var f := fields[i];
    assert 0 < f.tag;
    if f.ltype.Submessage? {
      if s.which == f.tag {
        var j :| 0 <= j < |fields| && IsMember(fields, Home(fields, i), j, s.which) && Fits(fields[j], s.v);
        assert j == i;
        FittingPrior(f, s.v);
      } else {
        DefaultValueFits(f);
        FittingPrior(f, DefaultValue(f));
      }
    }
  }

  lemma {:induction false} SingleConforms(fields: seq<Field>, i: nat, wt: nat, s: bytes, slot: Slot, k: nat)
    requires WellFormed(fields) && i < |fields| && !fields[i].htype.Repeated?
    requires SlotConforms(fields, Home(fields, i), slot)
    ensures var p := DecSlot(fields[i], wt, s, slot, k);
            p.Parsed? ==> SlotConforms(fields, Home(fields, i), p.value.0)
    decreases fields[i], 1
  {
    hide DecElem, Fits;
    HomeFacts(fields, i);
    var f := fields[i];
    if f.htype.Oneof? {
      MemberPrior(fields, i, slot);
      ElemConforms(f, s, MemberBase(f, slot));
      assert IsMember(fields, Home(fields, i), i, f.tag);
    } else {
      FittingPrior(f, ValueOf(slot));
      ElemConforms(f, s, ValueOf(slot));
    }
  }

  // ----- the field loop

  /** The message is a struct of its type, and the item counter does not run ahead of its array. */
  predicate StateConforms(fields: seq<Field>, st: DState) {
    && StateOk(fields, st) && Conforms(fields, st.msg)
    && (st.fixedField.Some? ==>
          var i := st.fixedField.value;
          FixedCount(fields[i]) && st.fixedCount <= |ItemsOf(SlotOf(fields, st.msg, i))|)
  }

  lemma {:induction false} StoreConforms(fields: seq<Field>, i: nat, st: DState, slot: Slot, k: nat)
    requires i < |fields| && StateConforms(fields, st) && SlotConforms(fields, Home(fields, i), slot)
    requires FixedCount(fields[i]) ==> st.fixedField == Some(i) && slot.Rep? && k <= |slot.items|
    ensures StateConforms(fields, Store(fields, i, st, slot, k))
  {
    hide SlotConforms;
    HomeFacts(fields, i);
    if st.fixedField.Some? {
      HomeFacts(fields, st.fixedField.value);
    }
  }

  lemma {:induction false} FieldConforms(fields: seq<Field>, i: nat, wt: nat, s: bytes, st: DState)
    requires WellFormed(fields) && i < |fields| && StateConforms(fields, st)
    ensures var r := DecField(fields, i, wt, s, st);
            r.Next? ==> StateConforms(fields, r.st)
    decreases fields, 0
  {
    hide DecSlot, Fits;
    HomeFacts(fields, i);
    var t := Track(fields, i, st);
    if t.Some? {
      var slot, k := SlotOf(fields, st.msg, i), CountOf(fields, i, t.value);
      assert SlotConforms(fields, Home(fields, i), slot);
      var p := DecSlot(fields[i], wt, s, slot, k);
      if fields[i].htype.Repeated? {
        RepeatedConforms(fields[i], wt, s, slot, k);
      } else {
        SingleConforms(fields, i, wt, s, slot, k);
      }
      if p.Parsed? {
        StoreConforms(fields, i, t.value, p.value.0, p.value.1);
      }
    }
  }

  lemma {:induction false} LoopConforms(fields: seq<Field>, s: bytes, st: DState)
    requires WellFormed(fields) && StateConforms(fields, st)
    ensures var r := DecLoop(fields, s, st);
            r.Ended? ==> StateConforms(fields, r.st)
    decreases fields, 1, |s|
  {
    hide DecField, Conforms, Dec32, SkipUnknown;
    if s != [] && Dec32(s).Parsed? {
      var key, r := Dec32(s).value, Dec32(s).rest;
      var i := FindField(fields, key / 8);
      if key != 0 && i < |fields| {
        FieldConforms(fields, i, key % 8, r, st);
      }
      if Step(fields, s, st).Next? {
        LoopConforms(fields, Step(fields, s, st).rest, Step(fields, s, st).st);
      }
    }
  }

  /** Any input that is accepted leaves a struct of the descriptor's type. */
  lemma {:induction false} NoinitConforms(fields: seq<Field>, s: bytes, m: Msg)
    requires WellFormed(fields) && Conforms(fields, m)
    ensures DecodeNoinit(fields, s, m).Parsed? ==> Conforms(fields, DecodeNoinit(fields, s, m).value)
    decreases fields, 2
  {
    hide DecLoop, SlotConforms;
    LoopConforms(fields, s, Start(m));
  }

  lemma {:induction false} DecodedConforms(fields: seq<Field>, s: bytes)
    requires WellFormed(fields)
    ensures Decode(fields, s).Parsed? ==> Conforms(fields, Decode(fields, s).value)
  {
    DefaultsConform(fields);
    NoinitConforms(fields, s, Defaults(fields));
  }
}
