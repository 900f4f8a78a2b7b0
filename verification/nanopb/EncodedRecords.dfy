/** The encoder's output as a sequence of records, and what may be done to that sequence. */
module EncodedRecords {
  import opened Bits
  import opened Descriptor
  import opened Equality
  import opened FieldOrder
  import opened ForwardCompat
  import opened MergeRun
  import opened Merging
  import opened RoundTrip
  import opened ScalarRoundTrip
  import opened Varint
  import opened WireDecode
  import opened WireEncode
  import opened WireForm

  /** The records of an unpacked array. */
  function ItemRecs(f: Field, i: nat, items: seq<Value>): seq<Rec> {
    if items == [] then []
    else [Known(i, WireType(f.ltype), Body(f, items[0]))] + ItemRecs(f, i, items[1..])
  }

  function Body(f: Field, v: Value): bytes {
    match EncElem(f, v) { case None => [] case Some(b) => b }
  }

  /** The records that field i, whose storage cell holds s, contributes to an encoding. */
  function SlotRecs(f: Field, i: nat, s: Slot): seq<Rec> {
    match f.htype
    case Required => if s.Single? then ItemRecs(f, i, [s.v]) else []
    case Optional =>
      if f.sizeOffset != 0 then (if s.Opt? && s.has then ItemRecs(f, i, [s.v]) else [])
      else if s.Single? && !IsZero(f, s.v) then ItemRecs(f, i, [s.v]) else []
    case Repeated =>
      if !s.Rep? || s.items == [] then []
      else if Packable(f.ltype) then
        match EncItems(f, s.items) { case None => [] case Some(b) => [Known(i, WT_STRING, LengthPrefixed(b))] }
      else ItemRecs(f, i, s.items)
    case Oneof => if s.Union? && s.which == f.tag then ItemRecs(f, i, [s.v]) else []
  }

  function RecsFrom(fields: seq<Field>, i: nat, m: Msg): seq<Rec>
    requires i <= |fields| == |m.slots|
    decreases |fields| - i
  {
    if i == |fields| then [] else SlotRecs(fields[i], i, SlotOf(fields, m, i)) + RecsFrom(fields, i + 1, m)
  }

  lemma {:induction false} ConcatSplit(fields: seq<Field>, rs: seq<Rec>, ts: seq<Rec>)
    ensures Concat(fields, rs + ts) == Concat(fields, rs) + Concat(fields, ts)
  {
    if rs == [] {
      AppendNil(ts);
      AppendNil(Concat(fields, ts));
    } else {
      Assoc([rs[0]], rs[1..], ts);
      assert (rs + ts)[1..] == rs[1..] + ts;
      ConcatSplit(fields, rs[1..], ts);
      Assoc(RecBytes(fields, rs[0]), Concat(fields, rs[1..]), Concat(fields, ts));
    }
  }

  lemma {:induction false} ConcatOne(fields: seq<Field>, r: Rec)
    ensures Concat(fields, [r]) == RecBytes(fields, r)
  {
  }

  lemma {:induction false} ItemWholeAt(f: Field, v: Value, slot: Slot, k: nat, t: bytes)
    requires WellFormedField(f) && EncodableVal(f, v)
    requires f.htype.Repeated? ==> !Packable(f.ltype)
    ensures DecSlot(f, WireType(f.ltype), Body(f, v) + t, slot, k) ==
            WithRest(DecSlot(f, WireType(f.ltype), Body(f, v), slot, k), t)
  {
    hide EncElem, DecElem, MergeVal, MemberBase, EncodableVal;
    var e := Body(f, v);
    var prior := if f.htype.Oneof? then MemberBase(f, slot) else if f.htype.Repeated? then Num(0) else ValueOf(slot);
    ElemRun(f, v, prior, t);
    ElemRun(f, v, prior, []);
    AppendNil(e);
    assert DecElem(f, e + t, prior) == WithRest(DecElem(f, e, prior), t);
  }

  /** An encoded item is a complete record body. */
  lemma {:induction false} ItemWhole(f: Field, v: Value)
    requires WellFormedField(f) && EncodableVal(f, v)
    requires f.htype.Repeated? ==> !Packable(f.ltype)
    ensures Whole(f, WireType(f.ltype), Body(f, v))
  {
    hide DecSlot, WithRest;
    forall slot: Slot, k: nat, t: bytes
      ensures DecSlot(f, WireType(f.ltype), Body(f, v) + t, slot, k) ==
              WithRest(DecSlot(f, WireType(f.ltype), Body(f, v), slot, k), t)
    {
      ItemWholeAt(f, v, slot, k, t);
    }
  }

  lemma {:induction false} PackedWhole(f: Field, b: bytes)
    requires f.htype.Repeated? && Packable(f.ltype) && |b| < TWO32
    ensures Whole(f, WT_STRING, LengthPrefixed(b))
  {
    AppendNil(LengthPrefixed(b));
    forall slot: Slot, k: nat, t: bytes
      ensures DecSlot(f, WT_STRING, LengthPrefixed(b) + t, slot, k) ==
          WithRest(DecSlot(f, WT_STRING, LengthPrefixed(b), slot, k), t)
    {
      hide DecPacked, TakeString;
      StringRoundTrip(b, t);
      StringRoundTrip(b, []);
    }
  }

  lemma {:induction false} ItemRecsOk(fields: seq<Field>, i: nat, items: seq<Value>)
    requires i < |fields| && WellFormedField(fields[i])
    requires forall k | 0 <= k < |items| :: EncodableVal(fields[i], items[k])
    requires fields[i].htype.Repeated? ==> !Packable(fields[i].ltype)
    ensures RecsOk(fields, ItemRecs(fields[i], i, items)) && EncRecords(fields[i], items).Some?
    ensures Concat(fields, ItemRecs(fields[i], i, items)) == EncRecords(fields[i], items).value
  {
    hide Whole, EncElem;
    var f := fields[i];
    if items != [] {
      var r, rest := Known(i, WireType(f.ltype), Body(f, items[0])), ItemRecs(f, i, items[1..]);
      ItemWhole(f, items[0]);
      ValEncodes(f, items[0]);
      ItemRecsOk(fields, i, items[1..]);
      assert ItemRecs(f, i, items) == [r] + rest;
      assert ([r] + rest)[1..] == rest;
      assert RecOk(fields, r);
    }
  }

  /** The encoding of one item is its one record. */
  lemma {:induction false} SingleRecOk(fields: seq<Field>, i: nat, v: Value)
    requires i < |fields| && WellFormedField(fields[i]) && EncodableVal(fields[i], v) && !fields[i].htype.Repeated?
    ensures RecsOk(fields, ItemRecs(fields[i], i, [v])) && EncRecord(fields[i], v).Some?
    ensures Concat(fields, ItemRecs(fields[i], i, [v])) == EncRecord(fields[i], v).value
  {
    ItemRecsOk(fields, i, [v]);
    OneRecord(fields[i], v);
  }

  lemma {:induction false} SlotRecsOk(fields: seq<Field>, i: nat, s: Slot)
    requires i < |fields| && WellFormedField(fields[i]) && EncodableSlot(fields[i], s)
    ensures RecsOk(fields, SlotRecs(fields[i], i, s)) && EncSlot(fields[i], s).Some?
    ensures Concat(fields, SlotRecs(fields[i], i, s)) == EncSlot(fields[i], s).value
  {
    hide RecOk, ItemRecs, EncRecord, EncItems;
    var f := fields[i];
    match f.htype
    case Required => SingleRecOk(fields, i, s.v);
    case Optional => if (s.Opt? && s.has) || (s.Single? && !IsZero(f, s.v)) { SingleRecOk(fields, i, s.v); }
    case Oneof => if s.which == f.tag { SingleRecOk(fields, i, s.v); }
    case Repeated =>
      ItemsEncode(f, s.items);
      if s.items != [] {
        if Packable(f.ltype) {
          PackedRecOk(fields, i, EncItems(f, s.items).value);
        } else {
          ItemRecsOk(fields, i, s.items);
        }
      }
  }

  lemma {:induction false} PackedRecOk(fields: seq<Field>, i: nat, b: bytes)
    requires i < |fields| && fields[i].htype.Repeated? && Packable(fields[i].ltype) && |b| < TWO32
    ensures var r := Known(i, WT_STRING, LengthPrefixed(b));
            RecOk(fields, r) && Concat(fields, [r]) == TagBytes(fields[i].tag, WT_STRING) + LengthPrefixed(b)
  {
    PackedWhole(fields[i], b);
    ConcatOne(fields, Known(i, WT_STRING, LengthPrefixed(b)));
  }

  /** Every record is known, and its body is a payload of its wire type. */
  ghost predicate Payloads(rs: seq<Rec>) {
    forall k | 0 <= k < |rs| :: rs[k].Known? && IsPayload(rs[k].wt, rs[k].body)
  }

  lemma {:induction false} ItemPayloads(f: Field, i: nat, items: seq<Value>)
    requires WellFormedField(f) && forall k | 0 <= k < |items| :: EncodableVal(f, items[k])
    ensures Payloads(ItemRecs(f, i, items))
  {
    hide IsPayload, EncElem, EncodableVal, WellFormedField;
    if items != [] {
      assert EncodableVal(f, items[0]);
      ItemIsPayload(f, items[0]);
      ItemPayloads(f, i, items[1..]);
    }
  }

  lemma {:induction false} SlotPayloads(f: Field, i: nat, s: Slot)
    requires WellFormedField(f) && EncodableSlot(f, s)
    ensures Payloads(SlotRecs(f, i, s))
  {
    hide IsPayload, EncItems, EncodableVal, IsZero;
    match s
    case Void =>
    case Single(v) => ItemPayloads(f, i, [v]);
    case Opt(has, v) => if has { ItemPayloads(f, i, [v]); }
    case Union(which, v) => if which == f.tag { ItemPayloads(f, i, [v]); }
    case Rep(items) =>
      ItemPayloads(f, i, items);
      if Packable(f.ltype) && EncItems(f, items).Some? {
        PayloadOf(EncItems(f, items).value);
      }
  }

  lemma {:induction false} NoPayloads()
    ensures Payloads([])
  {
  }

  lemma {:induction false} JoinPayloads(rs: seq<Rec>, ts: seq<Rec>)
    requires Payloads(rs) && Payloads(ts)
    ensures Payloads(rs + ts)
  {
  }

  /** pb_encode's output is the concatenation of its records, each of which could also be skipped. */
  lemma {:induction false} EncodedAsRecords(fields: seq<Field>, i: nat, m: Msg)
    requires WellFormed(fields) && Encodable(fields, m) && i <= |fields|
    ensures RecsOk(fields, RecsFrom(fields, i, m)) && Payloads(RecsFrom(fields, i, m)) && EncFrom(fields, i, m).Some?
    ensures Concat(fields, RecsFrom(fields, i, m)) == EncFrom(fields, i, m).value
    decreases |fields| - i
  {
    hide RecOk, SlotRecs, EncSlot, Concat, Payloads;
    if i < |fields| {
      SlotPayloads(fields[i], i, SlotOf(fields, m, i));
      SlotRecsOk(fields, i, SlotOf(fields, m, i));
      EncodedAsRecords(fields, i + 1, m);
      JoinPayloads(SlotRecs(fields[i], i, SlotOf(fields, m, i)), RecsFrom(fields, i + 1, m));
      ConcatSplit(fields, SlotRecs(fields[i], i, SlotOf(fields, m, i)), RecsFrom(fields, i + 1, m));
    } else {
      NoPayloads();
      ConcatNone(fields);
    }
  }

  lemma {:induction false} ConcatNone(fields: seq<Field>)
    ensures Concat(fields, []) == []
  {
  }

  /**
   Field order: whatever order the records of an encoding arrive in, as long as the records of
   each storage cell keep theirs, and whatever unknown records are mixed in, the decoder
   reproduces the message.
   */
  lemma {:induction false} ReorderedRoundTrip(fields: seq<Field>, m: Msg, rs: seq<Rec>)
    requires WellFormed(fields) && Encodable(fields, m) && NoFixedCount(fields)
    requires RecsOk(fields, rs) && SameCells(fields, RecsFrom(fields, 0, m), rs)
    ensures var p := Decode(fields, Concat(fields, rs));
            p.Parsed? && p.rest == [] && SameMsg(fields, m, p.value)
  {
    hide SameMsg, RecsOk, SameCells;
    EncodedAsRecords(fields, 0, m);
    OrderIndependent(fields, RecsFrom(fields, 0, m), rs, Defaults(fields));
    RoundTrips(fields, m);
  }
}
