/**
 A reader whose descriptor is older than the writer's: it lacks some of the fields, also inside
 submessages. It accepts what the writer sends, and gets the fields that it has.
 */
module OldReader {
  import opened Bits
  import opened DecodeConforms
  import opened Descriptor
  import opened Equality
  import opened ForwardCompat
  import opened MergeRun
  import opened Merging
  import opened RoundTrip
  import opened Submessages
  import opened Varint
  import opened WireDecode
  import opened WireEncode
  import opened WireForm
  import opened Wrappers

  // ----- older descriptors

  /** The writer's index of the reader's field k. */
  function At(rs: seq<Field>, ws: seq<Field>, k: nat): (i: nat)
    requires k < |rs|
    ensures i <= |ws| && (i < |ws| ==> ws[i].tag == rs[k].tag)
  {
    FindField(ws, rs[k].tag)
  }

  /** The same field; the structs may be laid out differently, and submessages may lack fields. */
  predicate OlderField(r: Field, w: Field)
    decreases w
  {
    && r.tag == w.tag && r.htype == w.htype && r.ltype == w.ltype && r.arraySize == w.arraySize
    && (r.sizeOffset == 0 <==> w.sizeOffset == 0)
    && if w.ltype.Submessage? then r.ptr.Fields? && w.ptr.Fields? && Older(r.ptr.fields, w.ptr.fields)
       else r.dataSize == w.dataSize
  }

  /** Every field of rs is one of ws, in the same order and with the same unions. */
  predicate Older(rs: seq<Field>, ws: seq<Field>)
    decreases ws
  {
    && (forall k | 0 <= k < |rs| :: At(rs, ws, k) < |ws| && OlderField(rs[k], ws[At(rs, ws, k)]))
    && (forall k, l | 0 <= k < l < |rs| :: At(rs, ws, k) < At(rs, ws, l))
    && (forall k, l | 0 <= k < |rs| && 0 <= l < |rs| ::
          Home(rs, k) == Home(rs, l) <==> Home(ws, At(rs, ws, k)) == Home(ws, At(rs, ws, l)))
  }

  /** What an older reader can hold of a value. */
  function KnownVal(r: Field, w: Field, v: Value): Value
    requires OlderField(r, w)
    decreases w, 0
  {
    if w.ltype.Submessage? && v.Nested? && |v.m.slots| == |w.ptr.fields|
    then Nested(KnownMsg(r.ptr.fields, w.ptr.fields, v.m)) else v
  }

  function KnownItems(r: Field, w: Field, items: seq<Value>): (r': seq<Value>)
    requires OlderField(r, w)
    ensures |r'| == |items|
    decreases w, 1
  {
    seq(|items|, j requires 0 <= j < |items| => KnownVal(r, w, items[j]))
  }

  /** What it can hold of the storage cell of its field k; a union may hold a member that it lacks. */
  function KnownSlot(rs: seq<Field>, ws: seq<Field>, k: nat, s: Slot): Slot
    requires Older(rs, ws) && k < |rs|
    decreases ws, 0
  {
    var r, w := rs[k], ws[At(rs, ws, k)];
    match s
    case Void => Void
    case Single(v) => Single(KnownVal(r, w, v))
    case Opt(has, v) => Opt(has, KnownVal(r, w, v))
    case Rep(items) => Rep(KnownItems(r, w, items))
    case Union(which, v) =>
      var l := FindField(rs, which);
      if l < |rs| then Union(which, KnownVal(rs[l], ws[At(rs, ws, l)], v)) else NO_MEMBER
  }

  /** What it can hold of a message: of each of its fields, what the message has there. */
  function KnownMsg(rs: seq<Field>, ws: seq<Field>, m: Msg): (r: Msg)
    requires Older(rs, ws) && |m.slots| == |ws|
    ensures |r.slots| == |rs|
    decreases ws, 1
  {
    Msg(seq(|rs|, k requires 0 <= k < |rs| =>
      if Home(rs, k) == k then KnownSlot(rs, ws, k, SlotOf(ws, m, At(rs, ws, k))) else Void))
  }

  lemma {:induction false} KnownCell(rs: seq<Field>, ws: seq<Field>, m: Msg, k: nat)
    requires Older(rs, ws) && |m.slots| == |ws| && k < |rs|
    ensures SlotOf(rs, KnownMsg(rs, ws, m), k) == KnownSlot(rs, ws, Home(rs, k), SlotOf(ws, m, At(rs, ws, k)))
  {
    HomeFacts(rs, k);
  }

  // ----- what the reader holds can be encoded, in no more bytes

  lemma {:induction false} LongerLength(a: nat, b: nat)
    requires a <= b
    ensures |VarintBytes(a)| <= |VarintBytes(b)|
  {
    if a >= 128 {
      LongerLength(a / 128, b / 128);
    }
  }

  /** A field without a submessage is encoded alike. */
  lemma {:induction false} ScalarAlike(r: Field, w: Field, v: Value)
    requires OlderField(r, w) && !w.ltype.Submessage?
    ensures EncElem(r, v) == EncElem(w, v) && KnownVal(r, w, v) == v && EncRecord(r, v) == EncRecord(w, v)
  {
  }

  lemma {:induction false} ItemsAlike(r: Field, w: Field, items: seq<Value>)
    requires OlderField(r, w) && !w.ltype.Submessage?
    ensures EncItems(r, items) == EncItems(w, items) && EncRecords(r, items) == EncRecords(w, items)
    decreases |items|
  {
    hide EncElem, OlderField, EncRecord;
    if items != [] {
      ScalarAlike(r, w, items[0]);
      ItemsAlike(r, w, items[1..]);
    }
  }

  lemma {:induction false} SlotAlike(r: Field, w: Field, s: Slot)
    requires OlderField(r, w) && !w.ltype.Submessage?
    ensures EncSlot(r, s) == EncSlot(w, s) && (EncodableSlot(r, s) <==> EncodableSlot(w, s))
  {
    hide EncElem, EncRecord, EncItems, EncRecords;
    match s
    case Void =>
    case Rep(items) => ItemsAlike(r, w, items);
    case Single(v) => ScalarAlike(r, w, v);
    case Opt(_, v) => ScalarAlike(r, w, v);
    case Union(_, v) => ScalarAlike(r, w, v);
  }

  /** The reader's cell s' for the writer's cell s, seen from one field. */
  predicate HeldAs(r: Field, w: Field, s: Slot, s': Slot)
    requires OlderField(r, w)
  {
    match s
    case Void => s' == Void
    case Single(v) => s' == Single(KnownVal(r, w, v))
    case Opt(has, v) => s' == Opt(has, KnownVal(r, w, v))
    case Rep(items) => s' == Rep(KnownItems(r, w, items))
    case Union(which, v) =>
      s'.Union? && (which == 0 ==> s'.which == 0) &&
      if which == r.tag then s' == Union(which, KnownVal(r, w, v)) else s'.which != r.tag
  }

  lemma {:induction false} NoField(rs: seq<Field>, tag: nat)
    requires forall l | 0 <= l < |rs| :: rs[l].tag != tag
    ensures FindField(rs, tag) == |rs|
  {
  }

  lemma {:induction false} NoFieldZero(rs: seq<Field>)
    requires WellFormed(rs)
    ensures FindField(rs, 0) == |rs|
  {
    NoField(rs, 0);
  }

  lemma {:induction false} CellHeld(rs: seq<Field>, ws: seq<Field>, m: Msg, k: nat)
    requires WellFormed(rs) && Older(rs, ws) && |m.slots| == |ws| && k < |rs|
    requires SlotOf(ws, m, At(rs, ws, k)).Union? <==> rs[k].htype.Oneof?
    ensures HeldAs(rs[k], ws[At(rs, ws, k)], SlotOf(ws, m, At(rs, ws, k)), SlotOf(rs, KnownMsg(rs, ws, m), k))
  {
    hide KnownMsg, KnownVal, KnownItems, OlderField, WellFormedField;
    KnownCell(rs, ws, m, k);
    HomeFacts(rs, k);
    var s := SlotOf(ws, m, At(rs, ws, k));
    if s.Union? {
      var l := FindField(rs, s.which);
      assert rs[k].tag > 0;
      if s.which == rs[k].tag {
        FindFieldUnique(rs, k);
      }
      NoFieldZero(rs);
    }
  }

  /** A value that is not sent because it is zero is zero for the reader, too. */
  lemma {:induction false} ZeroKnown(r: Field, w: Field, v: Value)
    requires WellFormedField(r) && OlderField(r, w) && IsZero(w, v)
    ensures IsZero(r, KnownVal(r, w, v))
    decreases w, 0
  {
    if w.ltype.Submessage? {
      var rs, ws, m := r.ptr.fields, w.ptr.fields, v.m;
      forall l | 0 <= l < |rs| ensures IsDefault(rs[l], SlotOf(rs, KnownMsg(rs, ws, m), l)) {
        DefaultKnown(rs, ws, m, l);
      }
    }
  }

  lemma {:induction false} DefaultKnown(rs: seq<Field>, ws: seq<Field>, m: Msg, l: nat)
    requires WellFormed(rs) && Older(rs, ws) && |m.slots| == |ws| && l < |rs|
    requires IsDefault(ws[At(rs, ws, l)], SlotOf(ws, m, At(rs, ws, l)))
    ensures IsDefault(rs[l], SlotOf(rs, KnownMsg(rs, ws, m), l))
    decreases ws
  {
    hide KnownMsg, KnownVal, IsZero, WellFormedField;
    var w, s := ws[At(rs, ws, l)], SlotOf(ws, m, At(rs, ws, l));
    assert OlderField(rs[l], w) && WellFormedField(rs[l]);
    CellHeld(rs, ws, m, l);
    if w.htype.Optional? && s.Single? {
      ZeroKnown(rs[l], w, s.v);
    }
  }

  /** What the reader keeps of a value can be encoded. */
  lemma {:induction false} ValKnown(r: Field, w: Field, v: Value)
    requires WellFormedField(r) && WellFormedField(w) && OlderField(r, w) && EncodableVal(w, v)
    ensures EncodableVal(r, KnownVal(r, w, v)) && EncElem(w, v).Some? && EncElem(r, KnownVal(r, w, v)).Some?
    ensures |EncElem(r, KnownVal(r, w, v)).value| <= |EncElem(w, v).value|
    decreases w, 0
  {
    ValEncodes(w, v);
    if w.ltype.Submessage? {
      var rs, ws := r.ptr.fields, w.ptr.fields;
      MsgKnown(rs, ws, v.m);
      LongerLength(|EncMsg(rs, KnownMsg(rs, ws, v.m)).value|, |EncMsg(ws, v.m).value|);
    } else {
      ScalarAlike(r, w, v);
    }
  }

  lemma {:induction false} RecordKnown(r: Field, w: Field, v: Value)
    requires WellFormedField(r) && WellFormedField(w) && OlderField(r, w) && EncodableVal(w, v)
    ensures EncodableVal(r, KnownVal(r, w, v)) && EncRecord(w, v).Some? && EncRecord(r, KnownVal(r, w, v)).Some?
    ensures |EncRecord(r, KnownVal(r, w, v)).value| <= |EncRecord(w, v).value|
    decreases w, 1
  {
    hide EncElem, EncodableVal, KnownVal;
    ValKnown(r, w, v);
  }

  lemma {:induction false} ItemsKnown(r: Field, w: Field, items: seq<Value>)
    requires WellFormedField(r) && WellFormedField(w) && OlderField(r, w)
    requires forall j | 0 <= j < |items| :: EncodableVal(w, items[j])
    ensures forall j | 0 <= j < |items| :: EncodableVal(r, KnownItems(r, w, items)[j])
    ensures EncRecords(w, items).Some? && EncRecords(r, KnownItems(r, w, items)).Some?
    ensures |EncRecords(r, KnownItems(r, w, items)).value| <= |EncRecords(w, items).value|
    decreases w, 2, |items|
  {
    hide EncRecord, EncodableVal, KnownVal, WellFormedField, OlderField;
    if items != [] {
      RecordKnown(r, w, items[0]);
      ItemsKnown(r, w, items[1..]);
      var known := KnownItems(r, w, items);
      assert known[1..] == KnownItems(r, w, items[1..]);
      forall j | 0 <= j < |items| ensures EncodableVal(r, known[j]) {
        if j > 0 {
          assert known[j] == known[1..][j - 1];
        }
      }
    }
  }

  /** The same of a storage cell. */
  lemma {:induction false} SlotKnown(r: Field, w: Field, s: Slot, s': Slot)
    requires WellFormedField(r) && WellFormedField(w) && OlderField(r, w) && EncodableSlot(w, s)
    requires HeldAs(r, w, s, s')
    ensures EncodableSlot(r, s') && EncSlot(w, s).Some? && EncSlot(r, s').Some?
    ensures |EncSlot(r, s').value| <= |EncSlot(w, s).value|
    decreases w, 3
  {
    hide EncRecord, EncodableVal, KnownVal, WellFormedField, EncItems, EncRecords, IsZero;
    SlotEncodes(w, s);
    match s
    case Single(v) => SingleKnown(r, w, v);
    case Opt(has, v) => if has { RecordKnown(r, w, v); }
    case Rep(items) => ArrayKnown(r, w, items);
    case Union(which, v) => if which == w.tag { RecordKnown(r, w, v); }
  }

  lemma {:induction false} SingleKnown(r: Field, w: Field, v: Value)
    requires WellFormedField(r) && WellFormedField(w) && OlderField(r, w) && EncodableSlot(w, Single(v))
    ensures var s' := Single(KnownVal(r, w, v));
            && EncodableSlot(r, s') && EncSlot(w, Single(v)).Some? && EncSlot(r, s').Some?
            && |EncSlot(r, s').value| <= |EncSlot(w, Single(v)).value|
    decreases w, 2
  {
    hide EncRecord, EncodableVal, KnownVal, WellFormedField, IsZero;
    RecordKnown(r, w, v);
    if w.htype.Optional? && IsZero(w, v) {
      ZeroKnown(r, w, v);
    }
  }

  lemma {:induction false} ArrayKnown(r: Field, w: Field, items: seq<Value>)
    requires WellFormedField(r) && WellFormedField(w) && OlderField(r, w) && EncodableSlot(w, Rep(items))
    ensures var s, s' := Rep(items), Rep(KnownItems(r, w, items));
            && EncodableSlot(r, s') && EncSlot(w, s).Some? && EncSlot(r, s').Some?
            && |EncSlot(r, s').value| <= |EncSlot(w, s).value|
    decreases w, 2
  {
    hide EncRecord, EncodableVal, KnownVal, WellFormedField, EncItems, EncRecords;
    SlotEncodes(w, Rep(items));
    if w.ltype.Submessage? {
      ItemsKnown(r, w, items);
    } else {
      KeptItems(r, w, items);
      SlotAlike(r, w, Rep(items));
    }
  }

  lemma {:induction false} KeptItems(r: Field, w: Field, items: seq<Value>)
    requires OlderField(r, w) && !w.ltype.Submessage?
    ensures KnownItems(r, w, items) == items
  {
  }

  /** A union's member that the reader has belongs to the same union there. */
  lemma {:induction false} WhichKnown(rs: seq<Field>, ws: seq<Field>, m: Msg, k: nat)
    requires WellFormed(rs) && WellFormed(ws) && Older(rs, ws) && Encodable(ws, m) && k < |rs|
    ensures WhichOk(rs, k, SlotOf(rs, KnownMsg(rs, ws, m), k))
  {
    hide KnownMsg, KnownVal, OlderField, WellFormedField, EncodableSlot;
    KnownCell(rs, ws, m, k);
    var i := At(rs, ws, k);
    var s := SlotOf(ws, m, i);
    assert WhichOk(ws, i, s);
    if s.Union? && s.which != 0 && FindField(rs, s.which) < |rs| {
      var l := FindField(rs, s.which);
      var j :| 0 <= j < |ws| && IsMember(ws, Home(ws, i), j, s.which);
      assert ws[At(rs, ws, l)].tag == ws[j].tag;
      assert At(rs, ws, l) == j;
      assert IsMember(rs, Home(rs, k), l, s.which);
    }
  }

  lemma {:induction false} FieldKnown(rs: seq<Field>, ws: seq<Field>, m: Msg, k: nat)
    requires WellFormed(rs) && WellFormed(ws) && Older(rs, ws) && Encodable(ws, m) && k < |rs|
    ensures var s, s' := SlotOf(ws, m, At(rs, ws, k)), SlotOf(rs, KnownMsg(rs, ws, m), k);
            && HeldAs(rs[k], ws[At(rs, ws, k)], s, s')
            && EncodableSlot(rs[k], s') && EncSlot(ws[At(rs, ws, k)], s).Some? && EncSlot(rs[k], s').Some?
            && |EncSlot(rs[k], s').value| <= |EncSlot(ws[At(rs, ws, k)], s).value|
    decreases ws, 0
  {
    hide KnownMsg, HeldAs, WellFormedField, EncSlot;
    var i := At(rs, ws, k);
    assert EncodableSlot(ws[i], SlotOf(ws, m, i)) && OlderField(rs[k], ws[i]);
    CellHeld(rs, ws, m, k);
    SlotKnown(rs[k], ws[i], SlotOf(ws, m, i), SlotOf(rs, KnownMsg(rs, ws, m), k));
  }

  /** The reader's fields from k on are the writer's from i on. */
  predicate Ahead(rs: seq<Field>, ws: seq<Field>, i: nat, k: nat) {
    && k <= |rs| && i <= |ws|
    && (forall l | 0 <= l < k :: At(rs, ws, l) < i) && (forall l | k <= l < |rs| :: i <= At(rs, ws, l))
  }

  lemma {:induction false} Increasing(rs: seq<Field>, ws: seq<Field>, k: nat, l: nat)
    requires Older(rs, ws) && k < |rs| && l < |rs|
    ensures k < l <==> At(rs, ws, k) < At(rs, ws, l)
  {
  }

  lemma {:induction false} FoundAt(rs: seq<Field>, ws: seq<Field>, i: nat, l: nat)
    requires WellFormed(ws) && Older(rs, ws) && i < |ws| && l < |rs| && rs[l].tag == ws[i].tag
    ensures At(rs, ws, l) == i
  {
    FindFieldUnique(ws, i);
  }

  /** Field i is the reader's field k, or the reader lacks it. */
  lemma {:induction false} NextField(rs: seq<Field>, ws: seq<Field>, i: nat, k: nat)
    requires WellFormed(ws) && Older(rs, ws) && Ahead(rs, ws, i, k) && i < |ws|
    ensures if k < |rs| && At(rs, ws, k) == i then Ahead(rs, ws, i + 1, k + 1)
            else Ahead(rs, ws, i + 1, k) && FindField(rs, ws[i].tag) == |rs|
  {
    hide WellFormed, At;
    if k < |rs| {
      forall l | 0 <= l < |rs| ensures k < l <==> At(rs, ws, k) < At(rs, ws, l) {
        Increasing(rs, ws, k, l);
      }
    }
    var l := FindField(rs, ws[i].tag);
    if l < |rs| {
      FoundAt(rs, ws, i, l);
    }
  }

  lemma {:induction false} AllPassed(rs: seq<Field>, ws: seq<Field>, k: nat)
    requires Older(rs, ws) && Ahead(rs, ws, |ws|, k)
    ensures k == |rs|
  {
    if k < |rs| {
      InRange(rs, ws, k);
    }
  }

  lemma {:induction false} InRange(rs: seq<Field>, ws: seq<Field>, k: nat)
    requires Older(rs, ws) && k < |rs|
    ensures At(rs, ws, k) < |ws| && OlderField(rs[k], ws[At(rs, ws, k)])
  {
  }

  lemma {:induction false} FromKnown(rs: seq<Field>, ws: seq<Field>, m: Msg, i: nat, k: nat)
    requires WellFormed(rs) && WellFormed(ws) && Older(rs, ws) && Encodable(ws, m)
    requires i <= |ws| && k <= |rs| && Ahead(rs, ws, i, k)
    ensures EncFrom(ws, i, m).Some? && EncFrom(rs, k, KnownMsg(rs, ws, m)).Some?
    ensures |EncFrom(rs, k, KnownMsg(rs, ws, m)).value| <= |EncFrom(ws, i, m).value|
    decreases ws, 1, |ws| - i
  {
    hide KnownMsg, HeldAs, WellFormed, EncSlot, EncodableSlot, Older, Ahead, Encodable, SlotOf;
    FromEncodes(ws, i, m);
    if i < |ws| {
      NextField(rs, ws, i, k);
      if k < |rs| && At(rs, ws, k) == i {
        FieldKnown(rs, ws, m, k);
        FromKnown(rs, ws, m, i + 1, k + 1);
      } else {
        FromKnown(rs, ws, m, i + 1, k);
      }
    } else {
      AllPassed(rs, ws, k);
    }
  }

  /** The same of a message. */
  lemma {:induction false} MsgKnown(rs: seq<Field>, ws: seq<Field>, m: Msg)
    requires WellFormed(rs) && WellFormed(ws) && Older(rs, ws) && Encodable(ws, m)
    ensures Encodable(rs, KnownMsg(rs, ws, m)) && EncMsg(ws, m).Some? && EncMsg(rs, KnownMsg(rs, ws, m)).Some?
    ensures |EncMsg(rs, KnownMsg(rs, ws, m)).value| <= |EncMsg(ws, m).value|
    decreases ws, 2
  {
    hide KnownMsg, HeldAs, EncSlot, WhichOk, EncodableSlot;
    FromKnown(rs, ws, m, 0, 0);
    forall k | 0 <= k < |rs|
      ensures EncodableSlot(rs[k], SlotOf(rs, KnownMsg(rs, ws, m), k)) &&
          WhichOk(rs, k, SlotOf(rs, KnownMsg(rs, ws, m), k))
    {
      FieldKnown(rs, ws, m, k);
      WhichKnown(rs, ws, m, k);
    }
  }

  // ----- fields that the reader lacks

  lemma {:induction false} SkipRecord(rs: seq<Field>, w: Field, v: Value, st: DState, t: bytes)
    requires StateOk(rs, st) && WellFormedField(w) && UnknownTag(rs, w.tag) && EncodableVal(w, v)
    ensures EncRecord(w, v).Some? && DecLoop(rs, EncRecord(w, v).value + t, st) == DecLoop(rs, t, st)
  {
    hide Step, DecLoop, EncElem;
    ItemIsPayload(w, v);
    StepUnknown(rs, w.tag, WireType(w.ltype), EncElem(w, v).value, t, st);
    UnknownTurn(rs, EncRecord(w, v).value, t, st);
  }

  lemma {:induction false} UnknownTurn(rs: seq<Field>, u: bytes, t: bytes, st: DState)
    requires StateOk(rs, st) && Step(rs, u + t, st) == Next(st, t)
    ensures DecLoop(rs, u + t, st) == DecLoop(rs, t, st)
  {
  }

  lemma {:induction false} SkipRecords(rs: seq<Field>, w: Field, items: seq<Value>, st: DState, t: bytes)
    requires StateOk(rs, st) && WellFormedField(w) && UnknownTag(rs, w.tag)
    requires forall j | 0 <= j < |items| :: EncodableVal(w, items[j])
    ensures EncRecords(w, items).Some? && DecLoop(rs, EncRecords(w, items).value + t, st) == DecLoop(rs, t, st)
    decreases |items|
  {
    hide DecLoop, EncRecord, WellFormedField, EncodableVal;
    if items == [] {
      AppendNil(t);
    } else {
      SkipRecords(rs, w, items[1..], st, t);
      var x, y := EncRecord(w, items[0]), EncRecords(w, items[1..]).value;
      assert EncodableVal(w, items[0]);
      SkipRecord(rs, w, items[0], st, y + t);
      Assoc(x.value, y, t);
    }
  }

  lemma {:induction false} SkipPacked(rs: seq<Field>, tag: nat, b: bytes, st: DState, t: bytes)
    requires StateOk(rs, st) && UnknownTag(rs, tag) && |b| < TWO32
    ensures DecLoop(rs, (TagBytes(tag, 2) + LengthPrefixed(b)) + t, st) == DecLoop(rs, t, st)
  {
    hide Step, DecLoop;
    PayloadOf(b);
    StepUnknown(rs, tag, 2, LengthPrefixed(b), t, st);
    UnknownTurn(rs, TagBytes(tag, 2) + LengthPrefixed(b), t, st);
  }

  /** Everything the writer sends for a field that the reader lacks is passed over. */
  lemma {:induction false} SkipSlot(rs: seq<Field>, w: Field, s: Slot, st: DState, t: bytes)
    requires StateOk(rs, st) && WellFormedField(w) && UnknownTag(rs, w.tag) && EncodableSlot(w, s)
    ensures EncSlot(w, s).Some? && DecLoop(rs, EncSlot(w, s).value + t, st) == DecLoop(rs, t, st)
  {
    hide Step, DecLoop, EncRecord, EncItems, EncRecords, EncodableVal, IsZero;
    AppendNil(t);
    match w.htype
    case Required => SkipRecord(rs, w, s.v, st, t);
    case Optional => if s.Single? || s.has { SkipRecord(rs, w, s.v, st, t); }
    case Oneof => if s.which == w.tag { SkipRecord(rs, w, s.v, st, t); }
    case Repeated =>
      ItemsEncode(w, s.items);
      SkipRecords(rs, w, s.items, st, t);
      if Packable(w.ltype) {
        SkipPacked(rs, w.tag, EncItems(w, s.items).value, st, t);
      }
  }

  // ----- fields that it has

  /** Two items are read alike, whatever the field held. */
  ghost predicate ReadAlike(r: Field, x: bytes, y: bytes, t: bytes) {
    forall prior: Value | PriorOk(r, prior) :: DecElem(r, x + t, prior) == DecElem(r, y + t, prior)
  }

  lemma {:induction false} ElemOld(r: Field, w: Field, v: Value, t: bytes)
    requires WellFormedField(r) && WellFormedField(w) && OlderField(r, w) && EncodableVal(w, v)
    ensures EncElem(w, v).Some? && EncElem(r, KnownVal(r, w, v)).Some?
    ensures ReadAlike(r, EncElem(w, v).value, EncElem(r, KnownVal(r, w, v)).value, t)
    decreases w, 1
  {
    hide DecElem, PriorOk;
    ValKnown(r, w, v);
    if w.ltype.Submessage? {
      forall prior: Value | PriorOk(r, prior)
        ensures DecElem(r, EncElem(w, v).value + t, prior) == DecElem(r, EncElem(r, KnownVal(r, w, v)).value + t, prior)
      {
        SubmessageOld(r, w, v.m, prior, t);
      }
    } else {
      ScalarAlike(r, w, v);
    }
  }

  lemma {:induction false} SubmessageOld(r: Field, w: Field, m: Msg, prior: Value, t: bytes)
    requires WellFormedField(r) && WellFormedField(w) && OlderField(r, w) && w.ltype.Submessage?
    requires EncodableVal(w, Nested(m)) && PriorOk(r, prior)
    ensures var e := EncElem(r, KnownVal(r, w, Nested(m)));
            && EncElem(w, Nested(m)).Some? && e.Some?
            && DecElem(r, EncElem(w, Nested(m)).value + t, prior) == DecElem(r, e.value + t, prior)
    decreases w, 0
  {
    hide DecElem, DecodeNoinit, KnownMsg;
    var rs, ws := r.ptr.fields, w.ptr.fields;
    MsgKnown(rs, ws, m);
    SubRead(r, EncMsg(ws, m).value, prior, t);
    SubRead(r, EncMsg(rs, KnownMsg(rs, ws, m)).value, prior, t);
    MsgOld(rs, ws, m, Target(rs, r, prior));
  }

  /** The cell of field k holds something that may be merged into. */
  lemma {:induction false} CellPriors(rs: seq<Field>, k: nat, s: Slot)
    requires WellFormed(rs) && k < |rs| && SlotConforms(rs, Home(rs, k), s)
    ensures PriorOk(rs[k], Num(0))
    ensures rs[k].htype.Oneof? ==> PriorOk(rs[k], MemberBase(rs[k], s))
    ensures !rs[k].htype.Repeated? && !rs[k].htype.Oneof? ==> PriorOk(rs[k], ValueOf(s))
  {
    hide Fits, PriorOk;
    HomeFacts(rs, k);
    FittingPrior(rs[k], Num(0));
    if rs[k].htype.Oneof? {
      MemberPrior(rs, k, s);
    } else if !rs[k].htype.Repeated? {
      FittingPrior(rs[k], ValueOf(s));
    }
  }

  /** Two records are decoded alike. */
  lemma {:induction false} FieldAlike(rs: seq<Field>, k: nat, wt: nat, x: bytes, y: bytes, st: DState, t: bytes)
    requires WellFormed(rs) && k < |rs| && StateConforms(rs, st) && ReadAlike(rs[k], x, y, t)
    requires rs[k].htype.Repeated? ==> !Packable(rs[k].ltype)
    ensures DecField(rs, k, wt, x + t, st) == DecField(rs, k, wt, y + t, st)
  {
    hide DecElem, Fits, PriorOk;
    var s := SlotOf(rs, st.msg, k);
    HomeFacts(rs, k);
    assert SlotConforms(rs, Home(rs, k), s);
    CellPriors(rs, k, s);
  }

  lemma {:induction false} RecordOld(rs: seq<Field>, k: nat, w: Field, v: Value, st: DState, t: bytes)
    requires WellFormed(rs) && k < |rs| && WellFormedField(w) && OlderField(rs[k], w) && EncodableVal(w, v)
    requires rs[k].htype.Repeated? ==> !Packable(rs[k].ltype)
    requires StateOk(rs, st) && StateConforms(rs, st)
    ensures var y := EncRecord(rs[k], KnownVal(rs[k], w, v));
            && EncRecord(w, v).Some? && y.Some?
            && Step(rs, EncRecord(w, v).value + t, st) == Step(rs, y.value + t, st)
            && (Step(rs, y.value + t, st).Next? ==> StateConforms(rs, Step(rs, y.value + t, st).st))
    decreases w, 2
  {
    hide Step, DecField, StateConforms, ReadAlike, EncElem, KnownVal;
    var r := rs[k];
    var wt := WireType(r.ltype);
    ElemOld(r, w, v, t);
    var x, y := EncElem(w, v).value, EncElem(r, KnownVal(r, w, v)).value;
    FieldAlike(rs, k, wt, x, y, st, t);
    Assoc(Tagged(r), x, t);
    Assoc(Tagged(r), y, t);
    KeyRun(rs, k, wt, x + t, st);
    KeyRun(rs, k, wt, y + t, st);
    FieldConforms(rs, k, wt, y + t, st);
  }

  /** One record is decoded like the other, and so is whatever follows. */
  lemma {:induction false} OneOld(rs: seq<Field>, k: nat, w: Field, v: Value, st: DState, t: bytes)
    requires WellFormed(rs) && k < |rs| && WellFormedField(w) && OlderField(rs[k], w) && EncodableVal(w, v)
    requires !rs[k].htype.Repeated? && StateOk(rs, st) && StateConforms(rs, st)
    ensures var y := EncRecord(rs[k], KnownVal(rs[k], w, v));
            && EncRecord(w, v).Some? && y.Some?
            && DecLoop(rs, EncRecord(w, v).value + t, st) == DecLoop(rs, y.value + t, st)
    decreases w, 3
  {
    hide Step, DecLoop, StateConforms, EncElem, KnownVal;
    RecordOld(rs, k, w, v, st, t);
    var x, y := EncRecord(w, v).value, EncRecord(rs[k], KnownVal(rs[k], w, v)).value;
    RecordSome(w, v, t);
    RecordSome(rs[k], KnownVal(rs[k], w, v), t);
    LoopTurn(rs, x + t, st);
    LoopTurn(rs, y + t, st);
  }

  lemma {:induction false} RecordSome(f: Field, v: Value, t: bytes)
    requires EncRecord(f, v).Some?
    ensures EncRecord(f, v).value + t != []
  {
  }

  /** The items of an array of submessages. */
  lemma {:induction false} RecordsOld(rs: seq<Field>, k: nat, w: Field, items: seq<Value>, st: DState, t: bytes)
    requires WellFormed(rs) && k < |rs| && WellFormedField(rs[k]) && WellFormedField(w) && OlderField(rs[k], w)
    requires forall j | 0 <= j < |items| :: EncodableVal(w, items[j])
    requires rs[k].htype.Repeated? && rs[k].ltype.Submessage? && StateOk(rs, st) && StateConforms(rs, st)
    requires Track(rs, k, st).Some?
    ensures var y := EncRecords(rs[k], KnownItems(rs[k], w, items));
            && EncRecords(w, items).Some? && y.Some?
            && DecLoop(rs, EncRecords(w, items).value + t, st) == DecLoop(rs, y.value + t, st)
    decreases w, 3, |items|
  {
    hide Step, DecLoop, StateConforms, EncRecord, KnownVal, EncodableVal, OlderField, WellFormed, MergeVal;
    var r := rs[k];
    ItemsKnown(r, w, items);
    if items != [] {
      var v, rest := items[0], items[1..];
      assert items == [v] + rest && EncodableVal(w, v);
      var v', rest' := KnownVal(r, w, v), KnownItems(r, w, rest);
      assert KnownItems(r, w, items) == [v'] + rest';
      ItemsKnown(r, w, rest);
      var x, x' := EncRecord(w, v).value, EncRecords(w, rest).value;
      var y, y' := EncRecord(r, v').value, EncRecords(r, rest').value;
      RecordsCons(w, v, rest, t);
      RecordsCons(r, v', rest', t);
      RecordOld(rs, k, w, v, st, x' + t);
      ItemEnds(rs, k, v', st, x' + t, y' + t);
      RecordSome(w, v, x' + t);
      RecordSome(r, v', y' + t);
      LoopTurn(rs, x + (x' + t), st);
      LoopTurn(rs, y + (y' + t), st);
      if Step(rs, y + (x' + t), st).Next? {
        RecordsOld(rs, k, w, rest, Step(rs, y + (x' + t), st).st, t);
      }
    }
  }

  /** What follows an item has no part in it. */
  lemma {:induction false} ItemEnds(rs: seq<Field>, k: nat, v: Value, st: DState, t: bytes, t': bytes)
    requires WellFormed(rs) && k < |rs| && EncodableVal(rs[k], v) && StateOk(rs, st) && Track(rs, k, st).Some?
    requires rs[k].htype.Repeated? && rs[k].ltype.Submessage?
    ensures EncRecord(rs[k], v).Some?
    ensures var n, n' := Step(rs, EncRecord(rs[k], v).value + t, st), Step(rs, EncRecord(rs[k], v).value + t', st);
            if n.Next? then n == Next(n.st, t) && n' == Next(n.st, t') && Track(rs, k, n.st).Some?
            else n == Fail && n' == Fail
  {
    hide Step, EncRecord, MergeVal, WellFormedField;
    ItemRun(rs, k, v, st, t);
    ItemRun(rs, k, v, st, t');
  }

  /** Nothing is sent of what the reader can hold of a submessage: what is sent leaves the reader's alone. */
  lemma {:induction false} EmptyOld(rs: seq<Field>, k: nat, w: Field, v: Value, st: DState, t: bytes)
    requires WellFormed(rs) && k < |rs| && WellFormedField(w) && OlderField(rs[k], w) && EncodableVal(w, v)
    requires Implicit(rs[k]) && w.ltype.Submessage? && StateOk(rs, st) && StateConforms(rs, st)
    requires IsZero(rs[k], KnownVal(rs[k], w, v))
    ensures EncRecord(w, v).Some? && DecLoop(rs, EncRecord(w, v).value + t, st) == DecLoop(rs, t, st)
    decreases w, 4
  {
    hide Step, DecLoop, StateConforms, KnownVal, IsZero;
    var f, z := rs[k], KnownVal(rs[k], w, v);
    OneOld(rs, k, w, v, st, t);
    ValKnown(f, w, v);
    ZeroRead(rs, k, z.m, st, t);
    UnknownTurn(rs, EncRecord(f, z).value, t, st);
  }

  lemma {:induction false} ZeroRead(rs: seq<Field>, k: nat, z: Msg, st: DState, t: bytes)
    requires WellFormed(rs) && k < |rs| && Implicit(rs[k]) && StateOk(rs, st) && StateConforms(rs, st)
    requires rs[k].ltype.Submessage? && EncodableVal(rs[k], Nested(z)) && IsZero(rs[k], Nested(z))
    ensures EncRecord(rs[k], Nested(z)).Some? && Step(rs, EncRecord(rs[k], Nested(z)).value + t, st) == Next(st, t)
  {
    hide Step, DecodeNoinit, EncMsg, StateConforms, IsZero, EncRecord;
    var f, sub := rs[k], rs[k].ptr.fields;
    HeldNested(rs, k, st);
    var m := SlotOf(rs, st.msg, k).v.m;
    ZeroMsg(f, z);
    EmptyRecord(f, z);
    NothingRead(sub, m);
    IntoHeld(rs, k, [], st, m, t);
    StoredAgain(rs, k, st, m);
  }

  lemma {:induction false} EmptyRecord(f: Field, z: Msg)
    requires f.ltype.Submessage? && f.ptr.Fields? && EncMsg(f.ptr.fields, z) == Some([])
    ensures EncRecord(f, Nested(z)) == Some(SubRecord(f, []))
  {
  }

  lemma {:induction false} HeldNested(rs: seq<Field>, k: nat, st: DState)
    requires WellFormed(rs) && k < |rs| && Implicit(rs[k]) && StateOk(rs, st) && StateConforms(rs, st)
    requires rs[k].ltype.Submessage?
    ensures var s := SlotOf(rs, st.msg, k);
            s.Single? && s.v.Nested? && rs[k].ptr.Fields? && |s.v.m.slots| == |rs[k].ptr.fields|
  {
    HomeFacts(rs, k);
    assert SlotConforms(rs, k, st.msg.slots[k]);
    assert Fits(rs[k], st.msg.slots[k].v);
    assert Conforms(rs[k].ptr.fields, st.msg.slots[k].v.m);
  }

  lemma {:induction false} StoredAgain(rs: seq<Field>, k: nat, st: DState, m: Msg)
    requires k < |rs| && Implicit(rs[k]) && StateOk(rs, st) && SlotOf(rs, st.msg, k) == Single(Nested(m))
    ensures Stored(rs, k, st, m) == st
  {
    var w := Stored(rs, k, st, m);
    assert w.msg.slots == st.msg.slots;
    assert w.msg == st.msg;
    assert w.seen == st.seen && w.fixedCount == st.fixedCount;
  }

  lemma {:induction false} ZeroMsg(f: Field, z: Msg)
    requires WellFormedField(f) && f.ltype.Submessage? && EncodableVal(f, Nested(z)) && IsZero(f, Nested(z))
    ensures EncMsg(f.ptr.fields, z) == Some([])
    ensures forall i | 0 <= i < |f.ptr.fields| :: !f.ptr.fields[i].htype.Required?
  {
    hide EncMsg, Encodable;
    EmptyMsg(f.ptr.fields, z);
  }

  lemma {:induction false} NothingRead(sub: seq<Field>, m: Msg)
    requires |m.slots| == |sub| && forall i | 0 <= i < |sub| :: !sub[i].htype.Required?
    ensures DecodeNoinit(sub, [], m) == Parsed(m, [])
  {
  }

  // ----- the whole message

  /** All that is sent for a field is decoded like what the reader can hold of it. */
  lemma {:induction false} NestedOld(rs: seq<Field>, k: nat, w: Field, s: Slot, s': Slot, st: DState, t: bytes)
    requires WellFormed(rs) && k < |rs| && WellFormedField(rs[k]) && WellFormedField(w) && OlderField(rs[k], w)
    requires EncodableSlot(w, s) && HeldAs(rs[k], w, s, s') && w.ltype.Submessage?
    requires StateOk(rs, st) && StateConforms(rs, st) && Track(rs, k, st).Some?
    ensures EncSlot(w, s).Some? && EncSlot(rs[k], s').Some?
    ensures DecLoop(rs, EncSlot(w, s).value + t, st) == DecLoop(rs, EncSlot(rs[k], s').value + t, st)
    decreases w, 5
  {
    hide DecLoop, StateConforms, EncRecord, EncRecords, KnownVal, EncodableVal, WellFormed, MergeVal, IsZero;
    match s
    case Single(v) =>
      OneOld(rs, k, w, v, st, t);
      AppendNil(t);
      if Implicit(w) {
        if IsZero(w, v) {
          ZeroKnown(rs[k], w, v);
        } else if IsZero(rs[k], KnownVal(rs[k], w, v)) {
          EmptyOld(rs, k, w, v, st, t);
        }
      }
    case Opt(has, v) => if has { OneOld(rs, k, w, v, st, t); }
    case Rep(items) => RecordsOld(rs, k, w, items, st, t);
    case Union(which, v) => if which == w.tag { OneOld(rs, k, w, v, st, t); }
  }

  lemma {:induction false} ScalarHeld(r: Field, w: Field, s: Slot, s': Slot)
    requires OlderField(r, w) && !w.ltype.Submessage? && HeldAs(r, w, s, s') && EncodableSlot(w, s)
    ensures EncSlot(r, s') == EncSlot(w, s)
  {
    hide EncElem, EncRecord, EncItems, EncRecords, IsZero, EncodableVal;
    SlotAlike(r, w, s);
    if s.Rep? {
      KeptItems(r, w, s.items);
    }
  }

  lemma {:induction false} SlotOld(rs: seq<Field>, k: nat, w: Field, s: Slot, s': Slot, st: DState, t: bytes)
    requires WellFormed(rs) && k < |rs| && WellFormedField(w) && OlderField(rs[k], w)
    requires EncodableSlot(w, s) && HeldAs(rs[k], w, s, s')
    requires StateOk(rs, st) && StateConforms(rs, st) && Track(rs, k, st).Some?
    ensures EncSlot(w, s).Some? && EncSlot(rs[k], s').Some?
    ensures DecLoop(rs, EncSlot(w, s).value + t, st) == DecLoop(rs, EncSlot(rs[k], s').value + t, st)
    decreases w, 6
  {
    hide DecLoop, StateConforms, EncSlot, EncodableSlot, HeldAs;
    assert WellFormedField(rs[k]);
    if w.ltype.Submessage? {
      NestedOld(rs, k, w, s, s', st, t);
    } else {
      ScalarHeld(rs[k], w, s, s');
      SlotEncodes(w, s);
    }
  }

  /** What the writer sends from its field i on, and what the reader can hold of that. */
  predicate EndAlike(rs: seq<Field>, x: bytes, y: bytes, st: DState)
    requires StateOk(rs, st)
  {
    DecLoop(rs, x, st) == DecLoop(rs, y, st)
  }

  lemma {:induction false} FromOld(rs: seq<Field>, ws: seq<Field>, m: Msg, i: nat, k: nat, st: DState)
    requires WellFormed(rs) && WellFormed(ws) && Older(rs, ws) && Encodable(ws, m)
    requires i <= |ws| && k <= |rs| && Ahead(rs, ws, i, k)
    requires StateOk(rs, st) && StateConforms(rs, st) && AtRest(rs, st)
    ensures EncFrom(ws, i, m).Some? && EncFrom(rs, k, KnownMsg(rs, ws, m)).Some?
    ensures EndAlike(rs, EncFrom(ws, i, m).value, EncFrom(rs, k, KnownMsg(rs, ws, m)).value, st)
    decreases ws, |ws| - i, 1
  {
    hide KnownMsg, WellFormed, EncSlot, Older, Ahead, Encodable, SlotOf, DecLoop, StateConforms, AtRest;
    FromKnown(rs, ws, m, i, k);
    if i < |ws| {
      NextField(rs, ws, i, k);
      if k < |rs| && At(rs, ws, k) == i {
        KeptOld(rs, ws, m, k, st);
      } else {
        DroppedOld(rs, ws, m, i, k, st);
      }
    } else {
      AllPassed(rs, ws, k);
    }
  }

  /** The decoder's variables after all that field k sends; none if that is refused. */
  function AfterSlot(rs: seq<Field>, k: nat, s: Slot, st: DState): (n: Option<DState>)
    requires k < |rs| && StateOk(rs, st) && Track(rs, k, st).Some? && EncSlot(rs[k], s).Some?
    ensures n.Some? ==> StateOk(rs, n.value)
  {
    if Solid(rs[k]) && st.fixedField == Some(k) then None
    else
      match MergeSlot(rs[k], SlotOf(rs, st.msg, k), s)
      case None => None
      case Some(z) => Some(After(rs, k, st, EncSlot(rs[k], s).value != [], z))
  }

  lemma {:induction false} TrackAtRest(rs: seq<Field>, k: nat, st: DState)
    requires k < |rs| && StateOk(rs, st) && AtRest(rs, st)
    ensures Track(rs, k, st).Some? && (FixedCount(rs[k]) && !Solid(rs[k]) ==> st.fixedField != Some(k))
  {
  }

  lemma {:induction false} SlotThen(rs: seq<Field>, k: nat, s: Slot, st: DState, t: bytes)
    requires WellFormed(rs) && k < |rs| && EncodableSlot(rs[k], s)
    requires StateOk(rs, st) && StateConforms(rs, st) && AtRest(rs, st) && Track(rs, k, st).Some?
    ensures EncSlot(rs[k], s).Some?
    ensures var n := AfterSlot(rs, k, s, st);
            && DecLoop(rs, EncSlot(rs[k], s).value + t, st) == (if n.None? then Failed else DecLoop(rs, t, n.value))
            && (n.Some? ==> StateConforms(rs, n.value) && AtRest(rs, n.value))
  {
    hide WellFormed, EncSlot, EncodableSlot, DecLoop, StateConforms, AtRest, Track, MergeSlot, After, FixedCount;
    TrackAtRest(rs, k, st);
    if Solid(rs[k]) && st.fixedField == Some(k) {
      FixedClash(rs, k, s, st, t);
    } else {
      SolidIs(rs[k]);
      FieldRun(rs, k, s, st, t);
      FieldRun(rs, k, s, st, []);
      var z := MergeSlot(rs[k], SlotOf(rs, st.msg, k), s);
      if z.Some? {
        AfterFacts(rs, k, st, s, z.value);
        var n := After(rs, k, st, EncSlot(rs[k], s).value != [], z.value);
        EndOfInput(rs, n);
        LoopConforms(rs, EncSlot(rs[k], s).value + [], st);
      }
    }
  }

  lemma {:induction false} SolidIs(f: Field)
    ensures Solid(f) ==> FixedCount(f)
  {
  }

  lemma {:induction false} EndOfInput(rs: seq<Field>, n: DState)
    requires StateOk(rs, n)
    ensures DecLoop(rs, [], n) == Ended(n, [], false)
  {
  }

  lemma {:induction false} DroppedOld(rs: seq<Field>, ws: seq<Field>, m: Msg, i: nat, k: nat, st: DState)
    requires WellFormed(rs) && WellFormed(ws) && Older(rs, ws) && Encodable(ws, m)
    requires i < |ws| && k <= |rs| && Ahead(rs, ws, i + 1, k) && FindField(rs, ws[i].tag) == |rs|
    requires StateOk(rs, st) && StateConforms(rs, st) && AtRest(rs, st)
    ensures EncFrom(ws, i, m).Some? && EncFrom(rs, k, KnownMsg(rs, ws, m)).Some?
    ensures EndAlike(rs, EncFrom(ws, i, m).value, EncFrom(rs, k, KnownMsg(rs, ws, m)).value, st)
    decreases ws, |ws| - i, 0
  {
    hide KnownMsg, WellFormedField, EncSlot, Older, Ahead, EncodableSlot, DecLoop, StateConforms, AtRest;
    FromEncodes(ws, i, m);
    EncFromStep(ws, i, m);
    FromOld(rs, ws, m, i + 1, k, st);
    assert EncodableSlot(ws[i], SlotOf(ws, m, i));
    SkipSlot(rs, ws[i], SlotOf(ws, m, i), st, EncFrom(ws, i + 1, m).value);
  }

  lemma {:induction false} KeptOld(rs: seq<Field>, ws: seq<Field>, m: Msg, k: nat, st: DState)
    requires WellFormed(rs) && WellFormed(ws) && Older(rs, ws) && Encodable(ws, m)
    requires k < |rs| && Ahead(rs, ws, At(rs, ws, k) + 1, k + 1)
    requires StateOk(rs, st) && StateConforms(rs, st) && AtRest(rs, st)
    ensures EncFrom(ws, At(rs, ws, k), m).Some? && EncFrom(rs, k, KnownMsg(rs, ws, m)).Some?
    ensures EndAlike(rs, EncFrom(ws, At(rs, ws, k), m).value, EncFrom(rs, k, KnownMsg(rs, ws, m)).value, st)
    decreases ws, |ws| - At(rs, ws, k), 0
  {
    hide KnownMsg, WellFormedField, EncSlot, Older, Ahead, EncodableSlot, DecLoop, StateConforms, AtRest;
    var i, z := At(rs, ws, k), KnownMsg(rs, ws, m);
    InRange(rs, ws, k);
    FromEncodes(ws, i, m);
    EncFromStep(ws, i, m);
    MsgKnown(rs, ws, m);
    FromEncodes(rs, k, z);
    EncFromStep(rs, k, z);
    var x, y := EncFrom(ws, i + 1, m).value, EncFrom(rs, k + 1, z).value;
    FieldKnown(rs, ws, m, k);
    var s, s' := SlotOf(ws, m, i), SlotOf(rs, z, k);
    assert EncodableSlot(ws[i], s) && EncodableSlot(rs[k], s');
    TrackAtRest(rs, k, st);
    SlotOld(rs, k, ws[i], s, s', st, x);
    SlotThen(rs, k, s', st, x);
    SlotThen(rs, k, s', st, y);
    var n := AfterSlot(rs, k, s', st);
    if n.Some? {
      FromOld(rs, ws, m, i + 1, k + 1, n.value);
    }
  }

  lemma {:induction false} StartOk(rs: seq<Field>, a: Msg)
    requires Conforms(rs, a)
    ensures StateOk(rs, Start(a)) && StateConforms(rs, Start(a)) && AtRest(rs, Start(a))
  {
  }

  /** The message is decoded like what the reader can hold of it. */
  lemma {:induction false} MsgOld(rs: seq<Field>, ws: seq<Field>, m: Msg, a: Msg)
    requires WellFormed(rs) && WellFormed(ws) && Older(rs, ws) && Encodable(ws, m) && Conforms(rs, a)
    ensures EncMsg(ws, m).Some? && EncMsg(rs, KnownMsg(rs, ws, m)).Some?
    ensures DecodeNoinit(rs, EncMsg(ws, m).value, a) == DecodeNoinit(rs, EncMsg(rs, KnownMsg(rs, ws, m)).value, a)
    decreases ws, |ws| + 1
  {
    hide KnownMsg, WellFormed, Older, Encodable, DecLoop, Conforms, EncFrom, StateConforms, AtRest;
    MsgKnown(rs, ws, m);
    StartOk(rs, a);
    FromOld(rs, ws, m, 0, 0, Start(a));
  }

  /**
   Decoding what a newer writer sends succeeds to the last byte, and gives all that the reader
   can hold of the message.
   */
  lemma {:induction false} OldReaderReads(rs: seq<Field>, ws: seq<Field>, m: Msg)
    requires WellFormed(rs) && WellFormed(ws) && Older(rs, ws) && |m.slots| == |ws| && Encodable(ws, m)
    ensures EncMsg(ws, m).Some?
    ensures var p := Decode(rs, EncMsg(ws, m).value);
            p.Parsed? && p.rest == [] && SameMsg(rs, KnownMsg(rs, ws, m), p.value)
  {
    hide KnownMsg, WellFormed, Older, Encodable, DecodeNoinit, Conforms, EncMsg, SameMsg;
    DefaultsConform(rs);
    MsgOld(rs, ws, m, Defaults(rs));
    MsgKnown(rs, ws, m);
    RoundTrips(rs, KnownMsg(rs, ws, m));
  }

  /** Of a field outside of unions the reader can hold what the message has there, if that is no submessage. */
  lemma {:induction false} KnownField(rs: seq<Field>, ws: seq<Field>, m: Msg, k: nat)
    requires WellFormed(rs) && WellFormed(ws) && Older(rs, ws) && k < |rs| && |m.slots| == |ws| && Encodable(ws, m)
    requires !rs[k].htype.Oneof? && !rs[k].ltype.Submessage?
    ensures SlotOf(rs, KnownMsg(rs, ws, m), k) == SlotOf(ws, m, At(rs, ws, k))
  {
    hide KnownMsg, WellFormedField, EncSlot, EncodableVal;
    FieldKnown(rs, ws, m, k);
    var w, s := ws[At(rs, ws, k)], SlotOf(ws, m, At(rs, ws, k));
    assert EncodableSlot(w, s) && OlderField(rs[k], w);
    if s.Rep? {
      KeptItems(rs[k], w, s.items);
    }
  }

  /** Of a union it can hold the member that the message has there, or none if it lacks that member. */
  lemma {:induction false} KnownMember(rs: seq<Field>, ws: seq<Field>, m: Msg, k: nat)
    requires WellFormed(rs) && WellFormed(ws) && Older(rs, ws) && Encodable(ws, m) && k < |rs|
    requires rs[k].htype.Oneof?
    ensures var s, s' := SlotOf(ws, m, At(rs, ws, k)), SlotOf(rs, KnownMsg(rs, ws, m), k);
            && s.Union? && s'.Union?
            && s'.which == (if FindField(rs, s.which) < |rs| then s.which else 0)
            && (s.which == rs[k].tag && !rs[k].ltype.Submessage? ==> s' == s)
  {
    hide KnownMsg, WellFormedField, EncSlot, EncodableVal, KnownVal;
    FieldKnown(rs, ws, m, k);
    KnownCell(rs, ws, m, k);
    var w, s := ws[At(rs, ws, k)], SlotOf(ws, m, At(rs, ws, k));
    assert EncodableSlot(w, s) && OlderField(rs[k], w);
    if !rs[k].ltype.Submessage? && s.Union? {
      ScalarAlike(rs[k], w, s.v);
    }
  }

  /** Of a submessage it can hold what it can hold of the submessage's fields. */
  lemma {:induction false} KnownNested(rs: seq<Field>, ws: seq<Field>, m: Msg, k: nat, w: Field, z: Msg)
    requires WellFormed(rs) && WellFormed(ws) && Older(rs, ws) && k < |rs| && |m.slots| == |ws| && Encodable(ws, m)
    requires w == ws[At(rs, ws, k)] && OlderField(rs[k], w) && Singular(w) && |z.slots| == |w.ptr.fields|
    requires SlotOf(ws, m, At(rs, ws, k)) == Holding(w, z)
    ensures SlotOf(rs, KnownMsg(rs, ws, m), k) == Holding(rs[k], KnownMsg(rs[k].ptr.fields, w.ptr.fields, z))
  {
    hide KnownMsg, WellFormedField, EncSlot, EncodableVal, Encodable, Older;
    FieldKnown(rs, ws, m, k);
  }
}
