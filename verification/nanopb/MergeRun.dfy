/**
 Decoding the encoding of a message over any message is merging: the relation between
 pb_encode and pb_decode_noinit, from which the round trip follows.
 */
module MergeRun {
  import opened Bits
  import opened Descriptor
  import opened MergeMeaning
  import opened Merging
  import opened ScalarRoundTrip
  import opened Varint
  import opened WireDecode
  import opened WireEncode
  import opened Wrappers

  // ----- encoding an encodable message succeeds

  lemma {:induction false} ValEncodes(f: Field, v: Value)
    requires WellFormedField(f) && EncodableVal(f, v)
    ensures EncElem(f, v).Some? && EncElem(f, v).value != []
    decreases f, 0
  {
    if f.ltype.Submessage? {
      MsgEncodes(f.ptr.fields, v.m);
    } else {
      ScalarRun(f, v, []);
    }
  }

  lemma {:induction false} ItemsEncode(f: Field, src: seq<Value>)
    requires WellFormedField(f) && forall j | 0 <= j < |src| :: EncodableVal(f, src[j])
    ensures EncItems(f, src).Some? && EncRecords(f, src).Some?
    ensures src != [] ==> EncRecords(f, src).value != []
    decreases f, 1, |src|
  {
    if src != [] {
      ValEncodes(f, src[0]);
      ItemsEncode(f, src[1..]);
    }
  }

  lemma {:induction false} SlotEncodes(f: Field, s: Slot)
    requires WellFormedField(f) && EncodableSlot(f, s)
    ensures EncSlot(f, s).Some?
    decreases f, 2
  {
    match f.htype
    case Required => ValEncodes(f, s.v);
    case Optional => if s.Single? || s.has { ValEncodes(f, s.v); }
    case Repeated => ItemsEncode(f, s.items);
    case Oneof => if s.which == f.tag { ValEncodes(f, s.v); }
  }

  lemma {:induction false} FromEncodes(fields: seq<Field>, i: nat, m: Msg)
    requires WellFormed(fields) && Encodable(fields, m) && i <= |fields|
    ensures EncFrom(fields, i, m).Some?
    decreases fields, |fields| - i
  {
    if i < |fields| {
      SlotEncodes(fields[i], SlotOf(fields, m, i));
      FromEncodes(fields, i + 1, m);
    }
  }

  /** pb_encode never fails on a message within its descriptor's limits. */
  lemma {:induction false} MsgEncodes(fields: seq<Field>, m: Msg)
    requires WellFormed(fields) && Encodable(fields, m)
    ensures EncMsg(fields, m).Some?
    decreases fields, |fields| + 1
  {
    FromEncodes(fields, 0, m);
  }

  // ----- decoding what was encoded

  lemma {:induction false} StepKnown(fields: seq<Field>, s: bytes, key: nat, r: bytes, i: nat, st: DState)
    requires StateOk(fields, st) && Dec32(s) == Parsed(key, r) && key != 0
    requires FindField(fields, key / 8) == i < |fields|
    ensures Step(fields, s, st) == DecField(fields, i, key % 8, r, st)
  {
  }

  /** The record with the key of field i is handed to field i. */
  lemma {:induction false} KeyRun(fields: seq<Field>, i: nat, wt: nat, t: bytes, st: DState)
    requires WellFormed(fields) && i < |fields| && wt < 8 && StateOk(fields, st)
    ensures Step(fields, TagBytes(fields[i].tag, wt) + t, st) == DecField(fields, i, wt, t, st)
  {
    var tag := fields[i].tag;
    assert 0 < tag < 0x2000_0000;
    var key := tag * 8 + wt;
    assert key / 8 == tag && key % 8 == wt && 0 < key < TWO32;
    Varint32RoundTrip(key, t);
    FindFieldUnique(fields, i);
    StepKnown(fields, TagBytes(tag, wt) + t, key, t, i, st);
  }

  /** A read of one encoded item: what MergeVal says, and nothing behind it is touched. */
  predicate ElemRuns(f: Field, e: bytes, prior: Value, v: Value, t: bytes) {
    DecElem(f, e + t, prior) == match MergeVal(f, prior, v) { case None => Bad case Some(r) => Parsed(r, t) }
  }

  lemma {:induction false} ElemRun(f: Field, v: Value, prior: Value, t: bytes)
    requires WellFormedField(f) && EncodableVal(f, v)
    ensures EncElem(f, v).Some? && ElemRuns(f, EncElem(f, v).value, prior, v, t)
    decreases f, 0
  {
    if f.ltype.Submessage? {
      var sub := f.ptr.fields;
      MsgRun(sub, v.m, Target(sub, f, prior));
      StringRoundTrip(EncMsg(sub, v.m).value, t);
    } else {
      ScalarRun(f, v, t);
    }
  }

  lemma {:induction false} ElemNonEmpty(f: Field, v: Value)
    ensures EncElem(f, v).Some? ==> EncElem(f, v).value != []
  {
  }

  predicate PackedRuns(f: Field, src: seq<Value>, items: seq<Value>, k: nat)
    requires EncItems(f, src).Some?
  {
    DecPacked(f, EncItems(f, src).value, items, k) ==
    match MergeItems(f, items, k, src) { case None => None case Some(r) => Some((r, k + |src|)) }
  }

  lemma {:induction false} PackedTurn(f: Field, v: Value, rest: seq<Value>, items: seq<Value>, k: nat)
    requires WellFormedField(f) && Packable(f.ltype) && EncodableVal(f, v) && EncItems(f, rest).Some?
    requires PackedRuns(f, rest, Put(items, k, Canonical(f, v)), k + 1)
    ensures EncItems(f, [v] + rest).Some? && PackedRuns(f, [v] + rest, items, k)
  {
    hide DecScalar, EncElem, DecPacked, Canonical, Put;
    ScalarRun(f, v, EncItems(f, rest).value);
    ElemNonEmpty(f, v);
    assert ([v] + rest)[1..] == rest;
    var e, t := EncElem(f, v).value, EncItems(f, rest).value;
    assert EncItems(f, [v] + rest) == Some(e + t);
    assert MergeVal(f, Num(0), v) == Some(Canonical(f, v));
    DecPackedTurn(f, e + t, items, k, Canonical(f, v), t);
  }

  lemma {:induction false} DecPackedTurn(f: Field, s: bytes, items: seq<Value>, k: nat, v: Value, t: bytes)
    requires s != [] && DecScalar(f, s) == Parsed(v, t)
    ensures DecPacked(f, s, items, k) == if k >= f.arraySize then None else DecPacked(f, t, Put(items, k, v), k + 1)
  {
  }

  /** The packed loop over the encoded items. */
  lemma {:induction false} PackedRun(f: Field, src: seq<Value>, items: seq<Value>, k: nat)
    requires WellFormedField(f) && Packable(f.ltype)
    requires forall j | 0 <= j < |src| :: EncodableVal(f, src[j])
    ensures EncItems(f, src).Some? && PackedRuns(f, src, items, k)
    decreases |src|
  {
    if src != [] {
      var v, rest := src[0], src[1..];
      PackedRun(f, rest, Put(items, k, Canonical(f, v)), k + 1);
      PackedTurn(f, v, rest, items, k);
      assert src == [v] + rest;
    }
  }

  // ----- one record

  /** A record of a field other than a repeated one. */
  lemma {:induction false} SingleRun(fields: seq<Field>, i: nat, v: Value, st: DState, t: bytes)
    requires WellFormed(fields) && i < |fields| && StateOk(fields, st) && EncodableVal(fields[i], v)
    requires !fields[i].htype.Repeated?
    ensures EncRecord(fields[i], v).Some?
    ensures var f, slot := fields[i], SlotOf(fields, st.msg, i);
            Step(fields, EncRecord(f, v).value + t, st) ==
            match MergeVal(f, if f.htype.Oneof? then MemberBase(f, slot) else ValueOf(slot), v)
            case None => Fail
            case Some(r) => Next(Store(fields, i, st, Filled(f, r), 0), t)
    decreases fields[i], 1
  {
    hide DecLoop, Step, DecElem;
    var f, slot := fields[i], SlotOf(fields, st.msg, i);
    var prior := if f.htype.Oneof? then MemberBase(f, slot) else ValueOf(slot);
    ElemRun(f, v, prior, t);
    var e := EncElem(f, v).value;
    Assoc(Tagged(f), e, t);
    KeyRun(fields, i, WireType(f.ltype), e + t, st);
  }

  /** The cell of a field that holds the value r. */
  function Filled(f: Field, r: Value): Slot {
    match f.htype
    case Optional => if f.sizeOffset != 0 then Opt(true, r) else Single(r)
    case Oneof => Union(f.tag, r)
    case _ => Single(r)
  }

  /** A record of a repeated field that is not packed. */
  lemma {:induction false} ItemRun(fields: seq<Field>, i: nat, v: Value, st: DState, t: bytes)
    requires WellFormed(fields) && i < |fields| && StateOk(fields, st) && EncodableVal(fields[i], v)
    requires fields[i].htype.Repeated? && !Packable(fields[i].ltype) && Track(fields, i, st).Some?
    ensures EncRecord(fields[i], v).Some?
    ensures var f, u := fields[i], Track(fields, i, st).value;
            var items, k := ItemsOf(SlotOf(fields, u.msg, i)), CountOf(fields, i, u);
            Step(fields, EncRecord(f, v).value + t, st) ==
            if k >= f.arraySize || MergeVal(f, Num(0), v).None? then Fail
            else Next(Store(fields, i, u, Rep(Put(items, k, MergeVal(f, Num(0), v).value)), k + 1), t)
    decreases fields[i], 1
  {
    hide DecLoop, Step, DecElem, MergeVal;
    var f := fields[i];
    ElemRun(f, v, Num(0), t);
    var e := EncElem(f, v).value;
    Assoc(Tagged(f), e, t);
    KeyRun(fields, i, WireType(f.ltype), e + t, st);
  }

  /** Decoding the records of src adds them to field i's array. */
  predicate RecordsRuns(fields: seq<Field>, i: nat, src: seq<Value>, st: DState, t: bytes)
    requires i < |fields| && StateOk(fields, st) && Track(fields, i, st).Some? && EncRecords(fields[i], src).Some?
  {
    var f, u := fields[i], Track(fields, i, st).value;
    var items, k := ItemsOf(SlotOf(fields, u.msg, i)), CountOf(fields, i, u);
    DecLoop(fields, EncRecords(f, src).value + t, st) ==
    match MergeItems(f, items, k, src)
    case None => Failed
    case Some(r) => DecLoop(fields, t, Store(fields, i, u, Rep(r), k + |src|))
  }

  lemma {:induction false} LastRecord(fields: seq<Field>, i: nat, v: Value, st: DState, t: bytes)
    requires WellFormed(fields) && i < |fields| && StateOk(fields, st) && EncodableVal(fields[i], v)
    requires fields[i].htype.Repeated? && !Packable(fields[i].ltype) && Track(fields, i, st).Some?
    ensures EncRecords(fields[i], [v]).Some? && RecordsRuns(fields, i, [v], st, t)
    decreases fields[i], 2
  {
    hide Step, DecField, DecLoop, EncElem, MergeVal;
    var f := fields[i];
    ItemRun(fields, i, v, st, t);
    LoopTurn(fields, EncRecord(f, v).value + t, st);
    OneRecord(f, v);
    var u, r := Track(fields, i, st).value, MergeVal(f, Num(0), v);
    var items, k := ItemsOf(SlotOf(fields, u.msg, i)), CountOf(fields, i, u);
    MergeCons(f, items, k, v, []);
    AppendNil([v]);
    if r.Some? {
      assert MergeItems(f, Put(items, k, r.value), k + 1, []) == Some(Put(items, k, r.value));
    }
  }

  lemma {:induction false} OneRecord(f: Field, v: Value)
    ensures EncRecords(f, [v]) == EncRecord(f, v)
  {
    assert EncRecords(f, []) == Some([]);
    assert [v][1..] == [];
    if EncRecord(f, v).Some? {
      AppendNil(EncRecord(f, v).value);
    }
  }

  /** The variables after one more item has been stored. */
  function WithItem(fields: seq<Field>, i: nat, st: DState, r: Value): (w: DState)
    requires i < |fields| && StateOk(fields, st) && Track(fields, i, st).Some?
    ensures StateOk(fields, w)
  {
    var u := Track(fields, i, st).value;
    var items, k := ItemsOf(SlotOf(fields, u.msg, i)), CountOf(fields, i, u);
    Store(fields, i, u, Rep(Put(items, k, r)), k + 1)
  }

  lemma {:induction false} WithItemFacts(fields: seq<Field>, i: nat, st: DState, r: Value)
    requires i < |fields| && StateOk(fields, st) && Track(fields, i, st).Some? && fields[i].htype.Repeated?
    ensures var w, u := WithItem(fields, i, st, r), Track(fields, i, st).value;
            var items, k := ItemsOf(SlotOf(fields, u.msg, i)), CountOf(fields, i, u);
            && Track(fields, i, w) == Some(w)
            && ItemsOf(SlotOf(fields, w.msg, i)) == Put(items, k, r) && CountOf(fields, i, w) == k + 1
            && forall s, n :: Store(fields, i, w, s, n) == Store(fields, i, u, s, n)
  {
  }

  lemma {:induction false} OneMoreRecord(fields: seq<Field>, i: nat, v: Value, rest: seq<Value>, st: DState, t: bytes)
    requires WellFormed(fields) && i < |fields| && StateOk(fields, st) && EncodableVal(fields[i], v)
    requires fields[i].htype.Repeated? && !Packable(fields[i].ltype) && Track(fields, i, st).Some?
    requires EncRecords(fields[i], rest).Some?
    requires var r := MergeVal(fields[i], Num(0), v);
             r.Some? ==> Track(fields, i, WithItem(fields, i, st, r.value)).Some? &&
                         RecordsRuns(fields, i, rest, WithItem(fields, i, st, r.value), t)
    ensures EncRecords(fields[i], [v] + rest).Some? && RecordsRuns(fields, i, [v] + rest, st, t)
    decreases fields[i], 2
  {
    hide DecLoop, Step, MergeItems, EncRecords, MergeVal;
    var f := fields[i];
    ValEncodes(f, v);
    RecordsCons(f, v, rest, t);
    var x := EncRecord(f, v).value + (EncRecords(f, rest).value + t);
    ItemRun(fields, i, v, st, EncRecords(f, rest).value + t);
    LoopTurn(fields, x, st);
    var u, r := Track(fields, i, st).value, MergeVal(f, Num(0), v);
    var items, k := ItemsOf(SlotOf(fields, u.msg, i)), CountOf(fields, i, u);
    MergeCons(f, items, k, v, rest);
    if k < f.arraySize && r.Some? {
      WithItemFacts(fields, i, st, r.value);
    }
  }

  lemma {:induction false} MergeCons(f: Field, items: seq<Value>, k: nat, v: Value, rest: seq<Value>)
    ensures var r := MergeVal(f, Num(0), v);
            MergeItems(f, items, k, [v] + rest) ==
            if k >= f.arraySize || r.None? then None else MergeItems(f, Put(items, k, r.value), k + 1, rest)
  {
  }

  lemma {:induction false} RecordsCons(f: Field, v: Value, rest: seq<Value>, t: bytes)
    requires EncRecord(f, v).Some? && EncRecords(f, rest).Some?
    ensures EncRecords(f, [v] + rest).Some?
    ensures EncRecords(f, [v] + rest).value + t == EncRecord(f, v).value + (EncRecords(f, rest).value + t)
  {
  }

  lemma {:induction false} LoopTurn(fields: seq<Field>, s: bytes, st: DState)
    requires StateOk(fields, st) && s != []
    ensures DecLoop(fields, s, st) ==
            match Step(fields, s, st)
            case Fail => Failed
            case Halt(r) => Ended(st, r, true)
            case Next(st', r) => DecLoop(fields, r, st')
  {
  }

  /** All the records of an unpacked array. */
  lemma {:induction false} RecordsRun(fields: seq<Field>, i: nat, src: seq<Value>, st: DState, t: bytes)
    requires WellFormed(fields) && i < |fields| && StateOk(fields, st) && src != []
    requires fields[i].htype.Repeated? && !Packable(fields[i].ltype) && Track(fields, i, st).Some?
    requires forall j | 0 <= j < |src| :: EncodableVal(fields[i], src[j])
    ensures EncRecords(fields[i], src).Some? && RecordsRuns(fields, i, src, st, t)
    decreases fields[i], 3, |src|
  {
    var f, v, rest := fields[i], src[0], src[1..];
    assert src == [v] + rest && EncodableVal(f, v);
    if rest == [] {
      assert src == [v];
      LastRecord(fields, i, v, st, t);
    } else {
      ItemsEncode(f, rest);
      var r := MergeVal(f, Num(0), v);
      if r.Some? {
        WithItemFacts(fields, i, st, r.value);
        RecordsRun(fields, i, rest, WithItem(fields, i, st, r.value), t);
      }
      OneMoreRecord(fields, i, v, rest, st, t);
    }
  }

  /** A packed array. */
  lemma {:induction false} PackedArrayRun(fields: seq<Field>, i: nat, src: seq<Value>, st: DState, t: bytes)
    requires WellFormed(fields) && i < |fields| && StateOk(fields, st) && 0 < |src| <= fields[i].arraySize
    requires fields[i].htype.Repeated? && Packable(fields[i].ltype) && Track(fields, i, st).Some?
    requires forall j | 0 <= j < |src| :: EncodableVal(fields[i], src[j])
    requires EncItems(fields[i], src).Some? && |EncItems(fields[i], src).value| < TWO32
    ensures EncArray(fields[i], src).Some?
    ensures var f, u := fields[i], Track(fields, i, st).value;
            var items, k := ItemsOf(SlotOf(fields, u.msg, i)), CountOf(fields, i, u);
            Step(fields, EncArray(f, src).value + t, st) ==
            match MergeItems(f, items, k, src)
            case None => Fail
            case Some(r) => Next(Store(fields, i, u, Rep(r), k + |src|), t)
  {
    hide DecLoop, Step, DecPacked, MergeItems, EncItems;
    var f, u := fields[i], Track(fields, i, st).value;
    var items, k := ItemsOf(SlotOf(fields, u.msg, i)), CountOf(fields, i, u);
    var e := EncItems(f, src).value;
    PackedRun(f, src, items, k);
    StringRoundTrip(e, t);
    Assoc(TagBytes(f.tag, WT_STRING), LengthPrefixed(e), t);
    KeyRun(fields, i, WT_STRING, LengthPrefixed(e) + t, st);
  }

  // ----- one field

  /** The decoder's variables after everything field i of a message emits has been decoded. */
  function After(fields: seq<Field>, i: nat, st: DState, emitted: bool, s: Slot): (r: DState)
    requires i < |fields| && StateOk(fields, st) && Track(fields, i, st).Some?
    ensures StateOk(fields, r)
  {
    if emitted then Store(fields, i, Track(fields, i, st).value, s, fields[i].arraySize) else st
  }

  /** Decoding what field i emits is merging its storage cell. */
  predicate FieldRuns(fields: seq<Field>, i: nat, b: Slot, st: DState, t: bytes)
    requires i < |fields| && StateOk(fields, st) && EncSlot(fields[i], b).Some? && Track(fields, i, st).Some?
  {
    var e := EncSlot(fields[i], b).value;
    DecLoop(fields, e + t, st) ==
    match MergeSlot(fields[i], SlotOf(fields, st.msg, i), b)
    case None => Failed
    case Some(s) => DecLoop(fields, t, After(fields, i, st, e != [], s))
  }

  lemma {:induction false} SilentRun(fields: seq<Field>, i: nat, b: Slot, st: DState, t: bytes)
    requires i < |fields| && StateOk(fields, st) && EncSlot(fields[i], b) == Some([]) && Track(fields, i, st).Some?
    requires MergeSlot(fields[i], SlotOf(fields, st.msg, i), b) == Some(SlotOf(fields, st.msg, i))
    ensures FieldRuns(fields, i, b, st, t)
  {
    AppendNil(t);
  }

  /** The union of the runs of a field other than a repeated one. */
  lemma {:induction false} SingleFieldRun(fields: seq<Field>, i: nat, b: Slot, v: Value, st: DState, t: bytes)
    requires WellFormed(fields) && i < |fields| && StateOk(fields, st)
    requires !fields[i].htype.Repeated? && EncodableVal(fields[i], v)
    requires EncSlot(fields[i], b) == EncRecord(fields[i], v)
    requires var f, a := fields[i], SlotOf(fields, st.msg, i);
             var r := MergeVal(f, if f.htype.Oneof? then MemberBase(f, a) else ValueOf(a), v);
             MergeSlot(f, a, b) == if r.Some? then Some(Filled(f, r.value)) else None
    ensures EncSlot(fields[i], b).Some? && FieldRuns(fields, i, b, st, t)
    decreases fields[i], 2
  {
    SingleRun(fields, i, v, st, t);
  }

  lemma {:induction false} RepeatedFieldRun(fields: seq<Field>, i: nat, b: Slot, st: DState, t: bytes)
    requires WellFormed(fields) && i < |fields| && StateOk(fields, st)
    requires fields[i].htype.Repeated? && EncodableSlot(fields[i], b) && b.items != []
    requires Track(fields, i, st).Some? && (FixedCount(fields[i]) ==> st.fixedField != Some(i))
    ensures EncSlot(fields[i], b).Some? && FieldRuns(fields, i, b, st, t)
    decreases fields[i], 4
  {
    hide Step, DecField, EncElem, MergeVal, MergeItems, EncItems;
    var f := fields[i];
    ItemsEncode(f, b.items);
    ArrayNonEmpty(f, b.items);
    if Packable(f.ltype) {
      PackedArrayRun(fields, i, b.items, st, t);
    } else {
      RecordsRun(fields, i, b.items, st, t);
    }
  }

  lemma {:induction false} FieldRun(fields: seq<Field>, i: nat, b: Slot, st: DState, t: bytes)
    requires WellFormed(fields) && i < |fields| && StateOk(fields, st) && EncodableSlot(fields[i], b)
    requires Track(fields, i, st).Some? && (FixedCount(fields[i]) ==> st.fixedField != Some(i))
    ensures EncSlot(fields[i], b).Some? && FieldRuns(fields, i, b, st, t)
    decreases fields[i], 5
  {
    var f := fields[i];
    match f.htype
    case Required => SingleFieldRun(fields, i, b, b.v, st, t);
    case Optional =>
      var sent := if f.sizeOffset != 0 then b.has else !IsZero(f, b.v);
      if sent {
        SingleFieldRun(fields, i, b, b.v, st, t);
      } else {
        SilentRun(fields, i, b, st, t);
      }
    case Repeated =>
      if b.items == [] {
        SilentRun(fields, i, b, st, t);
      } else {
        RepeatedFieldRun(fields, i, b, st, t);
      }
    case Oneof =>
      if b.which == f.tag {
        SingleFieldRun(fields, i, b, b.v, st, t);
      } else {
        SilentRun(fields, i, b, st, t);
      }
  }

  // ----- fixed-count fields in the way of each other

  /** A fixed-count field that takes at least one item. */
  predicate Solid(f: Field) {
    FixedCount(f) && f.arraySize > 0
  }

  /** The first such field from index i on. */
  function NextFixed(fields: seq<Field>, i: nat): (r: Option<nat>)
    requires i <= |fields|
    ensures r.Some? ==> i <= r.value < |fields| && Solid(fields[r.value])
    ensures forall j | i <= j < |fields| && Solid(fields[j]) :: r.Some? && r.value <= j
    decreases |fields| - i
  {
    if i == |fields| then None else if Solid(fields[i]) then Some(i) else NextFixed(fields, i + 1)
  }

  /** The last such field from index i on. */
  function LastFixed(fields: seq<Field>, i: nat): (r: Option<nat>)
    requires i <= |fields|
    ensures r.Some? ==> i <= r.value < |fields| && Solid(fields[r.value])
    ensures forall j | i <= j < |fields| && Solid(fields[j]) :: r.Some? && j <= r.value
    decreases |fields| - i
  {
    if i == |fields| then None
    else
      var r := LastFixed(fields, i + 1);
      if r.Some? then r else if Solid(fields[i]) then Some(i) else None
  }

  /** The tracker stands at a complete array, or nowhere. */
  predicate AtRest(fields: seq<Field>, st: DState)
    requires StateOk(fields, st)
  {
    FixedComplete(fields, st) && (st.fixedField.Some? ==> Solid(fields[st.fixedField.value]))
  }

  /** A record for a fixed-count array that is already complete makes decoding fail. */
  lemma {:induction false} FixedClash(fields: seq<Field>, i: nat, b: Slot, st: DState, t: bytes)
    requires WellFormed(fields) && i < |fields| && StateOk(fields, st) && AtRest(fields, st)
    requires Solid(fields[i]) && EncodableSlot(fields[i], b) && st.fixedField == Some(i)
    ensures EncSlot(fields[i], b).Some? && DecLoop(fields, EncSlot(fields[i], b).value + t, st) == Failed
    decreases fields[i], 4
  {
    hide Step, DecField, EncElem, MergeVal, EncItems;
    var f := fields[i];
    ItemsEncode(f, b.items);
    ArrayNonEmpty(f, b.items);
    if Packable(f.ltype) {
      PackedArrayRun(fields, i, b.items, st, t);
    } else {
      RecordsRun(fields, i, b.items, st, t);
    }
  }

  // ----- the whole message

  /** What the loop leaves behind after fields i and up of an encoding. */
  predicate RunEnds(fields: seq<Field>, i: nat, st: DState, m: Msg, r: LoopResult)
    requires i <= |fields|
  {
    && r.Ended? && !r.halted && r.st.msg == m && StateOk(fields, r.st) && AtRest(fields, r.st)
    && r.st.fixedField == (if LastFixed(fields, i).Some? then LastFixed(fields, i) else st.fixedField)
    && (forall j :: j in st.seen ==> j in r.st.seen)
    && (forall j | i <= j < |fields| :: fields[j].htype.Required? ==> j in r.st.seen)
  }

  lemma {:induction false} AfterFacts(fields: seq<Field>, i: nat, st: DState, b: Slot, s: Slot)
    requires i < |fields| && StateOk(fields, st) && AtRest(fields, st) && EncodableSlot(fields[i], b)
    requires EncSlot(fields[i], b).Some? && MergeSlot(fields[i], SlotOf(fields, st.msg, i), b) == Some(s)
    ensures var w := After(fields, i, st, EncSlot(fields[i], b).value != [], s);
            && AtRest(fields, w) && w.fixedField == (if Solid(fields[i]) then Some(i) else st.fixedField)
            && w.msg == WithSlot(fields, st.msg, i, s)
            && (forall j :: j in st.seen ==> j in w.seen)
            && (fields[i].htype.Required? ==> i in w.seen)
  {
    if fields[i].htype.Repeated? && b.items != [] {
      ArrayNonEmpty(fields[i], b.items);
    }
    if EncSlot(fields[i], b).value == [] {
      SilentMerge(fields[i], SlotOf(fields, st.msg, i), b);
      assert WithSlot(fields, st.msg, i, s).slots == st.msg.slots;
    }
  }

  /** A field that emits nothing changes nothing. */
  lemma {:induction false} SilentMerge(f: Field, a: Slot, b: Slot)
    requires EncSlot(f, b) == Some([])
    ensures MergeSlot(f, a, b) == Some(a) && !f.htype.Required?
  {
    if f.htype.Repeated? && b.items != [] {
      ArrayNonEmpty(f, b.items);
    }
  }

  lemma {:induction false} ArrayNonEmpty(f: Field, items: seq<Value>)
    requires items != [] && EncArray(f, items).Some?
    ensures EncArray(f, items).value != []
  {
    if !Packable(f.ltype) {
      assert EncRecord(f, items[0]).value != [];
    }
  }

  /** The next fixed-count array to be received is the one received last. */
  predicate Meets(fields: seq<Field>, i: nat, st: DState)
    requires i <= |fields|
  {
    st.fixedField.Some? && NextFixed(fields, i) == st.fixedField
  }

  /** The loop over what fields i and up emit. */
  predicate RunsFrom(fields: seq<Field>, i: nat, b: Msg, st: DState)
    requires i <= |fields| == |b.slots| && StateOk(fields, st) && EncFrom(fields, i, b).Some?
  {
    var r := DecLoop(fields, EncFrom(fields, i, b).value, st);
    match MergeFrom(fields, i, st.msg, b)
    case None => r == Failed
    case Some(m) => if Meets(fields, i, st) then r == Failed else RunEnds(fields, i, st, m, r)
  }

  lemma {:induction false} EncFromStep(fields: seq<Field>, i: nat, b: Msg)
    requires i < |fields| == |b.slots| && EncFrom(fields, i, b).Some?
    ensures EncSlot(fields[i], SlotOf(fields, b, i)).Some? && EncFrom(fields, i + 1, b).Some?
    ensures EncFrom(fields, i, b).value == EncSlot(fields[i], SlotOf(fields, b, i)).value +
        EncFrom(fields, i + 1, b).value
  {
  }

  lemma {:induction false} MergeFromStep(fields: seq<Field>, i: nat, a: Msg, b: Msg)
    requires i < |fields| == |b.slots| == |a.slots|
    ensures var s := MergeSlot(fields[i], SlotOf(fields, a, i), SlotOf(fields, b, i));
            MergeFrom(fields, i, a, b) == if s.None? then None
              else MergeFrom(fields, i + 1, WithSlot(fields, a, i, s.value), b)
  {
  }

  lemma {:induction false} RunStep(fields: seq<Field>, i: nat, b: Msg, st: DState, s: Slot)
    requires i < |fields| == |b.slots| && StateOk(fields, st) && AtRest(fields, st)
    requires EncodableSlot(fields[i], SlotOf(fields, b, i)) && !(Solid(fields[i]) && st.fixedField == Some(i))
    requires EncFrom(fields, i, b).Some?
    requires EncSlot(fields[i], SlotOf(fields, b, i)).Some? && EncFrom(fields, i + 1, b).Some?
    requires MergeSlot(fields[i], SlotOf(fields, st.msg, i), SlotOf(fields, b, i)) == Some(s)
    requires FieldRuns(fields, i, SlotOf(fields, b, i), st, EncFrom(fields, i + 1, b).value)
    requires RunsFrom(fields, i + 1, b, After(fields, i, st, EncSlot(fields[i], SlotOf(fields, b, i)).value != [], s))
    ensures RunsFrom(fields, i, b, st)
  {
    hide DecLoop, EncFrom, MergeFrom, EncSlot, MergeSlot, After;
    EncFromStep(fields, i, b);
    MergeFromStep(fields, i, st.msg, b);
    AfterFacts(fields, i, st, SlotOf(fields, b, i), s);
  }

  /**
   The encoding of fields i and up, decoded over any message and with any array received last:
   it fails exactly when an array has no room or when the next fixed-count array was the last one.
   */
  lemma {:induction false} RunFrom(fields: seq<Field>, i: nat, b: Msg, st: DState)
    requires WellFormed(fields) && Encodable(fields, b) && i <= |fields|
    requires StateOk(fields, st) && AtRest(fields, st)
    ensures EncFrom(fields, i, b).Some? && RunsFrom(fields, i, b, st)
    ensures MergeFrom(fields, i, st.msg, b).Some? <==> RoomFrom(fields, i, st.msg, b)
    decreases fields, |fields| - i
  {
    RoomForMergeFrom(fields, i, st.msg, b);
    if i < |fields| {
      hide DecLoop, MergeFrom, EncSlot, MergeSlot, After, EncFrom;
      var s := SlotOf(fields, b, i);
      FromEncodes(fields, i, b);
      EncFromStep(fields, i, b);
      if Solid(fields[i]) && st.fixedField == Some(i) {
        FixedClash(fields, i, s, st, EncFrom(fields, i + 1, b).value);
        return;
      }
      FieldRun(fields, i, s, st, EncFrom(fields, i + 1, b).value);
      var r := MergeSlot(fields[i], SlotOf(fields, st.msg, i), s);
      if r.Some? {
        AfterFacts(fields, i, st, s, r.value);
        RunFrom(fields, i + 1, b, After(fields, i, st, EncSlot(fields[i], s).value != [], r.value));
        RunStep(fields, i, b, st, r.value);
      } else {
        MergeFromStep(fields, i, st.msg, b);
      }
    }
  }

  /**
   Decoding the encoding of b over any message a of the same type is merging b into a;
   it fails exactly when some array of a has no room for the items of b.
   */
  lemma {:induction false} MsgRun(fields: seq<Field>, b: Msg, a: Msg)
    requires WellFormed(fields) && Encodable(fields, b) && |a.slots| == |fields|
    ensures EncMsg(fields, b).Some? && (Merge(fields, a, b).Some? <==> Room(fields, a, b))
    ensures DecodeNoinit(fields, EncMsg(fields, b).value, a) ==
            if Room(fields, a, b) then Parsed(Merge(fields, a, b).value, []) else Bad
    decreases fields, |fields| + 1
  {
    hide RoomSlot;
    RunFrom(fields, 0, b, Start(a));
  }
}
