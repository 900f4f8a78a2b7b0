/** Decoding the concatenation of two inputs, and where fixed-count arrays get in the way. */
module Concatenation {
  import opened Bits
  import opened Descriptor
  import opened Equality
  import opened ForwardCompat
  import opened Locality
  import opened MergeMeaning
  import opened MergeRun
  import opened Merging
  import opened RoundTrip
  import opened Varint
  import opened WireDecode
  import opened WireEncode
  import opened Wrappers

  /** The fixed-count field whose record comes first, if there is one. */
  function FirstFixed(fields: seq<Field>, s: bytes, st: DState): Option<nat>
    requires StateOk(fields, st)
    decreases |s|
  {
    if st.fixedField.Some? then st.fixedField
    else if s == [] then None
    else
      match Step(fields, s, st)
      case Fail => None
      case Halt(_) => None
      case Next(st', r) => FirstFixed(fields, r, st')
  }

  /** Two runs over the same bytes that agree, the second having seen at least as much. */
  predicate Agree(x: DState, y: DState) {
    x.msg == y.msg && x.seen <= y.seen
  }

  predicate LoopsAgree(x: LoopResult, y: LoopResult) {
    match x
    case Failed => y.Failed?
    case Ended(st, rest, halted) =>
      y.Ended? && y.rest == rest && y.halted == halted && Agree(st, y.st) && SameTracker(st, y.st)
  }

  /** Trackers that make no difference. */
  predicate SameTracker(x: DState, y: DState) {
    x.fixedField == y.fixedField && x.fixedCount == y.fixedCount
  }

  lemma {:induction false} StepSame(fields: seq<Field>, s: bytes, x: DState, y: DState)
    requires StateOk(fields, x) && StateOk(fields, y) && Agree(x, y) && SameTracker(x, y)
    ensures var rx, ry := Step(fields, s, x), Step(fields, s, y);
            match rx
            case Fail => ry == Fail
            case Halt(r) => ry == Halt(r)
            case Next(x', r) => ry.Next? && ry.rest == r && Agree(x', ry.st) && SameTracker(x', ry.st)
  {
  }

  lemma {:induction false} LoopSame(fields: seq<Field>, s: bytes, x: DState, y: DState)
    requires StateOk(fields, x) && StateOk(fields, y) && Agree(x, y) && SameTracker(x, y)
    ensures LoopsAgree(DecLoop(fields, s, x), DecLoop(fields, s, y))
    decreases |s|
  {
    hide Step;
    if s != [] {
      StepSame(fields, s, x, y);
      var rx, ry := Step(fields, s, x), Step(fields, s, y);
      if rx.Next? {
        LoopSame(fields, rx.rest, rx.st, ry.st);
      }
    }
  }

  /** y continues after a complete fixed-count field g, x starts afresh. */
  predicate Continues(fields: seq<Field>, x: DState, y: DState) {
    && StateOk(fields, x) && StateOk(fields, y) && Agree(x, y)
    && x.fixedField == None && y.fixedField.Some? && FixedComplete(fields, y)
  }

  /** Both trackers stand at field g: x has no item of it yet, y has them all. */
  predicate Clashing(fields: seq<Field>, x: DState, y: DState) {
    && StateOk(fields, x) && StateOk(fields, y) && Agree(x, y)
    && x.fixedField.Some? && y.fixedField == x.fixedField && FixedCount(fields[x.fixedField.value])
    && x.fixedCount == 0 && y.fixedCount == fields[x.fixedField.value].arraySize > 0
  }

  /** A full array takes no further item, and is not disturbed by an empty packed chunk. */
  lemma {:induction false} FullArray(f: Field, wt: nat, s: bytes, slot: Slot)
    requires f.htype.Repeated? && f.arraySize > 0
    ensures var p, q := DecSlot(f, wt, s, slot, 0), DecSlot(f, wt, s, slot, f.arraySize);
            p.Parsed? ==> if p.value.1 == 0 then q == Parsed((p.value.0, f.arraySize), p.rest) else q == Bad
  {
    hide TakeString;
    if wt == WT_STRING && Packable(f.ltype) && TakeString(s).Parsed? {
      var b := TakeString(s).value;
      PackedCount(f, b, ItemsOf(slot), 0);
    }
  }

  lemma {:induction false} PackedCount(f: Field, s: bytes, items: seq<Value>, k: nat)
    ensures var r := DecPacked(f, s, items, k);
            r.Some? ==> r.value.1 >= k && (s != [] ==> r.value.1 > k)
    decreases |s|
  {
    hide DecScalar;
    if s != [] && k < f.arraySize && DecScalar(f, s).Parsed? {
      PackedCount(f, DecScalar(f, s).rest, Put(items, k, DecScalar(f, s).value), k + 1);
    }
  }

  /** One turn while the trackers clash: nothing happens to them, or the continuing run fails. */
  lemma {:induction false} StepClashing(fields: seq<Field>, s: bytes, x: DState, y: DState)
    requires Clashing(fields, x, y)
    ensures var rx, ry := Step(fields, s, x), Step(fields, s, y);
            rx.Next? ==> ry.Fail? || (ry.Next? && ry.rest == rx.rest && Clashing(fields, rx.st, ry.st))
  {
    hide DecSlot, SkipUnknown, Dec32, FindField;
    if Dec32(s).Parsed? {
      var key, r := Dec32(s).value, Dec32(s).rest;
      var i := FindField(fields, key / 8);
      if i < |fields| && FixedCount(fields[i]) && x.fixedField == Some(i) {
        FullArray(fields[i], key % 8, r, SlotOf(fields, x.msg, i));
      }
    }
  }

  lemma {:induction false} LoopClashing(fields: seq<Field>, s: bytes, x: DState, y: DState)
    requires Clashing(fields, x, y)
    requires var r := DecLoop(fields, s, x); r.Ended? && FixedComplete(fields, r.st)
    ensures DecLoop(fields, s, y).Failed?
    decreases |s|
  {
    hide Step;
    if s != [] {
      StepClashing(fields, s, x, y);
      var rx, ry := Step(fields, s, x), Step(fields, s, y);
      if rx.Next? && ry.Next? {
        LoopClashing(fields, rx.rest, rx.st, ry.st);
      }
    }
  }

  /** One turn of a fresh run and of a continuing one. */
  lemma {:induction false} StepContinues(fields: seq<Field>, s: bytes, x: DState, y: DState)
    requires Continues(fields, x, y)
    ensures var rx, ry := Step(fields, s, x), Step(fields, s, y);
            match rx
            case Fail => true
            case Halt(r) => ry == Halt(r)
            case Next(x', r) =>
              if x'.fixedField == None then ry.Next? && ry.rest == r && Continues(fields, x', ry.st) &&
                  ry.st.fixedField == y.fixedField
              else if x'.fixedField == y.fixedField && fields[y.fixedField.value].arraySize > 0 then
                ry.Fail? || (ry.Next? && ry.rest == r && Clashing(fields, x', ry.st))
              else ry.Next? && ry.rest == r && Agree(x', ry.st) && SameTracker(x', ry.st)
  {
    hide DecSlot, SkipUnknown, Dec32, FindField;
    if Dec32(s).Parsed? {
      var key, r := Dec32(s).value, Dec32(s).rest;
      var i := FindField(fields, key / 8);
      if i < |fields| && FixedCount(fields[i]) && y.fixedField == Some(i) && fields[i].arraySize > 0 {
        FullArray(fields[i], key % 8, r, SlotOf(fields, x.msg, i));
      }
    }
  }

  /** The first fixed-count field of b is the one that the input before b ended with. */
  predicate Clash(fields: seq<Field>, b: bytes, x: DState, y: DState)
    requires StateOk(fields, x) && StateOk(fields, y)
  {
    y.fixedField.Some? && fields[y.fixedField.value].arraySize > 0 && FirstFixed(fields, b, x) == y.fixedField
  }

  lemma {:induction false} LoopContinues(fields: seq<Field>, s: bytes, x: DState, y: DState)
    requires Continues(fields, x, y)
    requires var r := DecLoop(fields, s, x); r.Ended? && FixedComplete(fields, r.st)
    ensures var rx, ry := DecLoop(fields, s, x), DecLoop(fields, s, y);
            if Clash(fields, s, x, y) then ry.Failed?
            else ry.Ended? && ry.rest == rx.rest && Agree(rx.st, ry.st) && FixedComplete(fields, ry.st)
    decreases |s|
  {
    hide Step;
    if s != [] {
      StepContinues(fields, s, x, y);
      var rx, ry := Step(fields, s, x), Step(fields, s, y);
      if rx.Next? {
        assert FirstFixed(fields, s, x) == FirstFixed(fields, rx.rest, rx.st);
        if rx.st.fixedField == None {
          LoopContinues(fields, rx.rest, rx.st, ry.st);
        } else if ry.Next? {
          if rx.st.fixedField == y.fixedField && fields[y.fixedField.value].arraySize > 0 {
            LoopClashing(fields, rx.rest, rx.st, ry.st);
          } else {
            LoopSame(fields, rx.rest, rx.st, ry.st);
          }
        }
      }
    }
  }

  /**
   Merging by concatenation: when A decodes up to its end and B then decodes over the result,
   decoding A ++ B gives the same message, unless B begins its fixed-count fields with the
   one, not empty, that A ended with; in that case it fails.
   */
  lemma {:induction false} ConcatIsMerge(fields: seq<Field>, a: bytes, b: bytes, m: Msg)
    requires |m.slots| == |fields| && Boundary(fields, a, m)
    requires FixedComplete(fields, DecLoop(fields, a, Start(m)).st)
    requires DecodeNoinit(fields, b, DecLoop(fields, a, Start(m)).st.msg).Parsed?
    ensures var st := DecLoop(fields, a, Start(m)).st;
            DecodeNoinit(fields, a + b, m) ==
            if Clash(fields, b, Start(st.msg), st) then Bad else DecodeNoinit(fields, b, st.msg)
  {
    hide Step, DecLoop;
    var st := DecLoop(fields, a, Start(m)).st;
    LoopConcat(fields, a, b, Start(m));
    if st.fixedField.Some? {
      LoopContinues(fields, b, Start(st.msg), st);
    } else {
      LoopIdle(fields, a, Start(m));
      LoopSame(fields, b, Start(st.msg), st);
    }
  }

  /** As long as no fixed-count field has been received, the item count is not touched. */
  lemma {:induction false} LoopIdle(fields: seq<Field>, s: bytes, st: DState)
    requires StateOk(fields, st)
    ensures var r := DecLoop(fields, s, st);
            r.Ended? && r.st.fixedField == None ==> st.fixedField == None && r.st.fixedCount == st.fixedCount
    decreases |s|
  {
    hide Step;
    if s != [] {
      StepIdle(fields, s, st);
      if Step(fields, s, st).Next? {
        LoopIdle(fields, Step(fields, s, st).rest, Step(fields, s, st).st);
      }
    }
  }

  lemma {:induction false} StepIdle(fields: seq<Field>, s: bytes, st: DState)
    requires StateOk(fields, st)
    ensures var r := Step(fields, s, st);
            r.Next? && r.st.fixedField == None ==> st.fixedField == None && r.st.fixedCount == st.fixedCount
  {
  }

  /** An encoding ends at a record boundary. */
  lemma {:induction false} EncodingEnds(fields: seq<Field>, a: Msg, m: Msg)
    requires WellFormed(fields) && Encodable(fields, a) && |m.slots| == |fields| && Merge(fields, m, a).Some?
    ensures EncMsg(fields, a).Some? && Boundary(fields, EncMsg(fields, a).value, m)
    ensures var st := DecLoop(fields, EncMsg(fields, a).value, Start(m)).st;
            st.msg == Merge(fields, m, a).value && AtRest(fields, st) && st.fixedField == LastFixed(fields, 0)
  {
    RunFrom(fields, 0, a, Start(m));
  }

  /** The descriptor has exactly one fixed-count field, not counting empty arrays. */
  ghost predicate OneFixed(fields: seq<Field>) {
    exists i | 0 <= i < |fields| :: Solid(fields[i]) && forall j | 0 <= j < |fields| && Solid(fields[j]) :: j == i
  }

  lemma {:induction false} OneFixedMeets(fields: seq<Field>)
    ensures OneFixed(fields) <==> NextFixed(fields, 0).Some? && NextFixed(fields, 0) == LastFixed(fields, 0)
  {
  }

  /**
   Last one wins: the concatenation of two encodings decodes to the second message merged
   into the first. It fails exactly when an array has no room for the items of both, or when the message type
   has exactly one fixed-count field, whose items would all arrive twice in a row.
   */
  lemma {:induction false} LastOneWins(fields: seq<Field>, a: Msg, b: Msg)
    requires WellFormed(fields) && Encodable(fields, a) && Encodable(fields, b)
    ensures EncMsg(fields, a).Some? && EncMsg(fields, b).Some?
    ensures var first := Merge(fields, Defaults(fields), a);
            && first.Some? && SameMsg(fields, a, first.value)
            && (Merge(fields, first.value, b).Some? <==> Room(fields, first.value, b))
            && Decode(fields, EncMsg(fields, a).value + EncMsg(fields, b).value) ==
               if !Room(fields, first.value, b) || OneFixed(fields) then Bad
               else Parsed(Merge(fields, first.value, b).value, [])
  {
    hide RoomSlot, DecLoop, EncFrom, MergeFrom, SameMsg, OneFixed, NextFixed, LastFixed;
    MergeDefaults(fields, a);
    EncodingEnds(fields, a, Defaults(fields));
    OneFixedMeets(fields);
    var st := DecLoop(fields, EncMsg(fields, a).value, Start(Defaults(fields))).st;
    RunFrom(fields, 0, b, st);
    LoopConcat(fields, EncMsg(fields, a).value, EncMsg(fields, b).value, Start(Defaults(fields)));
  }

  /** A message with one array of exactly one bool: its encoding is decoded, and the same encoding twice is not. */
  lemma {:induction false} FixedCountExample(f: Field, m: Msg)
    requires f == Field(1, Repeated, LType.Bool, 0, 0, 1, 1, Null) && m == Msg([Rep([Num(1)])])
    ensures WellFormed([f]) && Encodable([f], m) && EncMsg([f], m).Some?
    ensures Decode([f], EncMsg([f], m).value).Parsed? && Decode([f], EncMsg([f], m).value + EncMsg([f], m).value) == Bad
  {
    var fields := [f];
    var s := m.slots[0];
    OneBool(f);
    assert EncodableSlot(f, s);
    assert SlotOf(fields, m, 0) == s && Home(fields, 0) == 0;
    assert Encodable(fields, m);
    assert Solid(fields[0]) && OneFixed(fields);
    RoundTrips(fields, m);
    LastOneWins(fields, m, m);
  }

  lemma {:induction false} OneBool(f: Field)
    requires f == Field(1, Repeated, LType.Bool, 0, 0, 1, 1, Null)
    ensures WellFormed([f]) && EncItems(f, [Num(1)]).Some? && |EncItems(f, [Num(1)]).value| < TWO32
  {
    assert EncItems(f, []) == Some([]);
    assert [Num(1)][1..] == [];
    assert VarintBytes(1) == [1];
  }
}
