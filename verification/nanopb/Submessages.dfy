/** A submessage is merged into the one that its field holds, and starts afresh where it holds none. */
module Submessages {
  import opened Bits
  import opened Concatenation
  import opened Descriptor
  import opened ForwardCompat
  import opened MergeMeaning
  import opened MergeRun
  import opened Merging
  import opened ScalarRoundTrip
  import opened Varint
  import opened WireDecode
  import opened WireEncode
  import opened Wrappers

  /** The cell of a submessage field with the message m, as a member that was received last. */
  function Holding(f: Field, m: Msg): Slot {
    match f.htype
    case Optional => if f.sizeOffset != 0 then Opt(true, Nested(m)) else Single(Nested(m))
    case Oneof => Union(f.tag, Nested(m))
    case _ => Single(Nested(m))
  }

  /** The cell holds the message m; an optional field holds one also while it is absent. */
  predicate Holds(f: Field, s: Slot, m: Msg) {
    s == Holding(f, m) || (f.htype.Optional? && f.sizeOffset != 0 && s == Opt(false, Nested(m)))
  }

  predicate Singular(f: Field) {
    f.ltype.Submessage? && f.ptr.Fields? && !f.htype.Repeated?
  }

  /** Merging goes into the very message that the field held. */
  lemma {:induction false} MergedInto(fields: seq<Field>, a: Msg, b: Msg, i: nat, m: Msg, n: Msg)
    requires WellFormed(fields) && Encodable(fields, b) && i < |fields| == |a.slots| && Merge(fields, a, b).Some?
    requires Singular(fields[i]) && |m.slots| == |fields[i].ptr.fields|
    requires Holds(fields[i], SlotOf(fields, a, i), m) && SlotOf(fields, b, i) == Holding(fields[i], n)
    requires EncSlot(fields[i], Holding(fields[i], n)) != Some([])
    ensures Merge(fields[i].ptr.fields, m, n).Some?
    ensures SlotOf(fields, Merge(fields, a, b).value, i) ==
            Holding(fields[i], Merge(fields[i].ptr.fields, m, n).value)
  {
    hide MergeFrom, Encodable, EncRecord;
    MergedFields(fields, a, b, i);
    Tagless(fields, i);
  }

  lemma {:induction false} Tagless(fields: seq<Field>, i: nat)
    requires WellFormed(fields) && i < |fields|
    ensures fields[i].tag > 0
  {
  }

  /** A member that replaces another one in its union, or comes into an empty one, starts afresh. */
  lemma {:induction false} MergedFresh(fields: seq<Field>, a: Msg, b: Msg, i: nat, n: Msg)
    requires WellFormed(fields) && Encodable(fields, b) && i < |fields| == |a.slots| && Merge(fields, a, b).Some?
    requires Singular(fields[i]) && fields[i].htype.Oneof?
    requires SlotOf(fields, a, i).Union? && SlotOf(fields, a, i).which != fields[i].tag
    requires SlotOf(fields, b, i) == Union(fields[i].tag, Nested(n))
    ensures Merge(fields[i].ptr.fields, Defaults(fields[i].ptr.fields), n).Some?
    ensures SlotOf(fields, Merge(fields, a, b).value, i) ==
            Union(fields[i].tag, Nested(Merge(fields[i].ptr.fields, Defaults(fields[i].ptr.fields), n).value))
  {
    hide MergeFrom, Encodable;
    MergedFields(fields, a, b, i);
  }

  // ----- records

  /** A record of a submessage field with the payload p. */
  function SubRecord(f: Field, p: bytes): bytes {
    TagBytes(f.tag, 2) + LengthPrefixed(p)
  }

  /** The decoder's variables after the message z was stored in field i. */
  function Stored(fields: seq<Field>, i: nat, st: DState, z: Msg): (w: DState)
    requires i < |fields| && StateOk(fields, st)
    ensures StateOk(fields, w)
  {
    Store(fields, i, st, Holding(fields[i], z), 0)
  }

  lemma {:induction false} SubRead(f: Field, p: bytes, prior: Value, t: bytes)
    requires f.ltype.Submessage? && f.ptr.Fields? && |p| < TWO32
    ensures DecElem(f, LengthPrefixed(p) + t, prior) ==
            match DecodeNoinit(f.ptr.fields, p, Target(f.ptr.fields, f, prior))
            case Bad => Bad
            case Parsed(z, _) => Parsed(Nested(z), t)
  {
    hide DecodeNoinit;
    StringRoundTrip(p, t);
  }

  /** A record is decoded into the message that the field holds. */
  lemma {:induction false} IntoHeld(fields: seq<Field>, i: nat, p: bytes, st: DState, m: Msg, t: bytes)
    requires WellFormed(fields) && i < |fields| && StateOk(fields, st) && |p| < TWO32
    requires Singular(fields[i]) && |m.slots| == |fields[i].ptr.fields|
    requires Holds(fields[i], SlotOf(fields, st.msg, i), m)
    ensures Step(fields, SubRecord(fields[i], p) + t, st) ==
            match DecodeNoinit(fields[i].ptr.fields, p, m)
            case Bad => Fail
            case Parsed(z, _) => Next(Stored(fields, i, st, z), t)
  {
    hide DecLoop, Step, DecodeNoinit, DecElem;
    Assoc(TagBytes(fields[i].tag, 2), LengthPrefixed(p), t);
    KeyRun(fields, i, 2, LengthPrefixed(p) + t, st);
    SubRead(fields[i], p, Nested(m), t);
  }

  /** A record of a union member that the union does not hold is decoded into a fresh message. */
  lemma {:induction false} IntoFresh(fields: seq<Field>, i: nat, p: bytes, st: DState, t: bytes)
    requires WellFormed(fields) && i < |fields| && StateOk(fields, st) && |p| < TWO32
    requires Singular(fields[i]) && fields[i].htype.Oneof?
    requires SlotOf(fields, st.msg, i).Union? && SlotOf(fields, st.msg, i).which != fields[i].tag
    ensures Step(fields, SubRecord(fields[i], p) + t, st) ==
            match DecodeNoinit(fields[i].ptr.fields, p, Defaults(fields[i].ptr.fields))
            case Bad => Fail
            case Parsed(z, _) => Next(Stored(fields, i, st, z), t)
  {
    hide DecLoop, Step, DecodeNoinit, DecElem;
    Assoc(TagBytes(fields[i].tag, 2), LengthPrefixed(p), t);
    KeyRun(fields, i, 2, LengthPrefixed(p) + t, st);
    SubRead(fields[i], p, DefaultValue(fields[i]), t);
  }

  /** An item of an array of submessages is decoded into a fresh message, and appended while there is room. */
  lemma {:induction false} IntoArray(fields: seq<Field>, i: nat, p: bytes, st: DState, items: seq<Value>, t: bytes)
    requires WellFormed(fields) && i < |fields| && StateOk(fields, st) && |p| < TWO32
    requires fields[i].ltype.Submessage? && fields[i].ptr.Fields?
    requires fields[i].htype.Repeated? && !FixedCount(fields[i])
    requires SlotOf(fields, st.msg, i) == Rep(items)
    ensures Step(fields, SubRecord(fields[i], p) + t, st) ==
            if |items| >= fields[i].arraySize then Fail
            else
              match DecodeNoinit(fields[i].ptr.fields, p, Defaults(fields[i].ptr.fields))
              case Bad => Fail
              case Parsed(z, _) => Next(Store(fields, i, st, Rep(items + [Nested(z)]), 0), t)
  {
    hide DecLoop, Step, DecodeNoinit, DecElem;
    Assoc(TagBytes(fields[i].tag, 2), LengthPrefixed(p), t);
    KeyRun(fields, i, 2, LengthPrefixed(p) + t, st);
    SubRead(fields[i], p, Num(0), t);
  }

  lemma {:induction false} StoredHolds(fields: seq<Field>, i: nat, st: DState, y: Msg, z: Msg)
    requires i < |fields| && StateOk(fields, st) && Singular(fields[i])
    ensures Holds(fields[i], SlotOf(fields, Stored(fields, i, st, y).msg, i), y)
    ensures Stored(fields, i, Stored(fields, i, st, y), z) == Stored(fields, i, st, z)
  {
  }

  /**
   Two records of a submessage field decode as one record with both payloads, if each payload is
   accepted; unless the second payload begins with the fixed-count field that the first ended with.
   */
  lemma {:induction false} RecordsJoin(fields: seq<Field>, i: nat, p: bytes, q: bytes, st: DState, m: Msg, t: bytes)
    requires WellFormed(fields) && i < |fields| && StateOk(fields, st) && |p| + |q| < TWO32
    requires Singular(fields[i]) && |m.slots| == |fields[i].ptr.fields|
    requires Holds(fields[i], SlotOf(fields, st.msg, i), m)
    requires Boundary(fields[i].ptr.fields, p, m) && DecodeNoinit(fields[i].ptr.fields, p, m).Parsed?
    requires DecodeNoinit(fields[i].ptr.fields, q, DecodeNoinit(fields[i].ptr.fields, p, m).value).Parsed?
    ensures var sub := fields[i].ptr.fields;
            var end := DecLoop(sub, p, Start(m)).st;
            var f := fields[i];
            DecLoop(fields, SubRecord(f, p + q) + t, st) ==
            if Clash(sub, q, Start(end.msg), end) then Failed
            else DecLoop(fields, SubRecord(f, p) + (SubRecord(f, q) + t), st)
  {
    var f, sub := fields[i], fields[i].ptr.fields;
    FirstResult(sub, p, m);
    hide DecLoop, Step, DecodeNoinit, Stored, Holding, Holds, Clash;
    ConcatIsMerge(sub, p, q, m);
    var y := DecodeNoinit(sub, p, m).value;
    IntoHeld(fields, i, p + q, st, m, t);
    IntoHeld(fields, i, p, st, m, SubRecord(f, q) + t);
    StoredHolds(fields, i, st, y, y);
    IntoHeld(fields, i, q, Stored(fields, i, st, y), y, t);
    SomeBytes(f, p + q, t);
    SomeBytes(f, p, SubRecord(f, q) + t);
    SomeBytes(f, q, t);
    LoopTurn(fields, SubRecord(f, p + q) + t, st);
    LoopTurn(fields, SubRecord(f, p) + (SubRecord(f, q) + t), st);
    LoopTurn(fields, SubRecord(f, q) + t, Stored(fields, i, st, y));
    var z := DecodeNoinit(sub, q, y).value;
    StoredHolds(fields, i, st, y, z);
  }

  lemma {:induction false} FirstResult(sub: seq<Field>, p: bytes, m: Msg)
    requires |m.slots| == |sub| && Boundary(sub, p, m) && DecodeNoinit(sub, p, m).Parsed?
    ensures FixedComplete(sub, DecLoop(sub, p, Start(m)).st)
    ensures DecodeNoinit(sub, p, m) == Parsed(DecLoop(sub, p, Start(m)).st.msg, [])
  {
  }

  lemma {:induction false} SomeBytes(f: Field, p: bytes, t: bytes)
    ensures SubRecord(f, p) + t != []
  {
  }
}
