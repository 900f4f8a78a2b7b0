/** Equality of messages, and merging a message into the defaults of its type. */
module Equality {
  import opened Bits
  import opened Descriptor
  import opened Merging
  import opened ScalarRoundTrip
  import opened WireDecode
  import opened WireEncode

  // ----- equality of messages, up to what the wire form does not carry

  /** Equal values; strings are compared up to their first NUL. */
  predicate SameVal(f: Field, a: Value, b: Value)
    decreases f, 0
  {
    match f.ltype
    case Submessage => f.ptr.Fields? && a.Nested? && b.Nested? && SameMsg(f.ptr.fields, a.m, b.m)
    case String => a.Text? && b.Text? && TextContent(f, a.chars) == TextContent(f, b.chars)
    case _ => a == b
  }

  /** Equal contents of field f's storage cell; the value of an absent optional field does not count. */
  predicate SameSlot(f: Field, a: Slot, b: Slot)
    decreases f, 1
  {
    match f.htype
    case Required => a.Single? && b.Single? && SameVal(f, a.v, b.v)
    case Optional =>
      if f.sizeOffset != 0 then a.Opt? && b.Opt? && a.has == b.has && (a.has ==> SameVal(f, a.v, b.v))
      else a.Single? && b.Single? && SameVal(f, a.v, b.v)
    case Repeated =>
      a.Rep? && b.Rep? && |a.items| == |b.items| && forall k | 0 <= k < |a.items| :: SameVal(f, a.items[k], b.items[k])
    case Oneof => a.Union? && b.Union? && a.which == b.which && (a.which == f.tag ==> SameVal(f, a.v, b.v))
  }

  predicate SameMsg(fields: seq<Field>, a: Msg, b: Msg)
    decreases fields
  {
    && |a.slots| == |b.slots| == |fields|
    && forall i | 0 <= i < |fields| :: SameSlot(fields[i], SlotOf(fields, a, i), SlotOf(fields, b, i))
  }

  // ----- values

  /** A submessage is decoded into a message that has just been set to its defaults. */
  predicate Fresh(f: Field, prior: Value) {
    f.ltype.Submessage? && f.ptr.Fields? ==> Target(f.ptr.fields, f, prior) == Defaults(f.ptr.fields)
  }

  lemma {:induction false} StrLenBefore(s: bytes, i: nat)
    requires i < StrLen(s)
    ensures s[i] != 0
  {
    if i > 0 {
      StrLenBefore(s[1..], i - 1);
    }
  }

  lemma {:induction false} StrLenIs(s: bytes, n: nat)
    requires n < |s| && s[n] == 0 && forall i | 0 <= i < n :: s[i] != 0
    ensures StrLen(s) == n
  {
    if n > 0 {
      StrLenIs(s[1..], n - 1);
    }
  }

  lemma {:induction false} TextSame(f: Field, v: Value)
    requires f.ltype.String? && ScalarFits(f, v)
    ensures SameVal(f, v, Canonical(f, v))
  {
    var c := TextContent(f, v.chars);
    forall i | 0 <= i < |c| ensures (c + [0])[i] != 0 {
      StrLenBefore(v.chars, i);
    }
    StrLenIs(c + [0], |c|);
    assert (c + [0])[..|c|] == c;
  }

  lemma {:induction false} ValSame(f: Field, v: Value, prior: Value)
    requires WellFormedField(f) && EncodableVal(f, v) && Fresh(f, prior)
    ensures MergeVal(f, prior, v).Some? && SameVal(f, v, MergeVal(f, prior, v).value)
    decreases f, 0
  {
    if f.ltype.Submessage? {
      MergeDefaults(f.ptr.fields, v.m);
    } else if f.ltype.String? {
      TextSame(f, v);
    }
  }

  lemma {:induction false} ItemsSame(f: Field, done: seq<Value>, src: seq<Value>)
    requires WellFormedField(f) && f.htype.Repeated? && |done| + |src| <= f.arraySize
    requires forall j | 0 <= j < |src| :: EncodableVal(f, src[j])
    ensures var r := MergeItems(f, done, |done|, src);
            && r.Some? && |r.value| == |done| + |src| && r.value[..|done|] == done
            && forall j | 0 <= j < |src| :: SameVal(f, src[j], r.value[|done| + j])
    decreases f, 1, |src|
  {
    if src != [] {
      var v := src[0];
      ValSame(f, v, Num(0));
      var w := MergeVal(f, Num(0), v).value;
      ItemsSame(f, done + [w], src[1..]);
      var r := MergeItems(f, done, |done|, src).value;
      assert r[..|done| + 1][..|done|] == done;
      forall j | 0 <= j < |src| ensures SameVal(f, src[j], r[|done| + j]) {
        if j == 0 {
          assert r[..|done| + 1][|done|] == w;
        } else {
          assert src[1..][j - 1] == src[j];
        }
      }
    }
  }

  // ----- defaults

  /** An implicit-presence value that is not sent equals the default it decodes to. */
  lemma {:induction false} ZeroIsDefault(f: Field, v: Value)
    requires WellFormedField(f) && Implicit(f) && EncodableVal(f, v) && IsZero(f, v)
    ensures SameVal(f, v, DefaultValue(f))
    decreases f, 0
  {
    if f.ltype.Submessage? {
      DefaultsAreSame(f.ptr.fields, v.m);
    } else if f.ltype.FixedLengthBytes? {
      assert v.b == [] == Zeros(0);
    }
  }

  lemma {:induction false} SlotIsDefault(f: Field, s: Slot)
    requires WellFormedField(f) && f.tag > 0 && EncodableSlot(f, s) && IsDefault(f, s)
    ensures SameSlot(f, s, DefaultSlot(f))
    decreases f, 1
  {
    if f.htype.Optional? && f.sizeOffset == 0 {
      ZeroIsDefault(f, s.v);
    }
  }

  lemma {:induction false} DefaultsAreSame(fields: seq<Field>, m: Msg)
    requires WellFormed(fields) && Encodable(fields, m)
    requires forall i | 0 <= i < |fields| :: IsDefault(fields[i], SlotOf(fields, m, i))
    ensures SameMsg(fields, m, Defaults(fields))
    decreases fields
  {
    forall i | 0 <= i < |fields|
      ensures SameSlot(fields[i], SlotOf(fields, m, i), SlotOf(fields, Defaults(fields), i))
    {
      assert fields[i].tag > 0;
      SlotIsDefault(fields[i], SlotOf(fields, m, i));
      DefaultAt(fields, i);
    }
  }

  /** Every field's storage cell holds that field's default. */
  lemma {:induction false} DefaultAt(fields: seq<Field>, i: nat)
    requires i < |fields|
    ensures SlotOf(fields, Defaults(fields), i) == DefaultSlot(fields[i])
  {
    HomeFacts(fields, i);
  }

  // ----- merging into the defaults, field by field

  /** One of the fields before i is the member with this tag of the union of field j. */
  predicate Reached(fields: seq<Field>, i: nat, j: nat, which: nat)
    requires i <= |fields| && j < |fields|
  {
    exists p | 0 <= p < i :: IsMember(fields, Home(fields, j), p, which)
  }

  /** Storage cell of field j (y in the source, x in the result) after the fields before i were merged. */
  predicate CellDone(fields: seq<Field>, i: nat, j: nat, y: Slot, x: Slot)
    requires i <= |fields| && j < |fields|
  {
    if fields[j].htype.Oneof? then
      y.Union? &&
      if Reached(fields, i, j, y.which) then
        x.Union? && x.which == y.which && (y.which == fields[j].tag ==> SameVal(fields[j], y.v, x.v))
      else x == NO_MEMBER
    else if j < i then SameSlot(fields[j], y, x)
    else x == DefaultSlot(fields[j])
  }

  predicate MergedUpTo(fields: seq<Field>, i: nat, b: Msg, a: Msg)
    requires i <= |fields| == |a.slots| == |b.slots|
  {
    forall j | 0 <= j < |fields| :: CellDone(fields, i, j, SlotOf(fields, b, j), SlotOf(fields, a, j))
  }

  /** A field with a cell of its own. */
  lemma {:induction false} OwnCell(f: Field, y: Slot)
    requires WellFormedField(f) && EncodableSlot(f, y) && !f.htype.Oneof?
    ensures var r := MergeSlot(f, DefaultSlot(f), y);
            r.Some? && SameSlot(f, y, r.value)
    decreases f, 2
  {
    hide MergeVal, MergeItems, SameVal, IsZero, SameMsg, Merge;
    match f.htype
    case Required => ValSame(f, y.v, DefaultValue(f));
    case Optional =>
      var sent := if f.sizeOffset != 0 then y.has else !IsZero(f, y.v);
      if sent {
        ValSame(f, y.v, DefaultValue(f));
      } else if f.sizeOffset == 0 {
        ZeroIsDefault(f, y.v);
      }
    case Repeated => ItemsSame(f, [], y.items);
    case Oneof =>
  }

  /** The member of a union that is set. */
  lemma {:induction false} MemberCell(f: Field, y: Slot)
    requires WellFormedField(f) && EncodableSlot(f, y) && f.htype.Oneof? && y.which == f.tag && f.tag != 0
    ensures var r := MergeSlot(f, NO_MEMBER, y);
            r.Some? && r.value.Union? && r.value.which == f.tag && SameVal(f, y.v, r.value.v)
    decreases f, 2
  {
    ValSame(f, y.v, MemberBase(f, NO_MEMBER));
  }

  /** What merging field i does to its own cell. */
  lemma {:induction false} CellMerged(fields: seq<Field>, i: nat, y: Slot, x: Slot)
    requires WellFormed(fields) && i < |fields| && EncodableSlot(fields[i], y) && CellDone(fields, i, i, y, x)
    ensures MergeSlot(fields[i], x, y).Some?
    ensures fields[i].htype.Oneof? ==>
              var s := MergeSlot(fields[i], x, y).value;
              if y.which == fields[i].tag then s.Union? && s.which == y.which && SameVal(fields[i], y.v, s.v)
              else s == x
    ensures !fields[i].htype.Oneof? ==> SameSlot(fields[i], y, MergeSlot(fields[i], x, y).value)
    decreases fields[i], 3
  {
    var f := fields[i];
    assert 0 < f.tag;
    if !f.htype.Oneof? {
      OwnCell(f, y);
    } else if y.which == f.tag {
      MemberCell(f, y);
    }
  }

  /** The other fields' cells. */
  lemma {:induction false} CellKept(fields: seq<Field>, i: nat, j: nat, y: Slot, x: Slot)
    requires i < |fields| && j < |fields| && Home(fields, j) != Home(fields, i) && CellDone(fields, i, j, y, x)
    ensures CellDone(fields, i + 1, j, y, x)
  {
  }

  /** The fields that share a cell with field i. */
  lemma {:induction false} CellShared(fields: seq<Field>, i: nat, j: nat, y: Slot, x: Slot, s: Slot)
    requires WellFormed(fields) && i < |fields| && j < |fields| && Home(fields, j) == Home(fields, i)
    requires CellDone(fields, i, j, y, x)
    requires fields[i].htype.Oneof? ==>
               y.Union? &&
               if y.which == fields[i].tag then s.Union? && s.which == y.which && SameVal(fields[i], y.v, s.v)
               else s == x
    requires !fields[i].htype.Oneof? ==> SameSlot(fields[i], y, s)
    ensures CellDone(fields, i + 1, j, y, s)
  {
    HomeFacts(fields, i);
    HomeFacts(fields, j);
    if fields[i].htype.Oneof? {
      if y.which == fields[i].tag {
        assert IsMember(fields, Home(fields, j), i, y.which);
      } else if Reached(fields, i + 1, j, y.which) {
        var p :| 0 <= p < i + 1 && IsMember(fields, Home(fields, j), p, y.which);
        assert Reached(fields, i, j, y.which);
      }
    }
  }

  lemma {:induction false} MergeOneField(fields: seq<Field>, i: nat, b: Msg, a: Msg)
    requires WellFormed(fields) && Encodable(fields, b) && i < |fields| == |a.slots| && MergedUpTo(fields, i, b, a)
    ensures var r := MergeSlot(fields[i], SlotOf(fields, a, i), SlotOf(fields, b, i));
            r.Some? && MergedUpTo(fields, i + 1, b, WithSlot(fields, a, i, r.value))
    decreases fields[i], 4
  {
    var x, y := SlotOf(fields, a, i), SlotOf(fields, b, i);
    CellMerged(fields, i, y, x);
    var s := MergeSlot(fields[i], x, y).value;
    var a' := WithSlot(fields, a, i, s);
    forall j | 0 <= j < |fields| ensures CellDone(fields, i + 1, j, SlotOf(fields, b, j), SlotOf(fields, a', j)) {
      if Home(fields, j) == Home(fields, i) {
        CellShared(fields, i, j, y, x, s);
      } else {
        CellKept(fields, i, j, SlotOf(fields, b, j), SlotOf(fields, a, j));
      }
    }
  }

  lemma {:induction false} MergeFromSame(fields: seq<Field>, i: nat, b: Msg, a: Msg)
    requires WellFormed(fields) && Encodable(fields, b) && i <= |fields| == |a.slots| && MergedUpTo(fields, i, b, a)
    ensures MergeFrom(fields, i, a, b).Some? && MergedUpTo(fields, |fields|, b, MergeFrom(fields, i, a, b).value)
    decreases fields, |fields| - i
  {
    if i < |fields| {
      MergeOneField(fields, i, b, a);
      var s := MergeSlot(fields[i], SlotOf(fields, a, i), SlotOf(fields, b, i)).value;
      MergeFromSame(fields, i + 1, b, WithSlot(fields, a, i, s));
    }
  }

  lemma {:induction false} MergedIsSame(fields: seq<Field>, b: Msg, a: Msg)
    requires WellFormed(fields) && Encodable(fields, b) && |a.slots| == |fields| && MergedUpTo(fields, |fields|, b, a)
    ensures SameMsg(fields, b, a)
  {
  }

  lemma {:induction false} StartMerged(fields: seq<Field>, b: Msg)
    requires Encodable(fields, b)
    ensures MergedUpTo(fields, 0, b, Defaults(fields))
  {
    forall j | 0 <= j < |fields|
      ensures CellDone(fields, 0, j, SlotOf(fields, b, j), SlotOf(fields, Defaults(fields), j))
    {
      DefaultAt(fields, j);
      assert EncodableSlot(fields[j], SlotOf(fields, b, j));
    }
  }

  /** Merging a message into the defaults of its type gives that message. */
  lemma {:induction false} MergeDefaults(fields: seq<Field>, b: Msg)
    requires WellFormed(fields) && Encodable(fields, b)
    ensures Merge(fields, Defaults(fields), b).Some?
    ensures SameMsg(fields, b, Merge(fields, Defaults(fields), b).value)
    decreases fields, |fields| + 1
  {
    StartMerged(fields, b);
    MergeFromSame(fields, 0, b, Defaults(fields));
    MergedIsSame(fields, b, MergeFrom(fields, 0, Defaults(fields), b).value);
  }

  // ----- messages equal to the same message are equal

  lemma {:induction false} SameVals(f: Field, a: Value, b: Value, c: Value)
    requires SameVal(f, a, c) && SameVal(f, b, c)
    ensures SameVal(f, a, b)
    decreases f, 0
  {
    if f.ltype.Submessage? {
      SameMsgs(f.ptr.fields, a.m, b.m, c.m);
    }
  }

  lemma {:induction false} SameSlots(f: Field, a: Slot, b: Slot, c: Slot)
    requires SameSlot(f, a, c) && SameSlot(f, b, c)
    ensures SameSlot(f, a, b)
    decreases f, 1
  {
    hide SameVal;
    match f.htype
    case Repeated =>
      forall k | 0 <= k < |a.items| ensures SameVal(f, a.items[k], b.items[k]) {
        SameVals(f, a.items[k], b.items[k], c.items[k]);
      }
    case Required => SameVals(f, a.v, b.v, c.v);
    case Optional => if f.sizeOffset == 0 || a.has { SameVals(f, a.v, b.v, c.v); }
    case Oneof => if a.which == f.tag { SameVals(f, a.v, b.v, c.v); }
  }

  lemma {:induction false} SameMsgs(fields: seq<Field>, a: Msg, b: Msg, c: Msg)
    requires SameMsg(fields, a, c) && SameMsg(fields, b, c)
    ensures SameMsg(fields, a, b)
    decreases fields
  {
    hide SameSlot;
    forall i | 0 <= i < |fields| ensures SameSlot(fields[i], SlotOf(fields, a, i), SlotOf(fields, b, i)) {
      SameSlots(fields[i], SlotOf(fields, a, i), SlotOf(fields, b, i), SlotOf(fields, c, i));
    }
  }
}
