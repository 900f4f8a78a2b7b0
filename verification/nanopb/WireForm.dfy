/**
 The wire form of an encoding, written down by itself: the numbers of the wire types, which
 number a key spells, how every item is laid out, and which fields are not sent.
 */
module WireForm {
  import opened Bits
  import opened Descriptor
  import opened Equality
  import opened ForwardCompat
  import opened MergeRun
  import opened Merging
  import opened Varint
  import opened WireEncode
  import opened Wrappers

  // ----- the form

  /**
   The shortest varint that spells n: seven bits a byte, low group first, the last one not zero unless it is alone.
   */
  predicate Spells(e: bytes, n: int) {
    e != [] && e[|e| - 1] < 128 && (forall i | 0 <= i < |e| - 1 :: e[i] >= 128) &&
    RawValue(e) == n && (|e| > 1 ==> e[|e| - 1] != 0)
  }

  /** A length and as many bytes. */
  ghost predicate Prefixed(e: bytes, b: bytes) {
    exists n | 0 <= n <= |e| :: Spells(e[..n], |b|) && e[n..] == b
  }

  /** The characters before the first NUL. */
  predicate BeforeNul(chars: bytes, c: bytes) {
    |c| < |chars| && c == chars[..|c|] && chars[|c|] == 0 && forall i | 0 <= i < |c| :: c[i] != 0
  }

  /** The wire type of an item. */
  function ItemWire(l: LType): nat {
    match l
    case Bool => 0
    case Varint => 0
    case UVarint => 0
    case SVarint => 0
    case Fixed64 => 1
    case Fixed32 => 5
    case Bytes => 2
    case String => 2
    case Submessage => 2
    case FixedLengthBytes => 2
  }

  /** Four bytes from index i on, the low one first. */
  function Word(e: bytes, i: nat): int
    requires i + 4 <= |e|
  {
    (e[i] as int) + 0x100 * (e[i + 1] as int) + 0x1_0000 * (e[i + 2] as int) + 0x100_0000 * (e[i + 3] as int)
  }

  /** The bytes e of a scalar, bytes or string item. */
  ghost predicate ScalarForm(f: Field, v: Value, e: bytes) {
    match f.ltype
    case Bool => v.Num? && e == [if v.n == 0 then 0 else 1]
    case Varint => v.Num? && Spells(e, if v.n < 0 then v.n + 0x1_0000_0000_0000_0000 else v.n)
    case UVarint => v.Num? && Spells(e, v.n)
    case SVarint => v.Num? && Spells(e, if v.n < 0 then -2 * v.n - 1 else 2 * v.n)
    case Fixed32 => v.Num? && |e| == 4 && v.n == Word(e, 0)
    case Fixed64 => v.Num? && |e| == 8 && v.n == Word(e, 0) + 0x1_0000_0000 * Word(e, 4)
    case Bytes => v.Blob? && Prefixed(e, v.b)
    case FixedLengthBytes => v.Blob? && Prefixed(e, v.b)
    case String => v.Text? && exists c: bytes :: BeforeNul(v.chars, c) && Prefixed(e, c)
    case Submessage => false
  }

  ghost predicate ItemForm(f: Field, v: Value, e: bytes)
    decreases f, 0
  {
    if !f.ltype.Submessage? then ScalarForm(f, v, e)
    else
      f.ptr.Fields? && v.Nested? && |v.m.slots| == |f.ptr.fields| &&
      exists b: bytes :: Prefixed(e, b) && MsgForm(f.ptr.fields, 0, v.m, b)
  }

  /** A key and what it announces. */
  ghost predicate Keyed(tag: nat, wt: nat, r: bytes, e: bytes) {
    exists n | 0 <= n <= |r| :: Spells(r[..n], 8 * tag + wt) && r[n..] == e
  }

  ghost predicate RecordForm(f: Field, v: Value, r: bytes)
    decreases f, 1
  {
    exists e: bytes :: Keyed(f.tag, ItemWire(f.ltype), r, e) && ItemForm(f, v, e)
  }

  /** The items one after the other, bare or each with its key. */
  ghost predicate ItemsForm(f: Field, items: seq<Value>, keyed: bool, b: bytes)
    decreases f, 2, |items|
  {
    if items == [] then b == []
    else
      exists n | 0 <= n <= |b| ::
        (if keyed then RecordForm(f, items[0], b[..n]) else ItemForm(f, items[0], b[..n])) &&
        ItemsForm(f, items[1..], keyed, b[n..])
  }

  /** A value of an implicit-presence field that is not sent. */
  predicate NotSent(f: Field, v: Value) {
    match f.ltype
    case Bytes => v == Blob([])
    case String => v.Text? && v.chars != [] && v.chars[0] == 0
    case FixedLengthBytes => f.dataSize == 0
    case Submessage =>
      v.Nested? && f.ptr.Fields? && EncMsg(f.ptr.fields, v.m) == Some([]) &&
      forall i | 0 <= i < |f.ptr.fields| :: !FixedCount(f.ptr.fields[i])
    case _ => v == Num(0)
  }

  /** Nothing is sent for the field. */
  predicate Silent(f: Field, s: Slot) {
    match f.htype
    case Required => false
    case Optional => if f.sizeOffset != 0 then s.Opt? && !s.has else s.Single? && NotSent(f, s.v)
    case Repeated => s == Rep([])
    case Oneof => s.Union? && s.which != f.tag
  }

  /** What is sent for the field, if anything. */
  ghost predicate SlotForm(f: Field, s: Slot, b: bytes)
    decreases f, 3
  {
    if Silent(f, s) then b == []
    else
      match f.htype
      case Required => s.Single? && RecordForm(f, s.v, b)
      case Optional => if f.sizeOffset != 0 then s.Opt? && RecordForm(f, s.v, b) else s.Single? && RecordForm(f, s.v, b)
      case Oneof => s.Union? && RecordForm(f, s.v, b)
      case Repeated =>
        s.Rep? &&
        if f.ltype.Bool? || f.ltype.Varint? || f.ltype.UVarint? || f.ltype.SVarint? || f.ltype.Fixed32? ||
            f.ltype.Fixed64?
        then exists e: bytes, p: bytes :: Keyed(f.tag, 2, b, e) && Prefixed(e, p) && ItemsForm(f, s.items, false, p)
        else ItemsForm(f, s.items, true, b)
  }

  /** The fields from the i-th on, in the order of the descriptor. */
  ghost predicate MsgForm(fields: seq<Field>, i: nat, m: Msg, b: bytes)
    requires |m.slots| == |fields|
    decreases fields, |fields| - i
  {
    if i >= |fields| then b == []
    else
      exists n | 0 <= n <= |b| ::
        SlotForm(fields[i], SlotOf(fields, m, i), b[..n]) && MsgForm(fields, i + 1, m, b[n..])
  }

  // ----- encodings have it

  lemma {:induction false} Spelled(v: nat)
    ensures Spells(VarintBytes(v), v)
  {
    if v >= 128 {
      Spelled(v / 128);
      assert VarintBytes(v)[1..] == VarintBytes(v / 128);
    }
  }

  lemma {:induction false} PrefixedIs(b: bytes)
    ensures Prefixed(LengthPrefixed(b), b)
  {
    var n, e := |VarintBytes(|b|)|, LengthPrefixed(b);
    Spelled(|b|);
    assert e[..n] == VarintBytes(|b|) && e[n..] == b;
  }

  lemma {:induction false} KeyedIs(tag: nat, wt: nat, e: bytes)
    ensures Keyed(tag, wt, TagBytes(tag, wt) + e, e)
  {
    var n, r := |TagBytes(tag, wt)|, TagBytes(tag, wt) + e;
    Spelled(tag * 8 + wt);
    assert r[..n] == TagBytes(tag, wt) && r[n..] == e;
  }

  lemma {:induction false} LEUnfold(n: nat, k: nat)
    requires k > 0
    ensures LEBytes(n, k)[0] == n % 0x100 && LEBytes(n, k)[1..] == LEBytes(n / 0x100, k - 1)
  {
  }

  /** The first four bytes, and what is left. */
  lemma {:induction false} LEWord(n: nat, k: nat) returns (h: nat)
    requires k >= 4
    ensures n == Word(LEBytes(n, k), 0) + 0x1_0000_0000 * h && LEBytes(n, k)[4..] == LEBytes(h, k - 4)
  {
    var n1, n2, n3 := n / 0x100, n / 0x100 / 0x100, n / 0x100 / 0x100 / 0x100;
    LEUnfold(n, k);
    LEUnfold(n1, k - 1);
    LEUnfold(n2, k - 2);
    LEUnfold(n3, k - 3);
    h := n3 / 0x100;
    hide LEBytes;
    var e := LEBytes(n, k);
    assert e[1] == e[1..][0] && e[2] == e[1..][1..][0] && e[3] == e[1..][1..][1..][0];
    assert e[1..][1..][1..][1..] == e[4..];
  }

  lemma {:induction false} LEForm4(n: nat)
    requires n < TWO32
    ensures n == Word(LEBytes(n, 4), 0)
  {
    var h := LEWord(n, 4);
    WordBound(LEBytes(n, 4), 0);
  }

  lemma {:induction false} WordBound(e: bytes, i: nat)
    requires i + 4 <= |e|
    ensures 0 <= Word(e, i) < 0x1_0000_0000
  {
  }

  lemma {:induction false} LEForm8(n: nat)
    requires n < TWO64
    ensures var e := LEBytes(n, 8);
            n == Word(e, 0) + 0x1_0000_0000 * Word(e, 4)
  {
    var e := LEBytes(n, 8);
    var h := LEWord(n, 8);
    WordBound(e, 0);
    LEForm4(h);
    assert Word(e, 4) == Word(e[4..], 0);
  }

  lemma {:induction false} TextForm(f: Field, chars: bytes)
    requires |chars| <= f.dataSize && StrLen(chars) < |chars|
    ensures BeforeNul(chars, TextContent(f, chars))
  {
    forall i | 0 <= i < StrLen(chars) ensures chars[i] != 0 {
      StrLenBefore(chars, i);
    }
  }

  lemma {:induction false} ScalarHasForm(f: Field, v: Value)
    requires WellFormedField(f) && ScalarFits(f, v)
    ensures EncElem(f, v).Some? && ScalarForm(f, v, EncElem(f, v).value)
  {
    match f.ltype
    case Bool => BoolForm(f, v);
    case Varint => NumberForm(f, v);
    case UVarint => NumberForm(f, v);
    case SVarint => SignedForm(f, v);
    case Fixed32 => WordForm(f, v);
    case Fixed64 => WordForm(f, v);
    case _ => BlobForm(f, v);
  }

  lemma {:induction false} BoolForm(f: Field, v: Value)
    requires f.ltype.Bool? && ScalarFits(f, v)
    ensures EncElem(f, v).Some? && ScalarForm(f, v, EncElem(f, v).value)
  {
    assert VarintBytes(0) == [0] && VarintBytes(1) == [1];
  }

  lemma {:induction false} NumberForm(f: Field, v: Value)
    requires (f.ltype.Varint? || f.ltype.UVarint?) && ScalarFits(f, v)
    ensures EncElem(f, v).Some? && ScalarForm(f, v, EncElem(f, v).value)
  {
    hide Spells;
    assert v.n % TWO64 == if v.n < 0 then v.n + TWO64 else v.n;
    Spelled(v.n % TWO64);
  }

  lemma {:induction false} WordForm(f: Field, v: Value)
    requires (f.ltype.Fixed32? || f.ltype.Fixed64?) && ScalarFits(f, v)
    ensures EncElem(f, v).Some? && ScalarForm(f, v, EncElem(f, v).value)
  {
    hide Word, LEBytes;
    if f.ltype.Fixed32? {
      assert v.n % TWO32 == v.n;
      LEForm4(v.n);
    } else {
      assert v.n % TWO64 == v.n;
      LEForm8(v.n);
    }
  }

  lemma {:induction false} BlobForm(f: Field, v: Value)
    requires WellFormedField(f) && ScalarFits(f, v) && (f.ltype.Bytes? || f.ltype.FixedLengthBytes? || f.ltype.String?)
    ensures EncElem(f, v).Some? && ScalarForm(f, v, EncElem(f, v).value)
  {
    hide Prefixed, LengthPrefixed;
    match f.ltype
    case Bytes =>
      PrefixedIs(v.b);
      assert BytesCapacity(f) % TWO64 == BytesCapacity(f);
    case FixedLengthBytes => PrefixedIs(v.b);
    case String =>
      TextForm(f, v.chars);
      PrefixedIs(TextContent(f, v.chars));
  }

  lemma {:induction false} SignedForm(f: Field, v: Value)
    requires f.ltype.SVarint? && ScalarFits(f, v)
    ensures EncElem(f, v).Some? && ScalarForm(f, v, EncElem(f, v).value)
  {
    hide Spells;
    assert FitsSigned(v.n, 8);
    CastSignedFits(v.n, 8);
    Spelled(if v.n < 0 then -2 * v.n - 1 else 2 * v.n);
  }

  lemma {:induction false} ItemHasForm(f: Field, v: Value)
    requires WellFormedField(f) && EncodableVal(f, v)
    ensures EncElem(f, v).Some? && ItemForm(f, v, EncElem(f, v).value)
    decreases f, 0
  {
    hide ScalarForm, Prefixed, MsgForm;
    if f.ltype.Submessage? {
      MsgHasForm(f.ptr.fields, v.m);
      PrefixedIs(EncMsg(f.ptr.fields, v.m).value);
    } else {
      ScalarHasForm(f, v);
    }
  }

  lemma {:induction false} RecordHasForm(f: Field, v: Value)
    requires WellFormedField(f) && EncodableVal(f, v)
    ensures EncRecord(f, v).Some? && RecordForm(f, v, EncRecord(f, v).value)
    decreases f, 1
  {
    hide ItemForm, Keyed;
    ItemHasForm(f, v);
    KeyedIs(f.tag, WireType(f.ltype), EncElem(f, v).value);
  }

  lemma {:induction false} ItemsHaveForm(f: Field, items: seq<Value>, keyed: bool)
    requires WellFormedField(f) && forall k | 0 <= k < |items| :: EncodableVal(f, items[k])
    ensures var e := if keyed then EncRecords(f, items) else EncItems(f, items);
            e.Some? && ItemsForm(f, items, keyed, e.value)
    decreases f, 2, |items|
  {
    hide ItemForm, RecordForm;
    if items != [] {
      assert EncodableVal(f, items[0]);
      ItemHasForm(f, items[0]);
      RecordHasForm(f, items[0]);
      ItemsHaveForm(f, items[1..], keyed);
      var b := if keyed then EncRecord(f, items[0]).value else EncElem(f, items[0]).value;
      var e := if keyed then EncRecords(f, items).value else EncItems(f, items).value;
      assert e[..|b|] == b;
    }
  }

  /** What is not sent because it is zero. */
  lemma {:induction false} ZeroIsNotSent(f: Field, v: Value)
    requires WellFormedField(f) && EncodableVal(f, v)
    ensures IsZero(f, v) <==> NotSent(f, v)
    decreases f, 0
  {
    if f.ltype.Submessage? {
      EmptyMsg(f.ptr.fields, v.m);
    }
  }

  /** A message of which nothing is sent, fixed-count arrays aside: every field of it is at its default. */
  lemma {:induction false} EmptyMsg(fields: seq<Field>, m: Msg)
    requires WellFormed(fields) && Encodable(fields, m)
    ensures (forall i | 0 <= i < |fields| :: IsDefault(fields[i], SlotOf(fields, m, i))) <==>
            EncMsg(fields, m) == Some([]) && forall i | 0 <= i < |fields| :: !FixedCount(fields[i])
    decreases fields, |fields| + 1
  {
    hide EncSlot, IsDefault, EncodableSlot;
    EmptyFrom(fields, 0, m);
    forall i | 0 <= i < |fields| ensures IsDefault(fields[i], SlotOf(fields, m, i)) ==>
        Nothing(fields[i], SlotOf(fields, m, i)) {
      SilentSlot(fields[i], SlotOf(fields, m, i));
    }
    if forall i | 0 <= i < |fields| :: Nothing(fields[i], SlotOf(fields, m, i)) {
      forall i | 0 <= i < |fields| ensures IsDefault(fields[i], SlotOf(fields, m, i)) {
        SilentSlot(fields[i], SlotOf(fields, m, i));
        AllSilent(fields, m, i);
      }
    }
  }

  predicate Nothing(f: Field, s: Slot) {
    EncSlot(f, s) == Some([]) && !FixedCount(f)
  }

  lemma {:induction false} EmptyFrom(fields: seq<Field>, i: nat, m: Msg)
    requires i <= |fields| == |m.slots|
    ensures EncFrom(fields, i, m) == Some([]) <==>
            forall j | i <= j < |fields| :: EncSlot(fields[j], SlotOf(fields, m, j)) == Some([])
    decreases |fields| - i
  {
    hide EncSlot;
    if i < |fields| {
      EmptyFrom(fields, i + 1, m);
      var b, rest := EncSlot(fields[i], SlotOf(fields, m, i)), EncFrom(fields, i + 1, m);
      if b.Some? && rest.Some? {
        EmptyParts(b.value, rest.value);
      }
    }
  }

  lemma {:induction false} EmptyParts(a: bytes, b: bytes)
    ensures a + b == [] <==> a == [] && b == []
  {
    assert |a + b| == |a| + |b|;
  }

  /** Nothing is sent for a field exactly when it is silent. */
  lemma {:induction false} SilentSlot(f: Field, s: Slot)
    requires WellFormedField(f) && f.tag > 0 && EncodableSlot(f, s)
    ensures EncSlot(f, s).Some? && (EncSlot(f, s).value == [] <==> Silent(f, s))
    ensures IsDefault(f, s) <==> Silent(f, s) && !FixedCount(f) && (f.htype.Oneof? ==> s.which == 0)
    decreases f, 1
  {
    hide EncodableVal, NotSent, IsZero;
    SlotEncodes(f, s);
    match f.htype
    case Required =>
    case Optional => if f.sizeOffset == 0 { ZeroIsNotSent(f, s.v); }
    case Repeated => if s.items != [] { ArrayNonEmpty(f, s.items); }
    case Oneof =>
  }

  /** If no member of a union is sent, it has none. */
  lemma {:induction false} AllSilent(fields: seq<Field>, m: Msg, i: nat)
    requires WellFormed(fields) && Encodable(fields, m) && i < |fields|
    requires forall j | 0 <= j < |fields| :: Nothing(fields[j], SlotOf(fields, m, j))
    ensures fields[i].htype.Oneof? ==> SlotOf(fields, m, i).Union? && SlotOf(fields, m, i).which == 0
  {
    hide Silent;
    var s := SlotOf(fields, m, i);
    if fields[i].htype.Oneof? {
      assert EncodableSlot(fields[i], s) && WhichOk(fields, i, s);
      if s.which != 0 {
        var j :| 0 <= j < |fields| && IsMember(fields, Home(fields, i), j, s.which);
        MemberSent(fields, m, i, j);
      }
    }
  }

  lemma {:induction false} MemberSent(fields: seq<Field>, m: Msg, i: nat, j: nat)
    requires WellFormed(fields) && Encodable(fields, m) && i < |fields| && j < |fields| && fields[i].htype.Oneof?
    requires SlotOf(fields, m, i).Union? && IsMember(fields, Home(fields, i), j, SlotOf(fields, m, i).which)
    ensures !Nothing(fields[j], SlotOf(fields, m, j))
  {
    HomeFacts(fields, i);
    HomeFacts(fields, j);
    SlotEncodes(fields[j], SlotOf(fields, m, j));
  }

  lemma {:induction false} SlotHasForm(f: Field, s: Slot)
    requires WellFormedField(f) && f.tag > 0 && EncodableSlot(f, s)
    ensures EncSlot(f, s).Some? && SlotForm(f, s, EncSlot(f, s).value)
    decreases f, 3
  {
    hide EncodableVal, RecordForm, ItemsForm, IsZero, NotSent;
    SilentSlot(f, s);
    if !Silent(f, s) {
      match f.htype
      case Required => RecordHasForm(f, s.v);
      case Optional => OptionalHasForm(f, s);
      case Oneof => RecordHasForm(f, s.v);
      case Repeated => ArrayHasForm(f, s);
    }
  }

  lemma {:induction false} OptionalHasForm(f: Field, s: Slot)
    requires WellFormedField(f) && f.htype.Optional? && EncodableSlot(f, s) && !Silent(f, s)
    ensures EncSlot(f, s).Some? && SlotForm(f, s, EncSlot(f, s).value)
    decreases f, 2
  {
    hide EncodableVal, RecordForm, IsZero, NotSent;
    RecordHasForm(f, s.v);
    if f.sizeOffset == 0 {
      ZeroIsNotSent(f, s.v);
    }
  }

  lemma {:induction false} ArrayHasForm(f: Field, s: Slot)
    requires WellFormedField(f) && f.htype.Repeated? && EncodableSlot(f, s) && !Silent(f, s)
    ensures EncSlot(f, s).Some? && SlotForm(f, s, EncSlot(f, s).value)
    decreases f, 3, 0
  {
    hide EncodableVal, RecordForm, ItemsForm, Keyed, Prefixed;
    if Packable(f.ltype) {
      ItemsHaveForm(f, s.items, false);
      var p := EncItems(f, s.items).value;
      PrefixedIs(p);
      KeyedIs(f.tag, WT_STRING, LengthPrefixed(p));
    } else {
      ItemsHaveForm(f, s.items, true);
    }
  }

  lemma {:induction false} FromHasForm(fields: seq<Field>, i: nat, m: Msg)
    requires WellFormed(fields) && Encodable(fields, m) && i <= |fields|
    ensures EncFrom(fields, i, m).Some? && MsgForm(fields, i, m, EncFrom(fields, i, m).value)
    decreases fields, |fields| - i
  {
    hide SlotForm, EncSlot, EncodableSlot, WellFormedField;
    if i < |fields| {
      SlotHasForm(fields[i], SlotOf(fields, m, i));
      FromHasForm(fields, i + 1, m);
      var b := EncSlot(fields[i], SlotOf(fields, m, i)).value;
      var e := EncFrom(fields, i, m).value;
      assert e[..|b|] == b && e[|b|..] == EncFrom(fields, i + 1, m).value;
    }
  }

  /** pb_encode's output has the wire form of the message. */
  lemma {:induction false} MsgHasForm(fields: seq<Field>, m: Msg)
    requires WellFormed(fields) && Encodable(fields, m)
    ensures EncMsg(fields, m).Some? && MsgForm(fields, 0, m, EncMsg(fields, m).value)
    decreases fields, |fields| + 1
  {
    FromHasForm(fields, 0, m);
  }

  // ----- every item is a payload of its wire type

  lemma {:induction false} ScalarIsPayload(f: Field, v: Value)
    requires WellFormedField(f) && ScalarFits(f, v)
    ensures EncElem(f, v).Some? && IsPayload(ItemWire(f.ltype), EncElem(f, v).value)
  {
    ScalarHasForm(f, v);
    match f.ltype
    case Bytes => PayloadOf(v.b);
    case FixedLengthBytes => PayloadOf(v.b);
    case String => PayloadOf(TextContent(f, v.chars));
    case _ =>
  }

  lemma {:induction false} PayloadOf(b: bytes)
    requires |b| < TWO32
    ensures IsPayload(2, LengthPrefixed(b))
  {
  }

  lemma {:induction false} ItemIsPayload(f: Field, v: Value)
    requires WellFormedField(f) && EncodableVal(f, v)
    ensures EncElem(f, v).Some? && IsPayload(WireType(f.ltype), EncElem(f, v).value)
  {
    ValEncodes(f, v);
    if f.ltype.Submessage? {
      PayloadOf(EncMsg(f.ptr.fields, v.m).value);
    } else {
      ScalarIsPayload(f, v);
    }
  }
}
