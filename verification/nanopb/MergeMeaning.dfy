/** What merging does to each field: the last value wins, arrays append, submessages merge. */
module MergeMeaning {
  import opened Descriptor
  import opened Equality
  import opened Merging
  import opened WireDecode
  import opened WireEncode
  import opened Wrappers

  /** A submessage is merged into the one that was there; any other value replaces the one that was there. */
  predicate ValueMerged(f: Field, prior: Value, v: Value, z: Value) {
    if f.ltype.Submessage? then
      v.Nested? && f.ptr.Fields? && z.Nested? && Merge(f.ptr.fields, Target(f.ptr.fields, f, prior), v.m) == Some(z.m)
    else SameVal(f, v, z)
  }

  /** The items of src, read one by one into a fresh item each, lie in z from index k on; the others are those of x. */
  predicate ItemsMerged(f: Field, x: seq<Value>, k: nat, src: seq<Value>, z: seq<Value>) {
    && |z| == (if |x| >= k + |src| then |x| else k + |src|)
    && (forall j | 0 <= j < |z| && j < |x| && !(k <= j < k + |src|) :: z[j] == x[j])
    && (forall j | 0 <= j < |src| :: k + j < |z| && SameVal(f, src[j], z[k + j]))
  }

  /**
   The cell z of a field after the cell y has been merged over the cell x. A union takes over the
   member of y: merged into the same member of x, or else into a fresh one.
   */
  predicate CellMergedTo(f: Field, x: Slot, y: Slot, z: Slot) {
    match f.htype
    case Required => y.Single? && z.Single? && ValueMerged(f, ValueOf(x), y.v, z.v)
    case Optional =>
      if f.sizeOffset != 0 then
        y.Opt? && if y.has then z.Opt? && z.has && ValueMerged(f, ValueOf(x), y.v, z.v) else z == x
      else
        y.Single? && if IsZero(f, y.v) then z == x else z.Single? && ValueMerged(f, ValueOf(x), y.v, z.v)
    case Repeated =>
      y.Rep? && if y.items == [] then z == x
                else z.Rep? && ItemsMerged(f, ItemsOf(x), if FixedCount(f) then 0 else |ItemsOf(x)|, y.items, z.items)
    case Oneof =>
      y.Union?
      && (y.which == f.tag ==>
            z.Union? && z.which == f.tag &&
            ValueMerged(f, if x.Union? && x.which == f.tag then x.v else DefaultValue(f), y.v, z.v))
      && (y.which == 0 ==> z == x)
  }

  lemma {:induction false} ItemsWritten(f: Field, x: seq<Value>, k: nat, src: seq<Value>)
    requires WellFormedField(f) && f.htype.Repeated? && k <= |x|
    requires forall j | 0 <= j < |src| :: EncodableVal(f, src[j])
    ensures MergeItems(f, x, k, src).Some? <==> src == [] || k + |src| <= f.arraySize
    ensures MergeItems(f, x, k, src).Some? ==> ItemsMerged(f, x, k, src, MergeItems(f, x, k, src).value)
    decreases |src|
  {
    hide SameVal, EncodableVal, MergeVal;
    if src != [] && k < f.arraySize {
      assert EncodableVal(f, src[0]);
      FreshItem(f, src[0]);
      var v := MergeVal(f, Num(0), src[0]).value;
      ItemsWritten(f, Put(x, k, v), k + 1, src[1..]);
      var r := MergeItems(f, x, k, src);
      if r.Some? {
        forall j | 0 <= j < |src| ensures k + j < |r.value| && SameVal(f, src[j], r.value[k + j]) {
          if j > 0 {
            assert src[1..][j - 1] == src[j] && r.value[k + j] == r.value[k + 1 + (j - 1)];
          }
        }
      }
    }
  }

  /** An array item is read into a fresh message, if it is one. */
  lemma {:induction false} FreshItem(f: Field, v: Value)
    requires WellFormedField(f) && f.htype.Repeated? && EncodableVal(f, v)
    ensures MergeVal(f, Num(0), v).Some? && SameVal(f, v, MergeVal(f, Num(0), v).value)
  {
    ValSame(f, v, Num(0));
  }

  lemma {:induction false} ValueMeaning(f: Field, prior: Value, v: Value)
    requires WellFormedField(f) && EncodableVal(f, v) && MergeVal(f, prior, v).Some?
    ensures ValueMerged(f, prior, v, MergeVal(f, prior, v).value)
  {
    if f.ltype.String? {
      TextSame(f, v);
    }
  }

  lemma {:induction false} CellMeaning(f: Field, x: Slot, y: Slot)
    requires WellFormedField(f) && f.tag > 0 && EncodableSlot(f, y) && MergeSlot(f, x, y).Some?
    ensures CellMergedTo(f, x, y, MergeSlot(f, x, y).value)
  {
    hide MergeVal, MergeItems, ItemsMerged, IsZero, EncodableVal;
    match f.htype
    case Required => ValueMeaning(f, ValueOf(x), y.v);
    case Optional =>
      var sent := if f.sizeOffset != 0 then y.has else !IsZero(f, y.v);
      if sent {
        ValueMeaning(f, ValueOf(x), y.v);
      }
    case Repeated => ItemsWritten(f, ItemsOf(x), if FixedCount(f) then 0 else |ItemsOf(x)|, y.items);
    case Oneof => if y.which == f.tag { ValueMeaning(f, MemberBase(f, x), y.v); }
  }

  /** The message a with what field i of b brings. */
  function MergedAt(fields: seq<Field>, i: nat, a: Msg, b: Msg): (w: Msg)
    requires i < |fields| == |a.slots| == |b.slots|
    requires MergeSlot(fields[i], SlotOf(fields, a, i), SlotOf(fields, b, i)).Some?
    ensures |w.slots| == |fields|
  {
    WithSlot(fields, a, i, MergeSlot(fields[i], SlotOf(fields, a, i), SlotOf(fields, b, i)).value)
  }

  /** Field i of b brings something for the cell of field j. */
  predicate Brings(fields: seq<Field>, i: nat, b: Msg, j: nat)
    requires i < |fields| == |b.slots| && j < |fields|
  {
    Home(fields, i) == Home(fields, j) &&
    (fields[i].htype.Oneof? ==> SlotOf(fields, b, i).Union? && SlotOf(fields, b, i).which == fields[i].tag)
  }

  lemma {:induction false} OtherCell(fields: seq<Field>, i: nat, a: Msg, b: Msg, j: nat)
    requires i < |fields| == |a.slots| == |b.slots| && j < |fields| && !Brings(fields, i, b, j)
    requires MergeSlot(fields[i], SlotOf(fields, a, i), SlotOf(fields, b, i)).Some?
    ensures SlotOf(fields, MergedAt(fields, i, a, b), j) == SlotOf(fields, a, j)
  {
  }

  /** At most one field brings something for a cell: a field of its own, or the member that a union holds. */
  lemma {:induction false} OneBrings(fields: seq<Field>, b: Msg, i: nat, j: nat)
    requires DistinctTags(fields) && i < |fields| == |b.slots| && j < |fields| && i != j
    requires Brings(fields, j, b, j)
    ensures !Brings(fields, i, b, j)
  {
    HomeFacts(fields, i);
    HomeFacts(fields, j);
  }

  /** A cell for which nothing is left to come stays as it is. */
  lemma {:induction false} CellKeptFrom(fields: seq<Field>, i: nat, a: Msg, b: Msg, j: nat)
    requires i <= |fields| == |a.slots| == |b.slots| && j < |fields|
    requires forall p | i <= p < |fields| :: !Brings(fields, p, b, j)
    requires MergeFrom(fields, i, a, b).Some?
    ensures SlotOf(fields, MergeFrom(fields, i, a, b).value, j) == SlotOf(fields, a, j)
    decreases |fields| - i
  {
    hide Brings, MergeSlot;
    if i < |fields| {
      OtherCell(fields, i, a, b, j);
      CellKeptFrom(fields, i + 1, MergedAt(fields, i, a, b), b, j);
    }
  }

  lemma {:induction false} CellOf(fields: seq<Field>, i: nat, a: Msg, b: Msg, j: nat)
    requires i <= j < |fields| == |a.slots| == |b.slots| && DistinctTags(fields) && Brings(fields, j, b, j)
    requires MergeFrom(fields, i, a, b).Some?
    ensures MergeSlot(fields[j], SlotOf(fields, a, j), SlotOf(fields, b, j)) ==
            Some(SlotOf(fields, MergeFrom(fields, i, a, b).value, j))
    decreases |fields| - i
  {
    hide MergeSlot, Brings, DistinctTags;
    var w := MergedAt(fields, i, a, b);
    if i == j {
      forall p | i + 1 <= p < |fields| ensures !Brings(fields, p, b, j) {
        OneBrings(fields, b, p, j);
      }
      CellKeptFrom(fields, i + 1, w, b, j);
    } else {
      OneBrings(fields, b, i, j);
      OtherCell(fields, i, a, b, j);
      CellOf(fields, i + 1, w, b, j);
    }
  }

  /** In a merged message every field, and every union, is merged by itself. */
  lemma {:induction false} MergedFields(fields: seq<Field>, a: Msg, b: Msg, i: nat)
    requires WellFormed(fields) && Encodable(fields, b) && i < |fields| == |a.slots|
    requires Merge(fields, a, b).Some?
    ensures CellMergedTo(fields[i], SlotOf(fields, a, i), SlotOf(fields, b, i),
        SlotOf(fields, Merge(fields, a, b).value, i))
  {
    hide CellMergedTo, MergeSlot, MergeFrom, EncodableSlot;
    var y := SlotOf(fields, b, i);
    if Brings(fields, i, b, i) {
      CellOf(fields, 0, a, b, i);
      CellMeaning(fields[i], SlotOf(fields, a, i), y);
    } else {
      UnionWithout(fields, a, b, i);
    }
  }

  /** A union of b that holds another member, or none. */
  lemma {:induction false} UnionWithout(fields: seq<Field>, a: Msg, b: Msg, i: nat)
    requires WellFormed(fields) && Encodable(fields, b) && i < |fields| == |a.slots| && !Brings(fields, i, b, i)
    requires Merge(fields, a, b).Some?
    ensures CellMergedTo(fields[i], SlotOf(fields, a, i), SlotOf(fields, b, i),
        SlotOf(fields, Merge(fields, a, b).value, i))
  {
    hide MergeSlot, MergeFrom;
    var y := SlotOf(fields, b, i);
    assert EncodableSlot(fields[i], y);
    if y.which == 0 {
      forall p | 0 <= p < |fields| ensures !Brings(fields, p, b, i) {
        HomeFacts(fields, p);
        HomeFacts(fields, i);
        assert fields[p].tag > 0;
      }
      CellKeptFrom(fields, 0, a, b, i);
    }
  }

  // ----- when there is room for all of it

  predicate RoomVal(f: Field, prior: Value, v: Value)
    decreases f, 0
  {
    f.ltype.Submessage? ==>
      v.Nested? && f.ptr.Fields? && Room(f.ptr.fields, Target(f.ptr.fields, f, prior), v.m)
  }

  /** What field f of the message with cell y brings has room in the cell x. */
  predicate RoomSlot(f: Field, x: Slot, y: Slot)
    decreases f, 1
  {
    match f.htype
    case Required => y.Single? && RoomVal(f, ValueOf(x), y.v)
    case Optional =>
      if f.sizeOffset != 0 then y.Opt? && y.has ==> RoomVal(f, ValueOf(x), y.v)
      else y.Single? && !IsZero(f, y.v) ==> RoomVal(f, ValueOf(x), y.v)
    case Repeated => FixedCount(f) || !y.Rep? || y.items == [] || |ItemsOf(x)| + |y.items| <= f.arraySize
    case Oneof => y.Union? && y.which == f.tag ==> RoomVal(f, MemberBase(f, x), y.v)
  }

  /**
   Every array of a, and of the submessages of a that b's are merged into, has room for the items
   of b as well; fixed-count arrays are overwritten and items start afresh.
   */
  predicate Room(fields: seq<Field>, a: Msg, b: Msg)
    decreases fields
  {
    |a.slots| == |b.slots| == |fields| && RoomFrom(fields, 0, a, b)
  }

  predicate RoomFrom(fields: seq<Field>, i: nat, a: Msg, b: Msg)
    requires |a.slots| == |b.slots| == |fields|
    decreases fields, 0
  {
    forall j | i <= j < |fields| :: RoomSlot(fields[j], SlotOf(fields, a, j), SlotOf(fields, b, j))
  }

  lemma {:induction false} RoomForValue(f: Field, prior: Value, v: Value)
    requires WellFormedField(f) && EncodableVal(f, v)
    ensures MergeVal(f, prior, v).Some? <==> RoomVal(f, prior, v)
    decreases f, 0
  {
    if f.ltype.Submessage? {
      RoomForMerge(f.ptr.fields, Target(f.ptr.fields, f, prior), v.m);
    }
  }

  lemma {:induction false} RoomForSlot(f: Field, x: Slot, y: Slot)
    requires WellFormedField(f) && EncodableSlot(f, y)
    ensures MergeSlot(f, x, y).Some? <==> RoomSlot(f, x, y)
    decreases f, 1
  {
    hide MergeVal, MergeItems, RoomVal, ItemsMerged, IsZero, EncodableVal;
    match f.htype
    case Required => RoomForValue(f, ValueOf(x), y.v);
    case Optional =>
      var sent := if f.sizeOffset != 0 then y.has else !IsZero(f, y.v);
      if sent {
        RoomForValue(f, ValueOf(x), y.v);
      }
    case Repeated => ItemsWritten(f, ItemsOf(x), if FixedCount(f) then 0 else |ItemsOf(x)|, y.items);
    case Oneof => if y.which == f.tag { RoomForValue(f, MemberBase(f, x), y.v); }
  }

  /** What field i brings does not take room from a later field. */
  lemma {:induction false} RoomApart(fields: seq<Field>, i: nat, a: Msg, b: Msg, j: nat)
    requires DistinctTags(fields) && i < j < |fields| == |a.slots| == |b.slots|
    requires MergeSlot(fields[i], SlotOf(fields, a, i), SlotOf(fields, b, i)).Some?
    ensures RoomSlot(fields[j], SlotOf(fields, MergedAt(fields, i, a, b), j), SlotOf(fields, b, j)) ==
            RoomSlot(fields[j], SlotOf(fields, a, j), SlotOf(fields, b, j))
  {
    hide MergeSlot, RoomVal;
    if Brings(fields, j, b, j) {
      OneBrings(fields, b, i, j);
      OtherCell(fields, i, a, b, j);
    }
  }

  lemma {:induction false} RoomForMergeFrom(fields: seq<Field>, i: nat, a: Msg, b: Msg)
    requires WellFormed(fields) && Encodable(fields, b) && i <= |fields| == |a.slots|
    ensures MergeFrom(fields, i, a, b).Some? <==> RoomFrom(fields, i, a, b)
    decreases fields, |fields| - i
  {
    hide MergeSlot, RoomSlot, EncodableSlot, WellFormedField;
    if i < |fields| {
      RoomForSlot(fields[i], SlotOf(fields, a, i), SlotOf(fields, b, i));
      if MergeSlot(fields[i], SlotOf(fields, a, i), SlotOf(fields, b, i)).Some? {
        var w := MergedAt(fields, i, a, b);
        RoomForMergeFrom(fields, i + 1, w, b);
        forall j | i < j < |fields|
          ensures RoomSlot(fields[j], SlotOf(fields, w, j), SlotOf(fields, b, j)) ==
                  RoomSlot(fields[j], SlotOf(fields, a, j), SlotOf(fields, b, j))
        {
          RoomApart(fields, i, a, b, j);
        }
      }
    }
  }

  /** Merging succeeds exactly when every array has room. */
  lemma {:induction false} RoomForMerge(fields: seq<Field>, a: Msg, b: Msg)
    requires WellFormed(fields) && Encodable(fields, b) && |a.slots| == |fields|
    ensures Merge(fields, a, b).Some? <==> Room(fields, a, b)
    decreases fields, |fields| + 1
  {
    RoomForMergeFrom(fields, 0, a, b);
  }
}
