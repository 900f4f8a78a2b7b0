/** Packed and unpacked encodings of a repeated scalar are interchangeable, in any mixture. */
module PackedArrays {
  import opened Bits
  import opened Descriptor
  import opened MergeRun
  import opened Merging
  import opened ScalarRoundTrip
  import opened Varint
  import opened WireDecode
  import opened WireEncode
  import opened Wrappers

  /** A piece of a repeated field on the wire: a packed run of items, possibly empty, or one tagged item. */
  datatype Chunk = Packed(vals: seq<Value>) | Lone(v: Value)

  function Vals(c: Chunk): seq<Value> {
    match c { case Packed(vals) => vals case Lone(v) => [v] }
  }

  /** All the items of the chunks, in order. */
  function Items(cs: seq<Chunk>): seq<Value> {
    if cs == [] then [] else Vals(cs[0]) + Items(cs[1..])
  }

  predicate ChunkOk(f: Field, c: Chunk) {
    && (forall k | 0 <= k < |Vals(c)| :: ScalarFits(f, Vals(c)[k]))
    && (c.Packed? && EncItems(f, c.vals).Some? ==> |EncItems(f, c.vals).value| < TWO32)
  }

  predicate ChunksOk(f: Field, cs: seq<Chunk>) {
    forall k | 0 <= k < |cs| :: ChunkOk(f, cs[k])
  }

  function ChunkBytes(f: Field, c: Chunk): Option<bytes> {
    match c
    case Packed(vals) =>
      (match EncItems(f, vals) case None => None case Some(b) => Some(TagBytes(f.tag, WT_STRING) + LengthPrefixed(b)))
    case Lone(v) => EncRecord(f, v)
  }

  function ChunksBytes(f: Field, cs: seq<Chunk>): Option<bytes> {
    if cs == [] then Some([])
    else
      match ChunkBytes(f, cs[0])
      case None => None
      case Some(b) =>
        match ChunksBytes(f, cs[1..]) { case None => None case Some(rest) => Some(b + rest) }
  }

  /** The items of src lie from index k on; the others stay. */
  function Over(items: seq<Value>, k: nat, src: seq<Value>): (r: seq<Value>)
    requires k <= |items|
    ensures |r| >= k + |src|
  {
    items[..k] + src + if k + |src| < |items| then items[k + |src|..] else []
  }

  /** Writing items from index k on puts them there, while there is room. */
  lemma {:induction false} MergeItemsWrites(f: Field, items: seq<Value>, k: nat, src: seq<Value>)
    requires Packable(f.ltype) && k <= |items|
    ensures MergeItems(f, items, k, src) ==
            if src == [] || k + |src| <= f.arraySize then Some(Over(items, k, src)) else None
    decreases |src|
  {
    if src == [] {
      assert Over(items, k, []) == items;
    } else {
      MergeItemsWrites(f, Put(items, k, src[0]), k + 1, src[1..]);
      OverStep(items, k, src[0], src[1..]);
      assert [src[0]] + src[1..] == src;
    }
  }

  lemma {:induction false} OverStep(items: seq<Value>, k: nat, v: Value, rest: seq<Value>)
    requires k <= |items|
    ensures Over(Put(items, k, v), k + 1, rest) == Over(items, k, [v] + rest)
  {
  }

  lemma {:induction false} OverTwice(items: seq<Value>, k: nat, a: seq<Value>, b: seq<Value>)
    requires k <= |items|
    ensures Over(Over(items, k, a), k + |a|, b) == Over(items, k, a + b)
  {
  }

  /** Writing items at the end of an array appends them, while there is room. */
  lemma {:induction false} MergeItemsAppends(f: Field, items: seq<Value>, src: seq<Value>)
    requires Packable(f.ltype)
    ensures MergeItems(f, items, |items|, src) ==
            if src == [] || |items| + |src| <= f.arraySize then Some(items + src) else None
  {
    MergeItemsWrites(f, items, |items|, src);
    assert Over(items, |items|, src) == items + src;
  }

  lemma {:induction false} ItemsFit(f: Field, c: Chunk)
    requires ChunkOk(f, c) && Packable(f.ltype)
    ensures forall k | 0 <= k < |Vals(c)| :: EncodableVal(f, Vals(c)[k])
  {
  }

  /** The decoder's variables when records of field i are next, and where its next item goes. */
  predicate Ready(fields: seq<Field>, i: nat, st: DState, items: seq<Value>, k: nat)
    requires i < |fields| && StateOk(fields, st)
  {
    && fields[i].htype.Repeated? && Packable(fields[i].ltype) && Track(fields, i, st).Some?
    && SlotOf(fields, st.msg, i) == Rep(items) && k == CountOf(fields, i, Track(fields, i, st).value)
    && k <= |items| && k <= fields[i].arraySize
  }

  /** The variables after the items vals of field i. */
  function Read(fields: seq<Field>, i: nat, st: DState, items: seq<Value>, k: nat, vals: seq<Value>): (w: DState)
    requires i < |fields| && StateOk(fields, st) && Ready(fields, i, st, items, k)
    ensures StateOk(fields, w)
  {
    Store(fields, i, Track(fields, i, st).value, Rep(Over(items, k, vals)), k + |vals|)
  }

  /** A chunk of field i's array. */
  lemma {:induction false} ChunkStep(
    fields: seq<Field>, i: nat, c: Chunk, st: DState, items: seq<Value>, k: nat, t: bytes)
    requires WellFormed(fields) && i < |fields| && StateOk(fields, st) && Ready(fields, i, st, items, k)
    requires ChunkOk(fields[i], c)
    ensures ChunkBytes(fields[i], c).Some? && ChunkBytes(fields[i], c).value != []
    ensures Step(fields, ChunkBytes(fields[i], c).value + t, st) ==
            if k + |Vals(c)| <= fields[i].arraySize then Next(Read(fields, i, st, items, k, Vals(c)), t) else Fail
  {
    hide Step, DecScalar, DecPacked, EncItems, EncElem, MergeItems, TakeString, LengthPrefixed, Over;
    var f := fields[i];
    match c
    case Packed(vals) =>
      ItemsFit(f, c);
      assert Vals(c) == vals;
      PackedRun(f, vals, items, k);
      MergeItemsWrites(f, items, k, vals);
      var b := EncItems(f, vals).value;
      StringRoundTrip(b, t);
      Assoc(TagBytes(f.tag, WT_STRING), LengthPrefixed(b), t);
      KeyRun(fields, i, WT_STRING, LengthPrefixed(b) + t, st);
    case Lone(v) =>
      assert Vals(c)[0] == v;
      LoneStep(fields, i, v, st, items, k, t);
  }

  lemma {:induction false} LoneStep(
    fields: seq<Field>, i: nat, v: Value, st: DState, items: seq<Value>, k: nat, t: bytes)
    requires WellFormed(fields) && i < |fields| && StateOk(fields, st) && Ready(fields, i, st, items, k)
    requires ScalarFits(fields[i], v)
    ensures EncRecord(fields[i], v).Some? && EncRecord(fields[i], v).value != []
    ensures Step(fields, EncRecord(fields[i], v).value + t, st) ==
            if k + 1 <= fields[i].arraySize then Next(Read(fields, i, st, items, k, [v]), t) else Fail
  {
    hide Step, DecScalar;
    var f := fields[i];
    ScalarRun(f, v, t);
    var e := EncElem(f, v).value;
    Assoc(Tagged(f), e, t);
    KeyRun(fields, i, WireType(f.ltype), e + t, st);
    assert DecElem(f, e + t, Num(0)) == Parsed(v, t);
    OverStep(items, k, v, []);
    assert Over(Put(items, k, v), k + 1, []) == Put(items, k, v);
    AppendNil([v]);
  }

  /** After one chunk the decoder is ready for the next. */
  lemma {:induction false} ReadyAgain(
    fields: seq<Field>, i: nat, st: DState, items: seq<Value>, k: nat, a: seq<Value>, b: seq<Value>)
    requires i < |fields| && StateOk(fields, st) && Ready(fields, i, st, items, k) && k + |a| <= fields[i].arraySize
    requires !FixedCount(fields[i]) ==> k == |items|
    ensures var w := Read(fields, i, st, items, k, a);
            && Ready(fields, i, w, Over(items, k, a), k + |a|)
            && Read(fields, i, w, Over(items, k, a), k + |a|, b) == Read(fields, i, st, items, k, a + b)
            && (!FixedCount(fields[i]) ==> k + |a| == |Over(items, k, a)|)
  {
    hide Over;
    OverTwice(items, k, a, b);
    if k == |items| {
      OverAppends(items, a);
    }
    HomeFacts(fields, i);
    var all := Rep(Over(items, k, a + b));
    StoreAgain(fields, i, Track(fields, i, st).value, Rep(Over(items, k, a)), k + |a|, all, k + |a + b|);
  }

  lemma {:induction false} OverAppends(items: seq<Value>, a: seq<Value>)
    ensures Over(items, |items|, a) == items + a
  {
  }

  lemma {:induction false} StoreAgain(fields: seq<Field>, i: nat, st: DState, s: Slot, n: nat, s': Slot, n': nat)
    requires i < |fields| && StateOk(fields, st) && fields[i].htype.Repeated?
    ensures var w := Store(fields, i, st, s, n);
            SlotOf(fields, w.msg, i) == s && Store(fields, i, w, s', n') == Store(fields, i, st, s', n')
  {
  }

  /** Any cutting of a packable array, counted or fixed-count, is the writing of its items one after another. */
  lemma {:induction false} ChunksRun(
    fields: seq<Field>, i: nat, cs: seq<Chunk>, st: DState, items: seq<Value>, k: nat, t: bytes)
    requires WellFormed(fields) && i < |fields| && StateOk(fields, st) && Ready(fields, i, st, items, k)
    requires cs != [] && ChunksOk(fields[i], cs) && (!FixedCount(fields[i]) ==> k == |items|)
    ensures ChunksBytes(fields[i], cs).Some?
    ensures DecLoop(fields, ChunksBytes(fields[i], cs).value + t, st) ==
            if k + |Items(cs)| <= fields[i].arraySize
            then DecLoop(fields, t, Read(fields, i, st, items, k, Items(cs))) else Failed
    decreases |cs|
  {
    hide Step, DecLoop, Read, Ready, ChunkBytes, Over;
    var f, c, rest := fields[i], cs[0], cs[1..];
    assert ChunkOk(f, c);
    ReadyFacts(fields, i, st, items, k);
    ChunksEncode(f, cs);
    ChunksEncode(f, rest);
    var tail := ChunksBytes(f, rest).value;
    ChunkStep(fields, i, c, st, items, k, tail + t);
    Assoc(ChunkBytes(f, c).value, tail, t);
    LoopTurn(fields, ChunkBytes(f, c).value + (tail + t), st);
    if k + |Vals(c)| <= f.arraySize {
      ReadyAgain(fields, i, st, items, k, Vals(c), Items(rest));
      if rest == [] {
        AppendNil(t);
        AppendNil(Vals(c));
      } else {
        ChunksRun(fields, i, rest, Read(fields, i, st, items, k, Vals(c)), Over(items, k, Vals(c)), k + |Vals(c)|, t);
      }
    }
  }

  lemma {:induction false} ReadyFacts(fields: seq<Field>, i: nat, st: DState, items: seq<Value>, k: nat)
    requires i < |fields| && StateOk(fields, st) && Ready(fields, i, st, items, k)
    ensures Packable(fields[i].ltype) && k <= |items| && k <= fields[i].arraySize
  {
  }

  lemma {:induction false} StoreNothing(fields: seq<Field>, i: nat, st: DState)
    requires i < |fields| && StateOk(fields, st) && !fields[i].htype.Required? && !FixedCount(fields[i])
    ensures Store(fields, i, st, SlotOf(fields, st.msg, i), 0) == st
  {
  }

  /**
   However the items of a repeated scalar are cut into packed runs (also empty ones) and single
   tagged items, decoding appends their concatenation; it is accepted exactly when the array
   has room for all of them.
   */
  lemma {:induction false} ChunksDecode(
    fields: seq<Field>, i: nat, cs: seq<Chunk>, st: DState, items: seq<Value>, t: bytes)
    requires WellFormed(fields) && i < |fields| && StateOk(fields, st)
    requires fields[i].htype.Repeated? && !FixedCount(fields[i]) && Packable(fields[i].ltype) && ChunksOk(fields[i], cs)
    requires SlotOf(fields, st.msg, i) == Rep(items) && |items| <= fields[i].arraySize
    ensures ChunksBytes(fields[i], cs).Some?
    ensures DecLoop(fields, ChunksBytes(fields[i], cs).value + t, st) ==
            if |items| + |Items(cs)| <= fields[i].arraySize
            then DecLoop(fields, t, Store(fields, i, st, Rep(items + Items(cs)), 0)) else Failed
  {
    hide Step, DecLoop, ChunkBytes, Over;
    if cs == [] {
      AppendNil(t);
      AppendNil(items);
      StoreNothing(fields, i, st);
    } else {
      ChunksRun(fields, i, cs, st, items, |items|, t);
      OverAppends(items, Items(cs));
    }
  }

  /** What decoding leaves in a fixed-count array that held `items`, and in its tracker. */
  function FixedRead(fields: seq<Field>, i: nat, st: DState, items: seq<Value>, vals: seq<Value>): (w: DState)
    requires i < |fields| && StateOk(fields, st)
    ensures StateOk(fields, w)
  {
    Store(fields, i, st.(fixedField := Some(i), fixedCount := 0), Rep(Over(items, 0, vals)), |vals|)
  }

  /**
   Any cutting of the items of a fixed-count scalar array writes their concatenation from index 0
   on, over what the array held before, and is accepted as long as there is room.
   */
  lemma {:induction false} FixedChunksDecode(
    fields: seq<Field>, i: nat, cs: seq<Chunk>, st: DState, items: seq<Value>, t: bytes)
    requires WellFormed(fields) && i < |fields| && StateOk(fields, st)
    requires FixedCount(fields[i]) && Packable(fields[i].ltype) && cs != [] && ChunksOk(fields[i], cs)
    requires SlotOf(fields, st.msg, i) == Rep(items) && st.fixedField != Some(i) && FixedComplete(fields, st)
    ensures ChunksBytes(fields[i], cs).Some?
    ensures DecLoop(fields, ChunksBytes(fields[i], cs).value + t, st) ==
            if |Items(cs)| <= fields[i].arraySize
            then DecLoop(fields, t, FixedRead(fields, i, st, items, Items(cs))) else Failed
  {
    hide Step, DecLoop, ChunkBytes, Over;
    ChunksRun(fields, i, cs, st, items, 0, t);
  }

  /**
   A message that brings nothing but a fixed-count scalar array is accepted exactly when it brings all of its items.
   */
  lemma {:induction false} FixedChunksAccepted(fields: seq<Field>, i: nat, cs: seq<Chunk>, m: Msg, items: seq<Value>)
    requires WellFormed(fields) && i < |fields| == |m.slots| && RequiredSeen(fields, {})
    requires FixedCount(fields[i]) && Packable(fields[i].ltype) && cs != [] && ChunksOk(fields[i], cs)
    requires SlotOf(fields, m, i) == Rep(items)
    ensures ChunksBytes(fields[i], cs).Some?
    ensures DecodeNoinit(fields, ChunksBytes(fields[i], cs).value, m) ==
            if |Items(cs)| == fields[i].arraySize
            then Parsed(WithSlot(fields, m, i, Rep(Over(items, 0, Items(cs)))), []) else Bad
  {
    hide Step, ChunkBytes, Over;
    FixedChunksDecode(fields, i, cs, Start(m), items, []);
    AppendNil(ChunksBytes(fields[i], cs).value);
  }

  lemma {:induction false} ChunksEncode(f: Field, cs: seq<Chunk>)
    requires WellFormedField(f) && Packable(f.ltype) && ChunksOk(f, cs)
    ensures ChunksBytes(f, cs).Some?
  {
    if cs != [] {
      var c := cs[0];
      assert ChunkOk(f, c);
      if c.Packed? {
        ItemsFit(f, c);
        assert Vals(c) == c.vals;
        ItemsEncode(f, c.vals);
      } else {
        assert ScalarFits(f, Vals(c)[0]);
        ScalarRun(f, c.v, []);
      }
      ChunksEncode(f, cs[1..]);
    }
  }
}
