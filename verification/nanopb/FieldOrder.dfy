/**
 Records of different storage cells do not interact: decoding a sequence of records is, cell
 by cell, decoding the records of that cell in their order. So the order of records of
 different cells is immaterial, and so are unknown records.
 */
module FieldOrder {
  import opened Bits
  import opened Descriptor
  import opened ForwardCompat
  import opened MergeRun
  import opened Varint
  import opened WireDecode
  import opened WireEncode
  import opened Wrappers

  datatype Rec = Known(i: nat, wt: nat, body: bytes) | Unknown(tag: nat, wt: nat, payload: bytes)

  /** A complete record body: the field decoder, if it succeeds, consumes it to the last byte, whatever follows. */
  ghost predicate Whole(f: Field, wt: nat, body: bytes) {
    forall slot: Slot, k: nat, t: bytes ::
      DecSlot(f, wt, body + t, slot, k) == WithRest(DecSlot(f, wt, body, slot, k), t)
  }

  function WithRest<T>(p: Parse<T>, t: bytes): Parse<T> {
    match p
    case Bad => Bad
    case Parsed(v, _) => Parsed(v, t)
  }

  ghost predicate RecOk(fields: seq<Field>, r: Rec) {
    match r
    case Known(i, wt, body) => i < |fields| && wt < 8 && Whole(fields[i], wt, body)
    case Unknown(tag, wt, payload) => wt < 8 && UnknownTag(fields, tag) && IsPayload(wt, payload)
  }

  ghost predicate RecsOk(fields: seq<Field>, rs: seq<Rec>) {
    forall k | 0 <= k < |rs| :: RecOk(fields, rs[k])
  }

  function RecBytes(fields: seq<Field>, r: Rec): bytes {
    match r
    case Known(i, wt, body) => if i < |fields| then TagBytes(fields[i].tag, wt) + body else []
    case Unknown(tag, wt, payload) => TagBytes(tag, wt) + payload
  }

  function Concat(fields: seq<Field>, rs: seq<Rec>): bytes {
    if rs == [] then [] else RecBytes(fields, rs[0]) + Concat(fields, rs[1..])
  }

  /** No field is a fixed-count array; those are tracked across records. */
  predicate NoFixedCount(fields: seq<Field>) {
    forall i | 0 <= i < |fields| :: !FixedCount(fields[i])
  }

  // ----- running a sequence of records

  /** What a record does to the storage cell of its field. */
  function ApplyCell(f: Field, wt: nat, body: bytes, s: Slot): Option<Slot> {
    match DecSlot(f, wt, body, s, |ItemsOf(s)|)
    case Bad => None
    case Parsed(sk, _) => Some(sk.0)
  }

  function Apply(fields: seq<Field>, r: Rec, st: DState): (n: Option<DState>)
    requires StateOk(fields, st) && NoFixedCount(fields) && (r.Known? ==> r.i < |fields|)
    ensures n.Some? ==> StateOk(fields, n.value)
  {
    match r
    case Unknown(_, _, _) => Some(st)
    case Known(i, wt, body) =>
      match ApplyCell(fields[i], wt, body, SlotOf(fields, st.msg, i))
      case None => None
      case Some(s) => Some(Store(fields, i, st, s, 0))
  }

  lemma {:induction false} RecStep(fields: seq<Field>, r: Rec, st: DState, t: bytes)
    requires WellFormed(fields) && NoFixedCount(fields) && StateOk(fields, st) && RecOk(fields, r)
    ensures RecBytes(fields, r) != []
    ensures Step(fields, RecBytes(fields, r) + t, st) ==
        match Apply(fields, r, st) { case None => Fail case Some(n) => Next(n, t) }
  {
    hide Step, DecSlot;
    match r
    case Unknown(tag, wt, payload) =>
      StepUnknown(fields, tag, wt, payload, t, st);
    case Known(i, wt, body) =>
      Assoc(TagBytes(fields[i].tag, wt), body, t);
      KeyRun(fields, i, wt, body + t, st);
      assert DecSlot(fields[i], wt, body + t, SlotOf(fields, st.msg, i), CountOf(fields, i, st)) ==
             WithRest(DecSlot(fields[i], wt, body, SlotOf(fields, st.msg, i), CountOf(fields, i, st)), t);
  }

  ghost function RunRecs(fields: seq<Field>, rs: seq<Rec>, st: DState): (n: Option<DState>)
    requires StateOk(fields, st) && NoFixedCount(fields) && RecsOk(fields, rs)
    ensures n.Some? ==> StateOk(fields, n.value)
  {
    if rs == [] then Some(st)
    else
      match Apply(fields, rs[0], st)
      case None => None
      case Some(n) => RunRecs(fields, rs[1..], n)
  }

  lemma {:induction false} LoopRuns(fields: seq<Field>, rs: seq<Rec>, st: DState)
    requires WellFormed(fields) && NoFixedCount(fields) && StateOk(fields, st) && RecsOk(fields, rs)
    ensures DecLoop(fields, Concat(fields, rs), st) ==
            match RunRecs(fields, rs, st) { case None => Failed case Some(n) => Ended(n, [], false) }
    decreases |rs|
  {
    hide Step, Apply, RecBytes;
    if rs != [] {
      RecStep(fields, rs[0], st, Concat(fields, rs[1..]));
      LoopTurn(fields, Concat(fields, rs), st);
      var n := Apply(fields, rs[0], st);
      if n.Some? {
        LoopRuns(fields, rs[1..], n.value);
      }
    }
  }

  // ----- cell by cell

  /** The records that go into the storage cell h, in order. */
  function CellRecs(fields: seq<Field>, rs: seq<Rec>, h: nat): seq<Rec> {
    if rs == [] then []
    else
      var rest := CellRecs(fields, rs[1..], h);
      if InCell(fields, rs[0], h) then [rs[0]] + rest else rest
  }

  predicate InCell(fields: seq<Field>, r: Rec, h: nat) {
    r.Known? && r.i < |fields| && Home(fields, r.i) == h
  }

  function FoldCell(fields: seq<Field>, rs: seq<Rec>, s: Slot): Option<Slot>
    requires forall k | 0 <= k < |rs| :: rs[k].Known? && rs[k].i < |fields|
  {
    if rs == [] then Some(s)
    else
      match ApplyCell(fields[rs[0].i], rs[0].wt, rs[0].body, s)
      case None => None
      case Some(s') => FoldCell(fields, rs[1..], s')
  }

  lemma {:induction false} CellRecsKnown(fields: seq<Field>, rs: seq<Rec>, h: nat)
    ensures forall k | 0 <= k < |CellRecs(fields, rs, h)| :: InCell(fields, CellRecs(fields, rs, h)[k], h)
  {
    if rs != [] {
      CellRecsKnown(fields, rs[1..], h);
    }
  }

  /** The contents of cell h after the records that go into it. */
  function CellAfter(fields: seq<Field>, rs: seq<Rec>, h: nat, s: Slot): Option<Slot> {
    CellRecsKnown(fields, rs, h);
    FoldCell(fields, CellRecs(fields, rs, h), s)
  }

  lemma {:induction false} CellAfterStep(fields: seq<Field>, rs: seq<Rec>, h: nat, s: Slot)
    requires rs != []
    ensures CellAfter(fields, rs, h, s) ==
            if InCell(fields, rs[0], h) then
              match ApplyCell(fields[rs[0].i], rs[0].wt, rs[0].body, s)
              case None => None
              case Some(s') => CellAfter(fields, rs[1..], h, s')
            else CellAfter(fields, rs[1..], h, s)
  {
  }

  /** Running the records and looking at cell h is running the records of cell h. */
  predicate CellAgrees(fields: seq<Field>, rs: seq<Rec>, st: DState, n: Option<DState>, h: nat)
    requires StateOk(fields, st) && (n.Some? ==> StateOk(fields, n.value)) && h < |fields|
  {
    n.Some? ==> CellAfter(fields, rs, h, st.msg.slots[h]) == Some(n.value.msg.slots[h])
  }

  lemma {:induction false} CellsAgree(fields: seq<Field>, rs: seq<Rec>, st: DState, h: nat)
    requires StateOk(fields, st) && NoFixedCount(fields) && RecsOk(fields, rs) && h < |fields|
    ensures CellAgrees(fields, rs, st, RunRecs(fields, rs, st), h)
    decreases |rs|
  {
    hide ApplyCell, CellAfter;
    if rs == [] {
      NoCellRecs(fields, h, st.msg.slots[h]);
    } else {
      var n := Apply(fields, rs[0], st);
      assert RecOk(fields, rs[0]);
      CellAfterStep(fields, rs, h, st.msg.slots[h]);
      if n.Some? {
        CellsAgree(fields, rs[1..], n.value, h);
      }
    }
  }

  lemma {:induction false} NoCellRecs(fields: seq<Field>, h: nat, s: Slot)
    ensures CellAfter(fields, [], h, s) == Some(s)
  {
  }

  /** If the run fails, it fails in some cell. */
  lemma {:induction false} SomeCellFails(fields: seq<Field>, rs: seq<Rec>, st: DState) returns (h: nat)
    requires StateOk(fields, st) && NoFixedCount(fields) && RecsOk(fields, rs) && RunRecs(fields, rs, st).None?
    ensures h < |fields| && CellAfter(fields, rs, h, st.msg.slots[h]).None?
    decreases |rs|
  {
    hide ApplyCell, CellAfter;
    var n := Apply(fields, rs[0], st);
    assert RecOk(fields, rs[0]);
    if n.None? {
      h := Home(fields, rs[0].i);
    } else {
      h := SomeCellFails(fields, rs[1..], n.value);
    }
    CellAfterStep(fields, rs, h, st.msg.slots[h]);
  }

  lemma {:induction false} SeenAfter(fields: seq<Field>, rs: seq<Rec>, st: DState, i: nat)
    requires StateOk(fields, st) && NoFixedCount(fields) && RecsOk(fields, rs) && RunRecs(fields, rs, st).Some?
    ensures i in RunRecs(fields, rs, st).value.seen <==>
            i in st.seen || (i < |fields| && fields[i].htype.Required? && CellRecs(fields, rs, i) != [])
    decreases |rs|
  {
    hide ApplyCell;
    if rs != [] {
      assert RecOk(fields, rs[0]);
      SeenAfter(fields, rs[1..], Apply(fields, rs[0], st).value, i);
      if rs[0].Known? {
        HomeFacts(fields, rs[0].i);
      }
    }
  }

  /** The records of each storage cell are the same, in the same order. */
  predicate SameCells(fields: seq<Field>, rs: seq<Rec>, rs': seq<Rec>) {
    forall h: nat | h < |fields| :: CellRecs(fields, rs, h) == CellRecs(fields, rs', h)
  }

  lemma {:induction false} TrackerIdle(fields: seq<Field>, rs: seq<Rec>, st: DState)
    requires StateOk(fields, st) && NoFixedCount(fields) && RecsOk(fields, rs) && RunRecs(fields, rs, st).Some?
    ensures var n := RunRecs(fields, rs, st).value;
            n.fixedField == st.fixedField && n.fixedCount == st.fixedCount
    decreases |rs|
  {
    hide ApplyCell;
    if rs != [] {
      assert RecOk(fields, rs[0]);
      TrackerIdle(fields, rs[1..], Apply(fields, rs[0], st).value);
    }
  }

  lemma {:induction false} SameRun(fields: seq<Field>, rs: seq<Rec>, rs': seq<Rec>, st: DState)
    requires StateOk(fields, st) && NoFixedCount(fields) && RecsOk(fields, rs) && RecsOk(fields, rs')
    requires SameCells(fields, rs, rs')
    ensures RunRecs(fields, rs, st) == RunRecs(fields, rs', st)
  {
    hide RunRecs, FoldCell;
    var n, n' := RunRecs(fields, rs, st), RunRecs(fields, rs', st);
    if n.None? {
      var h := SomeCellFails(fields, rs, st);
      CellsAgree(fields, rs', st, h);
    } else if n'.None? {
      var h := SomeCellFails(fields, rs', st);
      CellsAgree(fields, rs, st, h);
    } else {
      forall h: nat | h < |fields| ensures n.value.msg.slots[h] == n'.value.msg.slots[h] {
        CellsAgree(fields, rs, st, h);
        CellsAgree(fields, rs', st, h);
      }
      assert n.value.msg.slots == n'.value.msg.slots;
      forall i: nat ensures i in n.value.seen <==> i in n'.value.seen {
        SeenAfter(fields, rs, st, i);
        SeenAfter(fields, rs', st, i);
      }
      assert n.value.seen == n'.value.seen;
      TrackerIdle(fields, rs, st);
      TrackerIdle(fields, rs', st);
    }
  }

  /**
   Two inputs that have the same records for every storage cell, in the same order, decode
   alike, over any message: with the same error or to the same result. The order between
   cells is free, and unknown records may stand anywhere.
   */
  lemma {:induction false} OrderIndependent(fields: seq<Field>, rs: seq<Rec>, rs': seq<Rec>, m: Msg)
    requires WellFormed(fields) && NoFixedCount(fields) && |m.slots| == |fields|
    requires RecsOk(fields, rs) && RecsOk(fields, rs') && SameCells(fields, rs, rs')
    ensures DecodeNoinit(fields, Concat(fields, rs), m) == DecodeNoinit(fields, Concat(fields, rs'), m)
  {
    hide DecLoop, RunRecs;
    LoopRuns(fields, rs, Start(m));
    LoopRuns(fields, rs', Start(m));
    SameRun(fields, rs, rs', Start(m));
  }
}
