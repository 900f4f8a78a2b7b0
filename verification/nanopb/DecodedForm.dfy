/** What the decoder accepts and reads, item by item and record by record, in plain numbers. */
module DecodedForm {
  import opened Bits
  import opened Descriptor
  import opened FieldOrder
  import opened ForwardCompat
  import opened Locality
  import opened MergeRun
  import opened Varint
  import opened WireDecode
  import opened WireEncode
  import opened Wrappers

  // ----- items

  /** Number of values of an integer of the given size in bytes. */
  function Values(size: nat): nat {
    if size == 1 then 0x100 else if size == 2 then 0x1_0000 else if size == 4 then 0x1_0000_0000
    else 0x1_0000_0000_0000_0000
  }

  /** The two's complement reading of the low bits of v. */
  function Signed(v: nat, values: nat): int
    requires values > 0
  {
    if v % values < values / 2 then v % values else v % values - values
  }

  /** An unsigned field takes exactly the numbers that fit it. */
  lemma {:induction false} UnsignedAccepted(f: Field, s: bytes)
    requires f.ltype.UVarint? && IsIntSize(f.dataSize)
    ensures DecScalar(f, s) ==
            match Dec64(s)
            case Bad => Bad
            case Parsed(v, r) => if v < Values(f.dataSize) then Parsed(Num(v), r) else Bad
  {
    hide Dec64;
    if Dec64(s).Parsed? {
      FitsItself(Dec64(s).value, Values(f.dataSize));
    }
  }

  lemma {:induction false} FitsItself(v: nat, w: nat)
    requires w > 0
    ensures v % w == v <==> v < w
  {
  }

  /** A signed field reads the low 64 or 32 bits as a signed number, and takes it if it fits. */
  lemma {:induction false} SignedAccepted(f: Field, s: bytes)
    requires f.ltype.Varint? && IsIntSize(f.dataSize)
    ensures DecScalar(f, s) ==
            match Dec64(s)
            case Bad => Bad
            case Parsed(v, r) =>
              var x := Signed(v, if f.dataSize == 8 then 0x1_0000_0000_0000_0000 else 0x1_0000_0000);
              var half := Values(f.dataSize) / 2;
              if -half <= x < half then Parsed(Num(x), r) else Bad
  {
    hide Dec64, CastSigned;
    if Dec64(s).Parsed? {
      var v := Dec64(s).value;
      var size := if f.dataSize == 8 then 8 else 4;
      CastIs(v, size);
      CastKeeps(Signed(v, Values(size)), f.dataSize);
    }
  }

  /** A zigzag field takes the number that the zigzag code stands for, if it fits. */
  lemma {:induction false} ZigZagAccepted(f: Field, s: bytes)
    requires f.ltype.SVarint? && IsIntSize(f.dataSize)
    ensures DecScalar(f, s) ==
            match Dec64(s)
            case Bad => Bad
            case Parsed(v, r) =>
              var x := if v % 2 == 0 then v / 2 else -(v / 2) - 1;
              var half := Values(f.dataSize) / 2;
              if -half <= x < half then Parsed(Num(x), r) else Bad
  {
    hide Dec64, CastSigned;
    if Dec64(s).Parsed? {
      CastKeeps(UnZigZag(Dec64(s).value), f.dataSize);
    }
  }

  lemma {:induction false} CastIs(v: nat, size: nat)
    requires IsIntSize(size)
    ensures CastSigned(v, size) == Signed(v, Values(size))
  {
  }

  lemma {:induction false} CastKeeps(x: int, size: nat)
    requires IsIntSize(size)
    ensures CastSigned(x, size) == x <==> -(Values(size) / 2) <= x < Values(size) / 2
  {
    if -(Values(size) / 2) <= x < Values(size) / 2 {
      CastSignedFits(x, size);
    }
  }

  /** Any number but 0 is true. */
  lemma {:induction false} BoolAccepted(f: Field, s: bytes)
    requires f.ltype.Bool?
    ensures DecScalar(f, s) ==
            match Dec32(s)
            case Bad => Bad
            case Parsed(v, r) => if v == 0 then Parsed(Num(0), r) else Parsed(Num(1), r)
  {
  }

  /** Fixed-width fields take the next four or eight bytes, whatever they are. */
  lemma {:induction false} FixedAccepted(f: Field, s: bytes)
    requires f.ltype.Fixed32? || f.ltype.Fixed64?
    ensures var n := if f.ltype.Fixed32? then 4 else 8;
            if |s| < n then DecScalar(f, s) == Bad
            else DecScalar(f, s).Parsed? && DecScalar(f, s).rest == s[n..] && DecScalar(f, s).value.Num? &&
                 LEBytes(DecScalar(f, s).value.n, n) == s[..n]
  {
    var n := if f.ltype.Fixed32? then 4 else 8;
    if |s| >= n {
      LEInverse(s[..n]);
    }
  }

  lemma {:induction false} LEInverse(b: bytes)
    ensures LEBytes(LEValue(b), |b|) == b
  {
    if b != [] {
      LEInverse(b[1..]);
      assert LEValue(b) % 256 == b[0] && LEValue(b) / 256 == LEValue(b[1..]);
    }
  }

  /** A payload with its length. */
  function Payload(s: bytes): Parse<bytes> {
    match Dec32(s)
    case Bad => Bad
    case Parsed(n, r) => if n <= |r| then Parsed(r[..n], r[n..]) else Bad
  }

  /** A bytes value is taken if it fits behind its length member. */
  lemma {:induction false} BytesAccepted(f: Field, s: bytes)
    requires f.ltype.Bytes? && f.dataSize <= PB_SIZE_MAX
    ensures DecScalar(f, s) ==
            match Payload(s)
            case Bad => Bad
            case Parsed(b, r) => if |b| + BYTES_OFFSET <= f.dataSize then Parsed(Blob(b), r) else Bad
  {
    hide Dec32;
  }

  /** A string is taken if it fits with a terminator, and gets one. */
  lemma {:induction false} TextAccepted(f: Field, s: bytes)
    requires f.ltype.String? && f.dataSize <= PB_SIZE_MAX
    ensures DecScalar(f, s) ==
            match Payload(s)
            case Bad => Bad
            case Parsed(b, r) => if |b| < f.dataSize then Parsed(Text(b + [0]), r) else Bad
  {
    hide Dec32;
  }

  /** Fixed-length bytes are all there, or none; none stands for zeros. */
  lemma {:induction false} FixedLengthAccepted(f: Field, s: bytes)
    requires f.ltype.FixedLengthBytes? && f.dataSize <= PB_SIZE_MAX
    ensures DecScalar(f, s) ==
            match Payload(s)
            case Bad => Bad
            case Parsed(b, r) =>
              if b == [] then Parsed(Blob(seq(f.dataSize, _ => 0)), r)
              else if |b| == f.dataSize then Parsed(Blob(b), r) else Bad
  {
    hide Dec32;
    if Dec32(s).Parsed? && Dec32(s).value == 0 {
      assert Dec32(s).rest[0..] == Dec32(s).rest;
    }
  }

  /** The length member of a bytes field has the width of pb_size_t. */
  lemma {:induction false} LengthMember()
    ensures Pow2(8 * BYTES_OFFSET) == PB_SIZE_MAX + 1
  {
    Pow2Values();
  }

  predicate Continues(fields: seq<Field>, k: nat)
    requires 0 < k < |fields|
  {
    fields[k - 1].htype.Oneof? && fields[k].htype.Oneof? && fields[k].dataOffset == PB_SIZE_MAX
  }

  /**
   Fields share a cell if and only if all of them up to the last are members of a union, and the later ones are
   marked.
   */
  lemma {:induction false} UnionMembers(fields: seq<Field>, i: nat, j: nat)
    requires i < j < |fields|
    ensures Home(fields, i) == Home(fields, j) <==>
            forall k | i < k <= j :: Continues(fields, k)
  {
    assert Continues(fields, j) <==> SharesUnion(fields[j - 1], fields[j]);
    if Continues(fields, j) && i < j - 1 {
      UnionMembers(fields, i, j - 1);
    }
  }

  // ----- defaults

  /** The value of a field before anything is received. */
  lemma {:induction false} DefaultIs(f: Field)
    requires WellFormedField(f)
    ensures DefaultValue(f) ==
            match f.ptr
            case Fields(sub) => Nested(Defaults(sub))
            case Default(v) => v
            case Null =>
              match f.ltype
              case Bytes => Blob([])
              case String => Text([0])
              case FixedLengthBytes => Blob(seq(f.dataSize, _ => 0))
              case _ => Num(0)
  {
  }

  /** A storage cell for which the input has no record keeps its contents. */
  lemma {:induction false} Untouched(fields: seq<Field>, rs: seq<Rec>, i: nat, m: Msg)
    requires WellFormed(fields) && NoFixedCount(fields) && RecsOk(fields, rs) && i < |fields| == |m.slots|
    requires CellRecs(fields, rs, Home(fields, i)) == [] && DecodeNoinit(fields, Concat(fields, rs), m).Parsed?
    ensures SlotOf(fields, DecodeNoinit(fields, Concat(fields, rs), m).value, i) == SlotOf(fields, m, i)
  {
    hide DecLoop, RunRecs, RecsOk;
    var h := Home(fields, i);
    LoopRuns(fields, rs, Start(m));
    CellsAgree(fields, rs, Start(m), h);
  }

  /** In a new message it is absent, empty or at its default. */
  lemma {:induction false} NotReceived(fields: seq<Field>, rs: seq<Rec>, i: nat)
    requires WellFormed(fields) && NoFixedCount(fields) && RecsOk(fields, rs) && i < |fields|
    requires CellRecs(fields, rs, Home(fields, i)) == [] && Decode(fields, Concat(fields, rs)).Parsed?
    ensures var s := SlotOf(fields, Decode(fields, Concat(fields, rs)).value, i);
            match fields[i].htype
            case Required => s == Single(DefaultValue(fields[i]))
            case Optional =>
              s == if fields[i].sizeOffset != 0 then Opt(false, DefaultValue(fields[i]))
                else Single(DefaultValue(fields[i]))
            case Repeated => s == Rep([])
            case Oneof => s.Union? && s.which == 0
  {
    hide DecodeNoinit, DefaultValue, RecsOk, WellFormed, CellRecs;
    Untouched(fields, rs, i, Defaults(fields));
    InitialCell(fields, i);
  }

  lemma {:induction false} InitialCell(fields: seq<Field>, i: nat)
    requires i < |fields|
    ensures SlotOf(fields, Defaults(fields), i) == DefaultSlot(fields[Home(fields, i)])
    ensures fields[i].htype.Oneof? <==> fields[Home(fields, i)].htype.Oneof?
    ensures !fields[i].htype.Oneof? ==> Home(fields, i) == i
  {
    HomeFacts(fields, i);
  }

  // ----- records

  /** The required fields before field i. */
  function RequiredTo(fields: seq<Field>, i: nat): set<nat>
    requires i <= |fields|
  {
    set k: nat | k < i && fields[k].htype.Required?
  }

  lemma {:induction false} OneMoreField(fields: seq<Field>, i: nat)
    requires i < |fields|
    ensures RequiredTo(fields, i + 1) == if fields[i].htype.Required? then RequiredTo(fields, i) + {i}
        else RequiredTo(fields, i)
    ensures i !in RequiredTo(fields, i)
  {
  }

  lemma {:induction false} RequiredBeforeIs(fields: seq<Field>, i: nat)
    requires i <= |fields|
    ensures RequiredBefore(fields, i) == |RequiredTo(fields, i)|
  {
    hide RequiredTo;
    if i > 0 {
      RequiredBeforeIs(fields, i - 1);
      OneMoreField(fields, i - 1);
    } else {
      NoneBefore(fields);
    }
  }

  lemma {:induction false} NoneBefore(fields: seq<Field>)
    ensures RequiredTo(fields, 0) == {}
  {
  }

  /** The input has a record of every required field that has fewer than 64 required fields before it. */
  predicate RequiredThere(fields: seq<Field>, rs: seq<Rec>) {
    forall i | 0 <= i < |fields| ::
      fields[i].htype.Required? && |RequiredTo(fields, i)| < 64 ==> exists k | 0 <= k < |rs| :: IsOf(rs[k], i)
  }

  predicate IsOf(r: Rec, i: nat) {
    r.Known? && r.i == i
  }

  /** If every record can be decoded, the message is accepted if and only if no checked required field is missing. */
  lemma {:induction false} AcceptedWhen(fields: seq<Field>, rs: seq<Rec>, m: Msg)
    requires WellFormed(fields) && NoFixedCount(fields) && RecsOk(fields, rs) && |m.slots| == |fields|
    ensures DecodeNoinit(fields, Concat(fields, rs), m).Parsed? <==>
            DecLoop(fields, Concat(fields, rs), Start(m)).Ended? && RequiredThere(fields, rs)
  {
    hide DecLoop, RunRecs, RecsOk, WellFormed, RequiredTo, RequiredBefore;
    LoopRuns(fields, rs, Start(m));
    if RunRecs(fields, rs, Start(m)).Some? {
      TrackerIdle(fields, rs, Start(m));
      forall i | 0 <= i < |fields| && fields[i].htype.Required?
        ensures i in RunRecs(fields, rs, Start(m)).value.seen <==> exists k | 0 <= k < |rs| :: IsOf(rs[k], i)
        ensures RequiredBefore(fields, i) == |RequiredTo(fields, i)|
      {
        SeenAfter(fields, rs, Start(m), i);
        CellRecords(fields, rs, i);
        RequiredBeforeIs(fields, i);
      }
    }
  }

  lemma {:induction false} CellRecords(fields: seq<Field>, rs: seq<Rec>, i: nat)
    requires i < |fields| && !fields[i].htype.Oneof?
    ensures CellRecs(fields, rs, i) != [] <==> exists k | 0 <= k < |rs| :: IsOf(rs[k], i)
  {
    if rs != [] {
      CellRecords(fields, rs[1..], i);
      InOwnCell(fields, rs[0], i);
      HeadOrTail(rs, i);
    }
  }

  lemma {:induction false} InOwnCell(fields: seq<Field>, r: Rec, i: nat)
    requires i < |fields| && !fields[i].htype.Oneof?
    ensures InCell(fields, r, i) <==> IsOf(r, i)
  {
    HomeFacts(fields, i);
    if r.Known? && r.i < |fields| {
      HomeFacts(fields, r.i);
    }
  }

  lemma {:induction false} HeadOrTail(rs: seq<Rec>, i: nat)
    requires rs != []
    ensures (exists k | 0 <= k < |rs| :: IsOf(rs[k], i)) <==>
            IsOf(rs[0], i) || exists k | 0 <= k < |rs[1..]| :: IsOf(rs[1..][k], i)
  {
    if k :| 0 <= k < |rs| && IsOf(rs[k], i) {
      assert k > 0 ==> IsOf(rs[1..][k - 1], i);
    }
    if k :| 0 <= k < |rs[1..]| && IsOf(rs[1..][k], i) {
      assert IsOf(rs[k + 1], i);
    }
  }

  /** A fixed-count array that is left before it is full makes decoding fail at the next one. */
  lemma {:induction false} LeftTooEarly(fields: seq<Field>, i: nat, wt: nat, s: bytes, st: DState)
    requires WellFormed(fields) && i < |fields| && wt < 8 && StateOk(fields, st) && FixedCount(fields[i])
    requires st.fixedField.Some? && st.fixedField != Some(i)
    requires st.fixedCount != fields[st.fixedField.value].arraySize
    ensures Step(fields, TagBytes(fields[i].tag, wt) + s, st) == Fail
  {
    hide Step;
    KeyRun(fields, i, wt, s, st);
  }

  /** And at the end. */
  lemma {:induction false} EndedTooEarly(fields: seq<Field>, s: bytes, m: Msg)
    requires |m.slots| == |fields| && DecLoop(fields, s, Start(m)).Ended?
    requires var st := DecLoop(fields, s, Start(m)).st;
             st.fixedField.Some? && st.fixedCount != fields[st.fixedField.value].arraySize
    ensures DecodeNoinit(fields, s, m) == Bad
  {
  }

  /** A zero key ends the message; what follows is left alone. */
  lemma {:induction false} ZeroKeyEnds(fields: seq<Field>, a: bytes, t: bytes, m: Msg)
    requires |m.slots| == |fields| && Boundary(fields, a, m)
    ensures DecodeNoinit(fields, a + ([0] + t), m) ==
            match DecodeNoinit(fields, a, m) case Bad => Bad case Parsed(z, _) => Parsed(z, t)
  {
    hide Step;
    var st := DecLoop(fields, a, Start(m)).st;
    LoopConcat(fields, a, [0] + t, Start(m));
    LoopTurn(fields, [0] + t, st);
    ZeroKey(fields, t, st);
  }

  lemma {:induction false} ZeroKey(fields: seq<Field>, t: bytes, st: DState)
    requires StateOk(fields, st)
    ensures Step(fields, [0] + t, st) == Halt(t)
  {
    Dec32Cons(0, t);
  }

  /** A type without fields takes tag 0 for a known one, a bool, and reads a varint whatever the wire type. */
  lemma {:induction false} NoFields(wt: nat, s: bytes, st: DState)
    requires 0 < wt < 8 && StateOk([], st)
    ensures Step([], [wt] + s, st) == match Dec32(s) case Bad => Fail case Parsed(_, r) => Next(st, r)
  {
    Dec32Single(wt, s);
    hide Dec32;
    assert ([wt] + s)[1..] == s;
  }

  /** Which wire type a singular field comes with does not matter. */
  lemma {:induction false} WireTypeIgnored(f: Field, wt: nat, wt': nat, s: bytes, slot: Slot, k: nat)
    requires !f.htype.Repeated?
    ensures DecSlot(f, wt, s, slot, k) == DecSlot(f, wt', s, slot, k)
  {
  }

  /** Nor for an array whose items cannot be packed, nor among the wire types other than 2. */
  lemma {:induction false} WireTypeOfArray(f: Field, wt: nat, wt': nat, s: bytes, slot: Slot, k: nat)
    requires f.htype.Repeated? && (wt == 2 <==> wt' == 2)
    ensures DecSlot(f, wt, s, slot, k) == DecSlot(f, wt', s, slot, k)
  {
  }

  /** Only the four wire types can be skipped, and only if all of the payload is there. */
  lemma {:induction false} SkipAccepts(wt: nat, s: bytes)
    ensures Skip(wt, s).Parsed? <==>
            || (wt == 0 && exists i | 0 <= i < |s| :: s[i] < 128)
            || (wt == 1 && |s| >= 8)
            || (wt == 2 && Payload(s).Parsed?)
            || (wt == 5 && |s| >= 4)
  {
    hide Dec32;
    TerminatorFound(s);
  }

  lemma {:induction false} TerminatorFound(s: bytes)
    ensures Terminator(s) < |s| <==> exists i | 0 <= i < |s| :: s[i] < 128
  {
    if s != [] {
      TerminatorFound(s[1..]);
      if i :| 0 <= i < |s| && s[i] < 128 {
        assert i > 0 ==> s[1..][i - 1] < 128;
      }
    }
  }
}
