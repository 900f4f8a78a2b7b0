/** Unknown fields do not disturb decoding. */
module ForwardCompat {
  import opened Bits
  import opened Descriptor
  import opened Locality
  import opened ScalarRoundTrip
  import opened Varint
  import opened WireDecode
  import opened WireEncode

  /** A well-formed field payload of the given wire type: varint, 64-bit, length-delimited or 32-bit. */
  ghost predicate IsPayload(wt: nat, p: bytes) {
    || (wt == 0 && Terminated(p))
    || (wt == 1 && |p| == 8)
    || (wt == 2 && exists b: bytes :: |b| < 0x1_0000_0000 && p == VarintBytes(|b|) + b)
    || (wt == 5 && |p| == 4)
  }

  /** The tag is a valid field number that the descriptor does not have. */
  predicate UnknownTag(fields: seq<Field>, tag: nat) {
    0 < tag < 0x2000_0000 && FindField(fields, tag) == |fields|
  }

  /** A well-formed record whose tag the descriptor does not have. */
  ghost predicate UnknownRecord(fields: seq<Field>, u: bytes) {
    exists tag: nat, wt: nat, p: bytes :: wt < 8 && UnknownTag(fields, tag) && IsPayload(wt, p) &&
      u == TagBytes(tag, wt) + p
  }

  /** pb_skip_field consumes exactly one payload. */
  lemma {:induction false} SkipExact(wt: nat, p: bytes, t: bytes)
    requires IsPayload(wt, p)
    ensures Skip(wt, p + t) == Parsed((), t)
  {
    if wt == WT_VARINT {
      TerminatedHead(p, t);
      assert (p + t)[|p|..] == t;
    } else if wt == WT_STRING {
      var b: bytes :| |b| < TWO32 && p == LengthPrefixed(b);
      StringRoundTrip(b, t);
    } else {
      TakeExact(p, t);
    }
  }

  lemma {:induction false} StepUnknown(fields: seq<Field>, tag: nat, wt: nat, p: bytes, t: bytes, st: DState)
    requires StateOk(fields, st) && wt < 8 && UnknownTag(fields, tag) && IsPayload(wt, p)
    ensures Step(fields, (TagBytes(tag, wt) + p) + t, st) == Next(st, t)
  {
    hide Dec32, Skip;
    var key := tag * 8 + wt;
    assert key / 8 == tag && key % 8 == wt && 0 < key < TWO32;
    Assoc(TagBytes(tag, wt), p, t);
    Varint32RoundTrip(key, p + t);
    SkipExact(wt, p, t);
  }

  /** A turn of the field loop over an unknown record leaves every variable alone. */
  lemma {:induction false} UnknownStep(fields: seq<Field>, u: bytes, t: bytes, st: DState)
    requires StateOk(fields, st) && UnknownRecord(fields, u)
    ensures u != [] && Step(fields, u + t, st) == Next(st, t)
  {
    var tag: nat, wt: nat, p: bytes :| wt < 8 && UnknownTag(fields, tag) && IsPayload(wt, p) &&
        u == TagBytes(tag, wt) + p;
    StepUnknown(fields, tag, wt, p, t, st);
  }

  /** The field loop reaches the end of a, that is, a ends at a record boundary. */
  predicate Boundary(fields: seq<Field>, a: bytes, m: Msg)
    requires |m.slots| == |fields|
  {
    var r := DecLoop(fields, a, Start(m));
    r.Ended? && !r.halted
  }

  /**
   Inserting an unknown record at any record boundary, whatever follows, changes neither the
   success of decoding nor its result.
   */
  lemma {:induction false} InsertUnknown(fields: seq<Field>, a: bytes, u: bytes, b: bytes, m: Msg)
    requires |m.slots| == |fields| && Boundary(fields, a, m) && UnknownRecord(fields, u)
    ensures DecodeNoinit(fields, a + (u + b), m) == DecodeNoinit(fields, a + b, m)
  {
    hide Step;
    var st := DecLoop(fields, a, Start(m)).st;
    LoopConcat(fields, a, u + b, Start(m));
    LoopConcat(fields, a, b, Start(m));
    UnknownStep(fields, u, b, st);
    assert DecLoop(fields, u + b, st) == DecLoop(fields, b, st);
  }
}
