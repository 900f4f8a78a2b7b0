/**
 The decoder reads from the front: what a successful read returns does not depend on the
 bytes behind it. From this follows how the field loop runs over concatenated inputs.
 */
module Locality {
  import opened Bits
  import opened Descriptor
  import opened Varint
  import opened WireDecode

  /** The read that gave p gives the same with t appended to its input. */
  predicate Extends<T(==)>(p: Parse<T>, q: Parse<T>, t: bytes) {
    p.Parsed? ==> q == Parsed(p.value, p.rest + t)
  }

  lemma {:induction false} Dec32FromLocal(s: bytes, bitpos: nat, result: nat, t: bytes)
    requires result < TWO32
    ensures Extends(Dec32From(s, bitpos, result), Dec32From(s + t, bitpos, result), t)
  {
    if s != [] && Dec32From(s, bitpos, result).Parsed? {
      assert (s + t)[0] == s[0] && (s + t)[1..] == s[1..] + t;
      if s[0] >= 128 {
        var r := if bitpos >= 32 then result else Merged32(result, s[0] % 128, bitpos);
        Dec32FromLocal(s[1..], (bitpos + 7) % 256, r, t);
      }
    }
  }

  lemma {:induction false} Dec32Local(s: bytes, t: bytes)
    ensures Extends(Dec32(s), Dec32(s + t), t)
  {
    if s != [] {
      assert (s + t)[0] == s[0] && (s + t)[1..] == s[1..] + t;
      if s[0] >= 128 {
        Dec32FromLocal(s[1..], 7, s[0] % 128, t);
      }
    }
  }

  lemma {:induction false} Dec64Local(s: bytes, t: bytes)
    ensures Extends(Dec64(s), Dec64(s + t), t)
  {
    if Dec64(s).Parsed? {
      var g, x := Head(s), s[|Head(s)|..];
      HeadTerminated(s);
      Dec64Exact(g, x);
      Assoc(g, x, t);
      Dec64Exact(g, x + t);
    }
  }

  lemma {:induction false} TakeLocal(n: nat, s: bytes, t: bytes)
    ensures Extends(Take(n, s), Take(n, s + t), t)
  {
    if n <= |s| {
      assert (s + t)[..n] == s[..n] && (s + t)[n..] == s[n..] + t;
    }
  }

  lemma {:induction false} TakeStringLocal(s: bytes, t: bytes)
    ensures Extends(TakeString(s), TakeString(s + t), t)
  {
    Dec32Local(s, t);
    if Dec32(s).Parsed? {
      TakeLocal(Dec32(s).value, Dec32(s).rest, t);
    }
  }

  lemma {:induction false} SkipVarintLocal(s: bytes, t: bytes)
    ensures Extends(SkipVarint(s), SkipVarint(s + t), t)
  {
    if SkipVarint(s).Parsed? {
      var g, x := Head(s), s[|Head(s)|..];
      HeadTerminated(s);
      Assoc(g, x, t);
      TerminatedHead(g, x + t);
      assert (g + (x + t))[|g|..] == x + t;
    }
  }

  lemma {:induction false} SkipLocal(wt: nat, s: bytes, t: bytes)
    ensures Extends(Skip(wt, s), Skip(wt, s + t), t)
  {
    SkipVarintLocal(s, t);
    TakeLocal(8, s, t);
    TakeLocal(4, s, t);
    TakeStringLocal(s, t);
  }

  lemma {:induction false} DecBytesLocal(f: Field, s: bytes, t: bytes)
    ensures Extends(DecBytes(f, s), DecBytes(f, s + t), t)
    ensures Extends(DecText(f, s), DecText(f, s + t), t)
    ensures Extends(DecFixedLength(f, s), DecFixedLength(f, s + t), t)
  {
    Dec32Local(s, t);
    if Dec32(s).Parsed? {
      TakeLocal(Dec32(s).value, Dec32(s).rest, t);
    }
  }

  lemma {:induction false} DecScalarLocal(f: Field, s: bytes, t: bytes)
    ensures Extends(DecScalar(f, s), DecScalar(f, s + t), t)
  {
    match f.ltype
    case Bool => Dec32Local(s, t);
    case Varint => Dec64Local(s, t);
    case UVarint => Dec64Local(s, t);
    case SVarint => Dec64Local(s, t);
    case Fixed32 => TakeLocal(4, s, t);
    case Fixed64 => TakeLocal(8, s, t);
    case Bytes => DecBytesLocal(f, s, t);
    case String => DecBytesLocal(f, s, t);
    case FixedLengthBytes => DecBytesLocal(f, s, t);
    case Submessage =>
  }

  lemma {:induction false} DecElemLocal(f: Field, s: bytes, prior: Value, t: bytes)
    ensures Extends(DecElem(f, s, prior), DecElem(f, s + t, prior), t)
  {
    if f.ltype.Submessage? {
      TakeStringLocal(s, t);
    } else {
      DecScalarLocal(f, s, t);
    }
  }

  lemma {:induction false} DecSlotLocal(f: Field, wt: nat, s: bytes, slot: Slot, k: nat, t: bytes)
    ensures Extends(DecSlot(f, wt, s, slot, k), DecSlot(f, wt, s + t, slot, k), t)
  {
    hide DecElem, TakeString, DecPacked;
    match f.htype
    case Required => DecElemLocal(f, s, ValueOf(slot), t);
    case Optional => DecElemLocal(f, s, ValueOf(slot), t);
    case Repeated => TakeStringLocal(s, t); DecElemLocal(f, s, Num(0), t);
    case Oneof => DecElemLocal(f, s, MemberBase(f, slot), t);
  }

  lemma {:induction false} SkipUnknownLocal(fields: seq<Field>, tag: nat, wt: nat, s: bytes, t: bytes)
    ensures Extends(SkipUnknown(fields, tag, wt, s), SkipUnknown(fields, tag, wt, s + t), t)
  {
    Dec32Local(s, t);
    SkipLocal(wt, s, t);
  }

  lemma {:induction false} DecFieldLocal(fields: seq<Field>, i: nat, wt: nat, s: bytes, st: DState, t: bytes)
    requires i < |fields| && StateOk(fields, st)
    requires DecField(fields, i, wt, s, st).Next?
    ensures var r := DecField(fields, i, wt, s, st);
            DecField(fields, i, wt, s + t, st) == Next(r.st, r.rest + t)
  {
    var u := Track(fields, i, st).value;
    DecSlotLocal(fields[i], wt, s, SlotOf(fields, u.msg, i), CountOf(fields, i, u), t);
  }

  /** A turn of the field loop that succeeds, succeeds in the same way with more bytes behind. */
  lemma {:induction false} StepLocal(fields: seq<Field>, s: bytes, st: DState, t: bytes)
    requires StateOk(fields, st)
    requires Step(fields, s, st).Next?
    ensures var r := Step(fields, s, st);
            Step(fields, s + t, st) == Next(r.st, r.rest + t)
  {
    Dec32Local(s, t);
    var key, r := Dec32(s).value, Dec32(s).rest;
    var i := FindField(fields, key / 8);
    if i < |fields| {
      DecFieldLocal(fields, i, key % 8, r, st, t);
    } else {
      SkipUnknownLocal(fields, key / 8, key % 8, r, t);
    }
  }

  /** The field loop over A ++ B is the loop over A followed by the loop over B. */
  lemma {:induction false} LoopConcat(fields: seq<Field>, a: bytes, b: bytes, st: DState)
    requires StateOk(fields, st)
    requires var r := DecLoop(fields, a, st); r.Ended? && !r.halted
    ensures DecLoop(fields, a + b, st) == DecLoop(fields, b, DecLoop(fields, a, st).st)
    decreases |a|
  {
    if a == [] {
      AppendNil(b);
    } else {
      StepLocal(fields, a, st, b);
      var n := Step(fields, a, st);
      LoopConcat(fields, n.rest, b, n.st);
    }
  }
}
