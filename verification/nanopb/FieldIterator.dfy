/**
 The cyclic field iterator of pb_common.c. Addresses are integers: the iterator derives the
 address of a field's data from the descriptors alone, step by step.
 */
module FieldIterator {
  import opened Descriptor
  import opened WireDecode

  /** Bytes that a struct member occupies. */
  function MemberSize(f: Field): nat {
    if f.htype.Repeated? then f.dataSize * f.arraySize else f.dataSize
  }

  /** The descriptors were generated from a struct whose members lie at the offsets off. */
  predicate LaidOut(fields: seq<Field>, off: seq<int>) {
    && |off| == |fields|
    && (forall i | 0 <= i < |off| :: off[i] >= 0)
    && (|fields| > 0 ==> fields[0].dataOffset == off[0])
    && forall i | 0 < i < |fields| ::
         if SharesUnion(fields[i - 1], fields[i])
         then off[i] == off[i - 1] && fields[i].sizeOffset == fields[i - 1].sizeOffset
         else fields[i].dataOffset == off[i] - off[i - 1] - MemberSize(fields[i - 1])
  }

  /** Fields that share a storage cell lie at the same offset. */
  lemma {:induction false} HomeOffset(fields: seq<Field>, off: seq<int>, i: nat)
    requires LaidOut(fields, off) && i < |fields|
    ensures off[i] == off[Home(fields, i)]
  {
    if i > 0 && SharesUnion(fields[i - 1], fields[i]) {
      HomeOffset(fields, off, i - 1);
    }
  }

  /** The members of a union share their address. */
  lemma {:induction false} UnionAddress(fields: seq<Field>, off: seq<int>, i: nat, j: nat)
    requires LaidOut(fields, off) && i < |fields| && j < |fields| && Home(fields, i) == Home(fields, j)
    ensures off[i] == off[j]
  {
    HomeOffset(fields, off, i);
    HomeOffset(fields, off, j);
  }

  /** The position after p among n. */
  function NextPos(n: nat, p: nat): (q: nat)
    requires p < n
    ensures q < n
  {
    if p + 1 == n then 0 else p + 1
  }

  /** The position k steps after p. */
  function Advance(n: nat, p: nat, k: nat): (q: nat)
    requires p < n
    ensures q < n
  {
    if k == 0 then p else NextPos(n, Advance(n, p, k - 1))
  }

  lemma {:induction false} AdvanceIs(n: nat, p: nat, k: nat)
    requires p < n && k <= n
    ensures Advance(n, p, k) == if p + k < n then p + k else p + k - n
  {
    if k > 0 {
      AdvanceIs(n, p, k - 1);
    }
  }

  /** After as many steps as there are fields the iterator is back where it was, and not before. */
  lemma {:induction false} FullCycle(n: nat, p: nat, k: nat)
    requires p < n && 0 < k <= n
    ensures Advance(n, p, k) == p <==> k == n
  {
    AdvanceIs(n, p, k);
  }

  /** Every position is reached from every other one. */
  lemma {:induction false} AllVisited(n: nat, p: nat, q: nat) returns (k: nat)
    requires p < n && q < n
    ensures k < n && Advance(n, p, k) == q
  {
    k := if p <= q then q - p else q + n - p;
    AdvanceIs(n, p, k);
  }

  class FieldIter {
    const fields: seq<Field>
    const dest: nat
    ghost const off: seq<int>
    var pos: nat
    var requiredFieldIndex: nat
    var pData: int
    var pSize: int

    /** An address outside the struct, for an array count that is kept elsewhere. */
    const ELSEWHERE: int := dest - 1

    /** pos is a field, or the terminator of an empty descriptor. */
    ghost predicate OnField()
      reads this
    {
      if |fields| == 0 then pos == 0 else pos < |fields|
    }

    /**
     Everything is what the position says, and the required fields before it are counted; only
     pSize may have been redirected, at a fixed-count field.
     */
    ghost predicate Valid()
      reads this
    {
      && LaidOut(fields, off) && OnField()
      && requiredFieldIndex == RequiredBefore(fields, pos)
      && (|fields| > 0 ==> pData == dest + off[pos])
      && (|fields| > 0 ==> pSize == pData + fields[pos].sizeOffset || (FixedCount(fields[pos]) && pSize == ELSEWHERE))
    }

    /** pSize points at the count, has_ or which_ member of the field. */
    ghost predicate Exact()
      reads this
    {
      Valid() && (|fields| > 0 ==> pSize == pData + fields[pos].sizeOffset)
    }

    /** pb_field_iter_begin on a new iterator. */
    constructor (fields: seq<Field>, dest: nat, ghost off: seq<int>)
      requires LaidOut(fields, off)
      ensures this.fields == fields && this.dest == dest && Exact() && pos == 0
    {
      this.fields := fields;
      this.dest := dest;
      this.off := off;
      pos := 0;
      requiredFieldIndex := 0;
      pData := dest + if |fields| > 0 then fields[0].dataOffset else 0;
      pSize := dest + if |fields| > 0 then fields[0].dataOffset + fields[0].sizeOffset else 0;
    }

    /** pb_field_iter_begin; the result says whether there is a field. */
    method Begin() returns (more: bool)
      requires LaidOut(fields, off)
      modifies this
      ensures Exact() && pos == 0 && more == (|fields| > 0)
    {
      pos := 0;
      requiredFieldIndex := 0;
      if |fields| > 0 {
        pData := dest + fields[0].dataOffset;
        pSize := pData + fields[0].sizeOffset;
      }
      more := |fields| > 0;
    }

    /** pb_field_iter_next; false when the iterator has come around. */
    method Next() returns (more: bool)
      requires Valid()
      modifies this
      ensures |fields| == 0 ==> !more && Valid() && pos == 0
      ensures |fields| > 0 ==> Exact() && pos == NextPos(|fields|, old(pos)) && more == (pos != 0)
    {
      if |fields| == 0 {
        return false;
      }
      var prev := fields[pos];
      pos := pos + 1;
      if pos == |fields| {
        var _ := Begin();
        return false;
      }
      var cur := fields[pos];
      var prevSize := prev.dataSize;
      if prev.htype.Oneof? && cur.htype.Oneof? && cur.dataOffset == PB_SIZE_MAX {
        return true;
      } else if prev.htype.Repeated? {
        prevSize := prevSize * prev.arraySize;
      }
      if prev.htype.Required? {
        requiredFieldIndex := requiredFieldIndex + 1;
      }
      pData := pData + prevSize + cur.dataOffset;
      pSize := pData + cur.sizeOffset;
      return true;
    }

    /** pb_field_iter_find: goes once around, from wherever the iterator stands. */
    method Find(tag: nat) returns (found: bool)
      requires Valid() && DistinctTags(fields)
      modifies this
      ensures Valid()
      ensures |fields| == 0 ==> found == (tag == 0)
      ensures |fields| > 0 ==> found == (FindField(fields, tag) < |fields|)
      ensures found && |fields| > 0 ==> pos == FindField(fields, tag)
      ensures !found ==> pos == old(pos)
      ensures |fields| > 0 && (!found || pos != old(pos)) ==> Exact()
      ensures found && pos == old(pos) ==> pSize == old(pSize)
    {
      var start := pos;
      if |fields| == 0 {
        if tag == 0 {
          return true;
        }
        var _ := Next();
        return false;
      }
      ghost var steps: nat := 0;
      var again := true;
      while again
        invariant Valid() && steps <= |fields| && pos == Advance(|fields|, start, steps)
        invariant again ==> steps < |fields|
        invariant !again ==> steps == |fields| && pos == start
        invariant forall k | 0 <= k < steps :: fields[Advance(|fields|, start, k)].tag != tag
        invariant steps > 0 ==> Exact()
        invariant pos == start ==> steps == 0 || steps == |fields|
        invariant steps == 0 ==> pSize == old(pSize)
        decreases |fields| - steps, again
      {
        if fields[pos].tag == tag {
          FindFieldUnique(fields, pos);
          return true;
        }
        var _ := Next();
        steps := steps + 1;
        FullCycle(|fields|, start, steps);
        again := pos != start;
      }
      NoSuchTag(fields, start, tag);
      return false;
    }
  }

  lemma {:induction false} NoSuchTag(fields: seq<Field>, start: nat, tag: nat)
    requires start < |fields|
    requires forall k | 0 <= k < |fields| :: fields[Advance(|fields|, start, k)].tag != tag
    ensures FindField(fields, tag) == |fields|
  {
    var i := FindField(fields, tag);
    if i < |fields| {
      var k := AllVisited(|fields|, start, i);
      assert false;
    }
  }
}
