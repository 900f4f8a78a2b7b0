/**
 The bitmap in which pb_decode_noinit records the required fields it has seen: two 32-bit
 words, compared with all-ones masks at the end.
 */
module RequiredBitmap {
  import opened Bits
  import opened Descriptor
  import opened Varint
  import opened WireDecode

  /** Bit k of w. */
  predicate Bit(w: nat, k: nat) {
    if k == 0 then w % 2 == 1 else Bit(w / 2, k - 1)
  }

  lemma {:induction false} ZeroBits(k: nat)
    ensures !Bit(0, k)
  {
    if k > 0 {
      ZeroBits(k - 1);
    }
  }

  lemma {:induction false} SetBit(w: nat, k: nat, j: nat)
    ensures Bit(BitOr(w, Shl(1, k)), j) <==> Bit(w, j) || j == k
  {
    var b := Shl(1, k);
    if w == 0 {
      ZeroBits(j);
      PowerBits(k, j);
    } else if k == 0 {
      assert BitOr(w / 2, 0) == w / 2;
      assert BitOr(w, 1) == 1 + 2 * (w / 2);
    } else {
      assert b % 2 == 0 && b / 2 == Shl(1, k - 1);
      if j > 0 {
        SetBit(w / 2, k - 1, j - 1);
      }
    }
  }

  lemma {:induction false} PowerBits(k: nat, j: nat)
    ensures Bit(Pow2(k), j) <==> j == k
  {
    if j > 0 {
      if k > 0 {
        PowerBits(k - 1, j - 1);
      } else {
        ZeroBits(j - 1);
      }
    }
  }

  lemma {:induction false} MaskBits(r: nat, j: nat)
    ensures Bit(Pow2(r) - 1, j) <==> j < r
  {
    if r == 0 {
      ZeroBits(j);
    } else if j > 0 {
      assert (Pow2(r) - 1) / 2 == Pow2(r - 1) - 1;
      MaskBits(r - 1, j - 1);
    }
  }

  lemma {:induction false} HighBits(w: nat, n: nat, j: nat)
    requires w < Pow2(n) && n <= j
    ensures !Bit(w, j)
  {
    if j == 0 {
    } else if n == 0 {
      ZeroBits(j);
    } else {
      HighBits(w / 2, n - 1, j - 1);
    }
  }

  lemma {:induction false} SameBits(a: nat, b: nat)
    requires forall j: nat :: Bit(a, j) <==> Bit(b, j)
    ensures a == b
    decreases a + b
  {
    if a + b > 0 {
      assert Bit(a, 0) <==> Bit(b, 0);
      forall j: nat ensures Bit(a / 2, j) <==> Bit(b / 2, j) {
        assert Bit(a, j + 1) <==> Bit(b, j + 1);
      }
      SameBits(a / 2, b / 2);
    }
  }

  /** The bits of a 32-bit word are the lowest r ones. */
  predicate LowestSet(w: nat, r: nat) {
    forall j | 0 <= j < 32 :: Bit(w, j) <==> j < r
  }

  /** A word equals the mask of r ones exactly when these are its bits. */
  lemma {:induction false} MaskTest(w: nat, r: nat)
    requires w < Pow2(32) && r <= 32
    ensures w == Pow2(r) - 1 <==> LowestSet(w, r)
  {
    var mask := Pow2(r) - 1;
    forall j: nat ensures Bit(mask, j) <==> j < r {
      MaskBits(r, j);
    }
    if LowestSet(w, r) {
      forall j: nat ensures Bit(w, j) <==> Bit(mask, j) {
        if j >= 32 {
          HighBits(w, 32, j);
        } else {
          assert Bit(w, j) <==> j < r;
        }
      }
      SameBits(w, mask);
    }
  }

  // ----- numbering the required fields

  function RequiredCount(fields: seq<Field>): nat {
    RequiredBefore(fields, |fields|)
  }

  lemma {:induction false} RequiredMonotone(fields: seq<Field>, i: nat, j: nat)
    requires i <= j <= |fields|
    ensures RequiredBefore(fields, i) <= RequiredBefore(fields, j)
    ensures i < j && fields[i].htype.Required? ==> RequiredBefore(fields, i) < RequiredBefore(fields, j)
    decreases j - i
  {
    if i < j {
      RequiredMonotone(fields, i + 1, j);
    }
  }

  /** The r-th required field among the first n fields. */
  lemma {:induction false} NthRequired(fields: seq<Field>, n: nat, r: nat) returns (i: nat)
    requires n <= |fields| && r < RequiredBefore(fields, n)
    ensures i < n && fields[i].htype.Required? && RequiredBefore(fields, i) == r
  {
    if RequiredBefore(fields, n - 1) == r {
      i := n - 1;
    } else {
      i := NthRequired(fields, n - 1, r);
    }
  }

  /** The required field with number r has been seen. */
  predicate Noted(fields: seq<Field>, seen: set<nat>, r: nat) {
    exists i :: i in seen && i < |fields| && fields[i].htype.Required? && RequiredBefore(fields, i) == r
  }

  /** The bitmap records the required fields in `seen`, as far as it reaches. */
  predicate Represents(fields: seq<Field>, seen: set<nat>, words: seq<nat>) {
    && |words| == 2 && words[0] < TWO32 && words[1] < TWO32
    && (forall j | 0 <= j < 32 :: Bit(words[0], j) <==> NotedAt(fields, seen, 0, j))
    && (forall j | 0 <= j < 32 :: Bit(words[1], j) <==> NotedAt(fields, seen, 32, j))
  }

  predicate NotedAt(fields: seq<Field>, seen: set<nat>, base: nat, j: nat) {
    Noted(fields, seen, base + j)
  }

  lemma {:induction false} NothingNoted(fields: seq<Field>)
    ensures Represents(fields, {}, [0, 0])
  {
    forall j: nat ensures !Bit(0, j) {
      ZeroBits(j);
    }
  }

  lemma {:induction false} NotedMore(fields: seq<Field>, seen: set<nat>, i: nat, r: nat)
    requires i < |fields| && fields[i].htype.Required?
    ensures Noted(fields, seen + {i}, r) <==> Noted(fields, seen, r) || r == RequiredBefore(fields, i)
  {
  }

  /** Setting the bit of field i notes it; a field beyond the bitmap's reach needs no bit. */
  lemma {:induction false} NoteField(fields: seq<Field>, seen: set<nat>, words: seq<nat>, i: nat)
    requires Represents(fields, seen, words) && i < |fields| && fields[i].htype.Required?
    ensures var r := RequiredBefore(fields, i);
            if r < PB_MAX_REQUIRED_FIELDS then
              Represents(fields, seen + {i}, words[r / 32 := BitOr(words[r / 32], Shl(1, r % 32))])
            else Represents(fields, seen + {i}, words)
  {
    hide Noted;
    var r := RequiredBefore(fields, i);
    forall q: nat ensures Noted(fields, seen + {i}, q) <==> Noted(fields, seen, q) || q == r {
      NotedMore(fields, seen, i, q);
    }
    if r < PB_MAX_REQUIRED_FIELDS {
      var w := words[r / 32];
      ShlBound(r % 32);
      BitOrBound(w, Shl(1, r % 32), 32);
      Pow2Values();
      forall j: nat ensures Bit(BitOr(w, Shl(1, r % 32)), j) <==> Bit(w, j) || j == r % 32 {
        SetBit(w, r % 32, j);
      }
    }
  }

  lemma {:induction false} PowerMonotone(k: nat, n: nat)
    requires k < n
    ensures Pow2(k) < Pow2(n)
  {
    if k + 1 < n {
      PowerMonotone(k, n - 1);
    }
  }

  lemma {:induction false} ShlBound(k: nat)
    requires k < 32
    ensures Shl(1, k) < Pow2(32) == TWO32
  {
    Pow2Values();
    PowerMonotone(k, 32);
  }

  // ----- the check at the end

  /** The word comparisons at the end of pb_decode_noinit, for `count` required fields. */
  predicate WordsComplete(words: seq<nat>, count: nat)
    requires |words| == 2 && count <= PB_MAX_REQUIRED_FIELDS
  {
    && (forall k | 0 <= k < count / 32 :: words[k] == Pow2(32) - 1)
    && (count % 32 != 0 ==> words[count / 32] == Pow2(count % 32) - 1)
  }

  function TrackedCount(fields: seq<Field>): nat {
    if RequiredCount(fields) > PB_MAX_REQUIRED_FIELDS then PB_MAX_REQUIRED_FIELDS else RequiredCount(fields)
  }

  lemma {:induction false} NotedBelowCount(fields: seq<Field>, seen: set<nat>, r: nat)
    requires Noted(fields, seen, r)
    ensures r < RequiredCount(fields)
  {
    var i :| i in seen && i < |fields| && fields[i].htype.Required? && RequiredBefore(fields, i) == r;
    RequiredMonotone(fields, i, |fields|);
  }

  lemma {:induction false} AllNoted(fields: seq<Field>, seen: set<nat>)
    ensures RequiredSeen(fields, seen) <==> forall r | 0 <= r < TrackedCount(fields) :: Noted(fields, seen, r)
  {
    if RequiredSeen(fields, seen) {
      forall r | 0 <= r < TrackedCount(fields) ensures Noted(fields, seen, r) {
        var i := NthRequired(fields, |fields|, r);
        assert i in seen;
      }
    }
    if forall r | 0 <= r < TrackedCount(fields) :: Noted(fields, seen, r) {
      forall i | 0 <= i < |fields| && fields[i].htype.Required? && RequiredBefore(fields, i) < PB_MAX_REQUIRED_FIELDS
        ensures i in seen
      {
        var r := RequiredBefore(fields, i);
        RequiredMonotone(fields, i, |fields|);
        assert Noted(fields, seen, r);
        var k :| k in seen && k < |fields| && fields[k].htype.Required? && RequiredBefore(fields, k) == r;
        if k < i {
          RequiredMonotone(fields, k, i);
        } else if i < k {
          RequiredMonotone(fields, i, k);
        }
      }
    }
  }

  predicate NotedRange(fields: seq<Field>, seen: set<nat>, base: nat, n: nat) {
    forall j | 0 <= j < n :: NotedAt(fields, seen, base, j)
  }

  /** One word: all of its first n bits are set, and no others can be. */
  lemma {:induction false} WordTest(fields: seq<Field>, seen: set<nat>, w: nat, base: nat, n: nat)
    requires w < TWO32 && n <= 32 && forall j | 0 <= j < 32 :: Bit(w, j) <==> NotedAt(fields, seen, base, j)
    requires n < 32 ==> base + n == RequiredCount(fields)
    ensures w == Pow2(n) - 1 <==> NotedRange(fields, seen, base, n)
  {
    hide Noted, RequiredCount, Bit;
    Pow2Values();
    MaskTest(w, n);
    forall j | n <= j < 32 ensures !Bit(w, j) {
      if NotedAt(fields, seen, base, j) {
        NotedBelowCount(fields, seen, base + j);
      }
    }
  }

  /**
   The bitmap test is exact: it passes exactly when each of the first 64 required fields, or
   all of them if there are fewer, has been seen.
   */
  lemma {:induction false} BitmapExact(fields: seq<Field>, seen: set<nat>, words: seq<nat>)
    requires Represents(fields, seen, words)
    ensures WordsComplete(words, TrackedCount(fields)) <==> RequiredSeen(fields, seen)
  {
    hide Noted, RequiredCount, Bit, RequiredSeen;
    AllNoted(fields, seen);
    var count := TrackedCount(fields);
    SplitRange(fields, seen, count);
    if count < 32 {
      WordTest(fields, seen, words[0], 0, count);
    } else {
      WordTest(fields, seen, words[0], 0, 32);
      WordTest(fields, seen, words[1], 32, count - 32);
    }
  }

  lemma {:induction false} SplitRange(fields: seq<Field>, seen: set<nat>, count: nat)
    ensures (forall r | 0 <= r < count :: Noted(fields, seen, r)) <==>
            NotedRange(fields, seen, 0, if count < 32 then count else 32) &&
            (count >= 32 ==> NotedRange(fields, seen, 32, count - 32))
  {
    hide Noted;
    if NotedRange(fields, seen, 0, if count < 32 then count else 32) &&
        (count >= 32 ==> NotedRange(fields, seen, 32, count - 32)) {
      forall r | 0 <= r < count ensures Noted(fields, seen, r) {
        if r >= 32 {
          assert NotedAt(fields, seen, 32, r - 32);
        } else {
          assert NotedAt(fields, seen, 0, r);
        }
      }
    }
  }
}
