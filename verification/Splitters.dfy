/** The two independently written range splitters compared step by step. */
module Splitters {
  import opened Bits
  import opened Words
  import opened Prefixes
  import opened Splitting
  import opened Wrappers
  import N = NormalizeWords
  import P = RangeCidr

  /** At every cursor both splitters pick the same block. */
  lemma {:induction false} SameBlock(s: U128, e: U128, w: nat)
    requires Val(s) <= Val(e) < Pow2(w) && w <= 128
    ensures N.PickBlock(s, e, w) == P.PickBlock(s, e, w)
  {
    N.PickBlockSpec(s, e, w);
    P.PickBlockSpec(s, e, w);
    LargestBlockUnique(Val(s), Val(e), w, N.PickBlock(s, e, w), P.PickBlock(s, e, w));
  }

  lemma {:induction false} SameMove(s: U128, e: U128, w: nat, k: nat)
    requires Val(s) <= Val(e) < Pow2(w) && w <= 128 && k == N.PickBlock(s, e, w) && k < 128
    ensures N.NextCursor(s, e, w) == P.NextCursor(s, e, k)
  {
    N.NextCursorSpec(s, e, w);
    P.NextCursorSpec(s, e, k);
    if N.NextCursor(s, e, w).Some? {
      ValOrder(N.NextCursor(s, e, w).value, P.NextCursor(s, e, k).value);
    }
  }

  /**
   And both move to the same next cursor, or both stop, except on the full
   128-bit range: there one cursor stays put for ever while the other stops.
   */
  lemma {:induction false} SplittersAgree(s: U128, e: U128, w: nat, k: nat)
    requires Val(s) <= Val(e) < Pow2(w) && w <= 128 && k == P.PickBlock(s, e, w)
    ensures N.PickBlock(s, e, w) == k
    ensures N.NextCursor(s, e, w) == P.NextCursor(s, e, k) <==> !N.IsFull(s, e)
    ensures N.IsFull(s, e) ==> N.NextCursor(s, e, w) == Some(s) && P.NextCursor(s, e, k).None?
  {
    SameBlock(s, e, w);
    N.FullBlock(s, e, w);
    if k < 128 {
      SameMove(s, e, w, k);
    } else {
      P.NextCursorSpec(s, e, k);
      SpaceIsPow2();
    }
  }

  /** The full range is one block: the single prefix of length zero. */
  lemma FullRangeIsOneBlock(f: Family, e: nat)
    requires e + 1 == Pow2(Width(f))
    ensures Split(f, 0, e) == [RawPrefix(f, 0, 0)]
  {
    ZeroAligned(Width(f));
    assert Fits(0, e, Width(f), Width(f));
    var p := SplitStep(f, 0, e, Width(f));
  }
}
