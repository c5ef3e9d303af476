/** 64-bit words read one bit at a time, and the packed bit buffers built from them.

    Arrow packs a validity mask (and the values of a boolean array) into 64-bit words, least
    significant bit first.  The kernels test a bit with a mask that is shifted left in a loop,
    or shift the whole word right by a number of lanes. */
module Bits {
  import opened Outcomes

  function Half(w: bv64): bv64 { w >> 1 }

  function Twice(w: bv64): bv64 { w << 1 }

  predicate Odd(w: bv64) { w & 1 == 1 }

  // The test the kernels write as `(word & mask) != 0`.
  predicate Hits(w: bv64, mask: bv64) { w & mask != 0 }

  const WORD: nat := 64

  // Bit i of w, counted from the least significant end.
  predicate Bit(w: bv64, i: nat) {
    if i == 0 then Odd(w) else Bit(Half(w), i - 1)
  }

  // The mask held by a variable that starts at 1 and has been shifted left i times.
  function MaskAt(i: nat): bv64 {
    if i == 0 then 1 else Twice(MaskAt(i - 1))
  }

  lemma MovedBit(w: bv64, m: bv64)
    ensures ((w >> 1) & m) << 1 == w & (m << 1)
  {
  }

  lemma NoBitLost(w: bv64, m: bv64)
    ensures (w >> 1) & m == 0 <==> ((w >> 1) & m) << 1 == 0
  {
  }

  lemma MaskMoves(w: bv64, m: bv64)
    ensures (w >> 1) & m != 0 <==> w & (m << 1) != 0
  {
    MovedBit(w, m);
    NoBitLost(w, m);
  }

  lemma ShiftAcrossMask(w: bv64, m: bv64)
    ensures Hits(Half(w), m) <==> Hits(w, Twice(m))
  {
    MaskMoves(w, m);
  }

  lemma LowBit(w: bv64)
    ensures Hits(w, 1) <==> Odd(w)
  {
  }

  // The loop's mask test reads exactly bit i.
  lemma {:induction false} MaskTestsBit(w: bv64, i: nat)
    ensures Hits(w, MaskAt(i)) <==> Bit(w, i)
  {
    if i == 0 {
      LowBit(w);
    } else {
      ShiftAcrossMask(w, MaskAt(i - 1));
      MaskTestsBit(Half(w), i - 1);
    }
  }

  // The word after `lanes` single shifts to the right.
  function ShiftRight(w: bv64, lanes: nat): bv64 {
    if lanes == 0 then w else ShiftRight(Half(w), lanes - 1)
  }

  lemma {:induction false} BitOfShifted(w: bv64, lanes: nat, i: nat)
    ensures Bit(ShiftRight(w, lanes), i) == Bit(w, i + lanes)
  {
    if lanes != 0 {
      BitOfShifted(Half(w), lanes - 1, i);
    }
  }

  lemma {:induction false} ShiftRightAdds(w: bv64, a: nat, b: nat)
    ensures ShiftRight(ShiftRight(w, a), b) == ShiftRight(w, a + b)
  {
    if a != 0 {
      ShiftRightAdds(Half(w), a - 1, b);
    }
  }

  lemma ShiftFour(w: bv64)
    ensures ShiftRight(w, 2) == w >> 2 && ShiftRight(w, 4) == w >> 4
  {
    calc {
      ShiftRight(w, 4);
      ShiftRight(Half(w), 3);
      ShiftRight(Half(Half(w)), 2);
      ShiftRight(Half(Half(Half(w))), 1);
      Half(Half(Half(Half(w))));
      w >> 4;
    }
    calc {
      ShiftRight(w, 2);
      ShiftRight(Half(w), 1);
      Half(Half(w));
      w >> 2;
    }
  }

  lemma ShiftEight(w: bv64)
    ensures ShiftRight(w, 8) == w >> 8
  {
    ShiftRightAdds(w, 4, 4);
    ShiftFour(w);
    ShiftFour(w >> 4);
  }

  lemma ShiftSixteen(w: bv64)
    ensures ShiftRight(w, 16) == w >> 16
  {
    ShiftRightAdds(w, 8, 8);
    ShiftEight(w);
    ShiftEight(w >> 8);
  }

  lemma ShiftThirtyTwo(w: bv64)
    ensures ShiftRight(w, 32) == w >> 32
  {
    ShiftRightAdds(w, 16, 16);
    ShiftSixteen(w);
    ShiftSixteen(w >> 16);
  }

  predicate LaneCount(lanes: int) {
    lanes == 1 || lanes == 2 || lanes == 4 || lanes == 8 || lanes == 16 || lanes == 32 || lanes == 64
  }

  // `word >>= LANES`, where LANES is a constant of each instantiation.  A release build reduces the
  // shift amount modulo 64, so at 64 lanes the word is left as it is; no lane reads it again, since
  // at most 64 values share a word.
  function ShiftLanes(word: bv64, lanes: nat): bv64
    requires LaneCount(lanes)
  {
    if lanes == 1 then word >> 1
    else if lanes == 2 then word >> 2
    else if lanes == 4 then word >> 4
    else if lanes == 8 then word >> 8
    else if lanes == 16 then word >> 16
    else if lanes == 32 then word >> 32
    else word
  }

  lemma ShiftLanesIsShiftRight(w: bv64, lanes: nat)
    requires LaneCount(lanes) && lanes < WORD
    ensures ShiftLanes(w, lanes) == ShiftRight(w, lanes)
  {
    if lanes == 32 { ShiftThirtyTwo(w); }
    else if lanes == 16 { ShiftSixteen(w); }
    else if lanes == 8 { ShiftEight(w); }
    else if lanes == 4 || lanes == 2 { ShiftFour(w); }
    else { assert ShiftRight(w, 1) == ShiftRight(Half(w), 0); }
  }

  lemma ClearNibble(w: bv64)
    requires forall i :: 0 <= i < 4 ==> !Bit(w, i)
    ensures w & 0xF == 0
  {
    assert !Bit(w, 0) && !Bit(w, 1) && !Bit(w, 2) && !Bit(w, 3);
    assert Bit(w, 1) == Odd(Half(w));
    assert Bit(w, 2) == Bit(Half(w), 1) == Odd(Half(Half(w)));
    assert Bit(w, 3) == Bit(Half(w), 2) == Bit(Half(Half(w)), 1) == Odd(Half(Half(Half(w))));
  }

  // A word whose first 4 * n bits are clear is a multiple of 2^(4 * n): dropping them loses nothing.
  lemma {:induction false} ClearWord(w: bv64, n: nat)
    requires forall i :: 0 <= i < 4 * n ==> !Bit(w, i)
    ensures w != 0 ==> ShiftRight(w, 4 * n) != 0
    decreases n
  {
    if n != 0 {
      ClearNibble(w);
      ShiftFour(w);
      ShiftRightAdds(w, 4, 4 * (n - 1));
      forall i | 0 <= i < 4 * (n - 1)
        ensures !Bit(ShiftRight(w, 4), i)
      {
        BitOfShifted(w, 4, i);
      }
      ClearWord(ShiftRight(w, 4), n - 1);
    }
  }

  lemma SixtyFourShifts(w: bv64)
    ensures ShiftRight(w, 64) == 0
  {
    ShiftRightAdds(w, 32, 32);
    ShiftThirtyTwo(w);
    ShiftThirtyTwo(w >> 32);
    assert (w >> 32) >> 32 == 0;
  }

  lemma ClearMeansZero(w: bv64)
    requires forall i :: 0 <= i < 4 * 16 ==> !Bit(w, i)
    ensures w == 0
  {
    ClearWord(w, 16);
    SixtyFourShifts(w);
  }

  lemma {:induction false} ZeroHasNoBit(w: bv64, i: nat)
    requires w == 0
    ensures !Bit(w, i)
  {
    if i != 0 {
      ZeroHasNoBit(Half(w), i - 1);
    }
  }

  lemma SetBitMeansNonzero(w: bv64, i: nat)
    requires Bit(w, i)
    ensures w != 0
  {
    if w == 0 {
      ZeroHasNoBit(w, i);
    }
  }

  // The test of a whole word against zero finds a set bit among its 64.
  lemma NonzeroHasBit(w: bv64)
    requires w != 0
    ensures exists i :: 0 <= i < WORD && Bit(w, i)
  {
    if forall i :: 0 <= i < WORD ==> !Bit(w, i) {
      ClearMeansZero(w);
    }
  }

  function And(a: bv64, b: bv64): bv64 { a & b }

  function Or(a: bv64, b: bv64): bv64 { a | b }

  function Xor(a: bv64, b: bv64): bv64 { a ^ b }

  // At most one bit of m is set.
  predicate OneHot(m: bv64) { m & (m - 1) == 0 }

  lemma TwiceOneHot(m: bv64)
    requires OneHot(m)
    ensures OneHot(Twice(m))
  {
  }

  lemma {:induction false} MaskOneHot(i: nat)
    ensures OneHot(MaskAt(i))
  {
    if i != 0 {
      MaskOneHot(i - 1);
      TwiceOneHot(MaskAt(i - 1));
    }
  }

  lemma OneHotPart(a: bv64, m: bv64)
    requires OneHot(m)
    ensures a & m == 0 || a & m == m
  {
  }

  lemma AndDistributes(a: bv64, b: bv64, m: bv64)
    ensures (a & b) & m == (a & m) & (b & m)
  {
  }

  lemma AndHits(a: bv64, b: bv64, m: bv64)
    requires OneHot(m)
    ensures Hits(a & b, m) == (Hits(a, m) && Hits(b, m))
  {
    OneHotPart(a, m);
    OneHotPart(b, m);
    AndDistributes(a, b, m);
  }

  lemma BitOfAnd(a: bv64, b: bv64, i: nat)
    ensures Bit(And(a, b), i) == (Bit(a, i) && Bit(b, i))
  {
    MaskOneHot(i);
    AndHits(a, b, MaskAt(i));
    MaskTestsBit(a, i);
    MaskTestsBit(b, i);
    MaskTestsBit(And(a, b), i);
  }

  lemma OrDistributes(a: bv64, b: bv64, m: bv64)
    ensures (a | b) & m == (a & m) | (b & m)
  {
  }

  lemma OrOfZeros(x: bv64, y: bv64)
    ensures x | y == 0 <==> x == 0 && y == 0
  {
  }

  lemma OrHits(a: bv64, b: bv64, m: bv64)
    ensures Hits(a | b, m) == (Hits(a, m) || Hits(b, m))
  {
    OrDistributes(a, b, m);
    OrOfZeros(a & m, b & m);
  }

  lemma BitOfOr(a: bv64, b: bv64, i: nat)
    ensures Bit(Or(a, b), i) == (Bit(a, i) || Bit(b, i))
  {
    OrHits(a, b, MaskAt(i));
    MaskTestsBit(a, i);
    MaskTestsBit(b, i);
    MaskTestsBit(Or(a, b), i);
  }

  lemma XorHits(a: bv64, b: bv64, m: bv64)
    requires OneHot(m)
    ensures Hits(a ^ b, m) == (Hits(a, m) != Hits(b, m))
  {
  }

  lemma BitOfXor(a: bv64, b: bv64, i: nat)
    ensures Bit(Xor(a, b), i) == (Bit(a, i) != Bit(b, i))
  {
    MaskOneHot(i);
    XorHits(a, b, MaskAt(i));
    MaskTestsBit(a, i);
    MaskTestsBit(b, i);
    MaskTestsBit(Xor(a, b), i);
  }

  /** A bit buffer as its chunk iterator presents it: the full words, then the trailing
      len % 64 bits in one more word whose unused high bits are zero. */
  datatype BitBuffer = BitBuffer(len: nat, chunks: seq<bv64>, remainder: bv64) {
    ghost predicate Valid() {
      && |chunks| == len / WORD
      && forall i :: len % WORD <= i < WORD ==> !Bit(remainder, i)
    }

    // The word holding positions 64c to 64c + 63.
    function Word(c: nat): bv64 {
      if c < |chunks| then chunks[c] else remainder
    }

    predicate Get(i: nat) {
      Bit(Word(i / WORD), i % WORD)
    }

    lemma GetInWord(c: nat, i: nat)
      requires i < WORD
      ensures Get(WORD * c + i) == Bit(Word(c), i)
    {
      assert (WORD * c + i) / WORD == c && (WORD * c + i) % WORD == i;
    }
  }

  // Arrow combines two validity masks word by word; a missing mask means "all valid".
  function Union(a: Option<BitBuffer>, b: Option<BitBuffer>): (r: Option<BitBuffer>)
    requires a.Some? ==> a.value.Valid()
    requires b.Some? ==> b.value.Valid()
    requires a.Some? && b.Some? ==> a.value.len == b.value.len
  {
    match (a, b)
    case (Some(x), Some(y)) =>
      Some(BitBuffer(x.len, seq(|x.chunks|, i requires 0 <= i < |x.chunks| => And(x.chunks[i], y.chunks[i])),
                     And(x.remainder, y.remainder)))
    case (Some(_), None) => a
    case (None, _) => b
  }

  lemma UnionIsConjunction(a: BitBuffer, b: BitBuffer)
    requires a.Valid() && b.Valid() && a.len == b.len
    ensures var u := Union(Some(a), Some(b)).value;
      u.Valid() && u.len == a.len && forall i :: 0 <= i < a.len ==> (u.Get(i) <==> a.Get(i) && b.Get(i))
  {
    var u := Union(Some(a), Some(b)).value;
    forall i: nat ensures Bit(u.remainder, i) <==> Bit(a.remainder, i) && Bit(b.remainder, i) {
      BitOfAnd(a.remainder, b.remainder, i);
    }
    forall i | 0 <= i < a.len ensures u.Get(i) <==> a.Get(i) && b.Get(i) {
      if i / WORD < |a.chunks| {
        BitOfAnd(a.chunks[i / WORD], b.chunks[i / WORD], i % WORD);
      }
    }
  }
}
