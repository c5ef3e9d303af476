/** The bitwise and/or/xor aggregations and the boolean minimum and maximum of aggregate.rs. */
module BitKernels {
  import opened Outcomes
  import opened Bits
  import opened PrimitiveArrays

  function LeftFold<T>(op: (T, T) -> T, init: T, s: seq<T>): T {
    if s == [] then init else op(LeftFold(op, init, s[..|s| - 1]), s[|s| - 1])
  }

  lemma FoldStep<T>(op: (T, T) -> T, init: T, a: PrimitiveArray<T>, i: nat)
    requires a.Valid() && i < a.Len()
    ensures LeftFold(op, init, a.Kept(i + 1))
         == if a.IsValid(i) then op(LeftFold(op, init, a.Kept(i)), a.values[i]) else LeftFold(op, init, a.Kept(i))
  {
    if a.IsValid(i) {
      assert (a.Kept(i) + [a.values[i]])[..|a.Kept(i)|] == a.Kept(i);
    }
  }

  // A value under the word counts exactly if the shifted mask hits.
  lemma FoldUnderMask<T>(op: (T, T) -> T, init: T, a: PrimitiveArray<T>, c: nat, i: nat)
    requires a.Valid() && a.nulls.Some? && i < WORD && WORD * c + i < a.Len()
    ensures var before := LeftFold(op, init, a.Kept(WORD * c + i));
      LeftFold(op, init, a.Kept(WORD * c + (i + 1)))
      == if Hits(a.nulls.value.Word(c), MaskAt(i)) then op(before, a.values[WORD * c + i]) else before
  {
    MaskTestsBit(a.nulls.value.Word(c), i);
    a.nulls.value.GetInWord(c, i);
    FoldStep(op, init, a, WORD * c + i);
  }

  // The values under one validity word, walked with a mask that shifts left once per value.
  method FoldWord<T>(op: (T, T) -> T, init: T, a: PrimitiveArray<T>, c: nat, n: nat, start: T) returns (result: T)
    requires a.Valid() && a.nulls.Some? && n <= WORD && WORD * c + n <= a.Len()
    requires start == LeftFold(op, init, a.Kept(WORD * c))
    ensures result == LeftFold(op, init, a.Kept(WORD * c + n))
  {
    result := start;
    var mask := a.nulls.value.Word(c);
    var indexMask := 1;
    for i := 0 to n
      invariant indexMask == MaskAt(i)
      invariant result == LeftFold(op, init, a.Kept(WORD * c + i))
    {
      FoldUnderMask(op, init, a, c, i);
      if Hits(mask, indexMask) {
        result := op(result, a.values[WORD * c + i]);
      }
      indexMask := Twice(indexMask);
    }
  }

  method FoldBlocks<T>(op: (T, T) -> T, init: T, a: PrimitiveArray<T>) returns (result: T)
    requires a.Valid() && a.nulls.Some?
    ensures result == LeftFold(op, init, a.Present())
  {
    result := init;
    var full := |a.nulls.value.chunks|;
    for c := 0 to full
      invariant result == LeftFold(op, init, a.Kept(WORD * c))
    {
      result := FoldWord(op, init, a, c, WORD, result);
    }
    result := FoldWord(op, init, a, full, a.Len() - WORD * full, result);
  }

  // `bit_operation!`: the blocked kernel for any operator and starting value.
  method BitOperation<T>(op: (T, T) -> T, init: T, a: PrimitiveArray<T>) returns (r: Option<T>)
    requires a.Valid()
    ensures r == if a.Present() == [] then None else Some(LeftFold(op, init, a.Present()))
  {
    a.KeptAndNulls(a.Len());
    if a.NullCount() == a.Len() {
      return None;
    }
    var result := init;
    if a.nulls.Some? {
      result := FoldBlocks(op, init, a);
      return Some(result);
    }
    for i := 0 to a.Len()
      invariant result == LeftFold(op, init, a.Kept(i))
    {
      FoldStep(op, init, a, i);
      result := op(result, a.values[i]);
    }
    return Some(result);
  }

  // ---- what the three operators compute, for values of any width ----

  /** An integer of any width as its bit pattern in 64-bit words, least significant word first.
      Fewer than 64 bits are padded with zeros, which the operators leave alone; the
      and-aggregation starts from as many ones as the width has. */
  type Wide = seq<bv64>

  predicate WideBit(v: Wide, i: nat) { i / WORD < |v| && Bit(v[i / WORD], i % WORD) }

  // The operator on every pair of words.
  function Wordwise(op: (bv64, bv64) -> bv64): (Wide, Wide) -> Wide {
    (a: Wide, b: Wide) =>
      seq(if |a| <= |b| then |a| else |b|, j requires 0 <= j < |a| && j < |b| => op(a[j], b[j]))
  }

  predicate SameWidth(s: seq<Wide>, words: nat) { forall k :: 0 <= k < |s| ==> |s[k]| == words }

  // A word of the aggregate is the aggregate of that word of every value.
  function Column(s: seq<Wide>, j: nat): seq<bv64>
    requires forall k :: 0 <= k < |s| ==> j < |s[k]|
  {
    seq(|s|, k requires 0 <= k < |s| => s[k][j])
  }

  lemma {:induction false} FoldOfWords(op: (bv64, bv64) -> bv64, start: Wide, s: seq<Wide>, j: nat)
    requires SameWidth(s, |start|) && j < |start|
    ensures var r := LeftFold(Wordwise(op), start, s);
      |r| == |start| && r[j] == LeftFold(op, start[j], Column(s, j))
  {
    if s != [] {
      var n := |s| - 1;
      FoldOfWords(op, start, s[..n], j);
      assert Column(s, j)[..n] == Column(s[..n], j);
    }
  }

  lemma {:induction false} AndOfWords(ones: bv64, s: seq<bv64>, i: nat)
    ensures Bit(LeftFold(And, ones, s), i) <==> Bit(ones, i) && forall k :: 0 <= k < |s| ==> Bit(s[k], i)
  {
    if s != [] {
      AndOfWords(ones, s[..|s| - 1], i);
      BitOfAnd(LeftFold(And, ones, s[..|s| - 1]), s[|s| - 1], i);
    }
  }

  lemma {:induction false} OrOfWords(s: seq<bv64>, i: nat)
    ensures Bit(LeftFold(Or, 0, s), i) <==> exists k :: 0 <= k < |s| && Bit(s[k], i)
  {
    if s == [] {
      ZeroHasNoBit(0, i);
    } else {
      var n := |s| - 1;
      OrOfWords(s[..n], i);
      BitOfOr(LeftFold(Or, 0, s[..n]), s[n], i);
    }
  }

  function SetCount(s: seq<bv64>, i: nat): nat {
    if s == [] then 0 else SetCount(s[..|s| - 1], i) + if Bit(s[|s| - 1], i) then 1 else 0
  }

  lemma {:induction false} XorOfWords(s: seq<bv64>, i: nat)
    ensures Bit(LeftFold(Xor, 0, s), i) <==> SetCount(s, i) % 2 == 1
  {
    if s == [] {
      ZeroHasNoBit(0, i);
    } else {
      var n := |s| - 1;
      XorOfWords(s[..n], i);
      BitOfXor(LeftFold(Xor, 0, s[..n]), s[n], i);
    }
  }

  // Bit i of the conjunction is set exactly when the width has it and every value has it set.
  lemma {:induction false} AndOfAll(ones: Wide, s: seq<Wide>, i: nat)
    requires SameWidth(s, |ones|)
    ensures WideBit(LeftFold(Wordwise(And), ones, s), i) <==>
            WideBit(ones, i) && forall k :: 0 <= k < |s| ==> WideBit(s[k], i)
  {
    if i / WORD < |ones| {
      FoldOfWords(And, ones, s, i / WORD);
      AndOfWords(ones[i / WORD], Column(s, i / WORD), i % WORD);
      assert forall k :: 0 <= k < |s| ==> (WideBit(s[k], i) <==> Bit(Column(s, i / WORD)[k], i % WORD));
    } else {
      FoldKeepsWidth(And, ones, s);
    }
  }

  lemma {:induction false} FoldKeepsWidth(op: (bv64, bv64) -> bv64, start: Wide, s: seq<Wide>)
    requires SameWidth(s, |start|)
    ensures |LeftFold(Wordwise(op), start, s)| == |start|
  {
    if s != [] {
      FoldKeepsWidth(op, start, s[..|s| - 1]);
    }
  }

  function Zero(words: nat): Wide { seq(words, _ => 0) }

  // Bit i of the disjunction is set exactly when it is set in some value.
  lemma {:induction false} OrOfAll(words: nat, s: seq<Wide>, i: nat)
    requires SameWidth(s, words)
    ensures WideBit(LeftFold(Wordwise(Or), Zero(words), s), i) <==> exists k :: 0 <= k < |s| && WideBit(s[k], i)
  {
    if i / WORD < words {
      FoldOfWords(Or, Zero(words), s, i / WORD);
      OrOfWords(Column(s, i / WORD), i % WORD);
      assert forall k :: 0 <= k < |s| ==> (WideBit(s[k], i) <==> Bit(Column(s, i / WORD)[k], i % WORD));
    } else {
      FoldKeepsWidth(Or, Zero(words), s);
    }
  }

  function WideCount(s: seq<Wide>, i: nat): nat {
    if s == [] then 0 else WideCount(s[..|s| - 1], i) + if WideBit(s[|s| - 1], i) then 1 else 0
  }

  lemma {:induction false} CountsAgree(s: seq<Wide>, i: nat)
    requires forall k :: 0 <= k < |s| ==> i / WORD < |s[k]|
    ensures WideCount(s, i) == SetCount(Column(s, i / WORD), i % WORD)
  {
    if s != [] {
      var n := |s| - 1;
      CountsAgree(s[..n], i);
      assert Column(s, i / WORD)[..n] == Column(s[..n], i / WORD);
    }
  }

  lemma {:induction false} NoSuchBit(s: seq<Wide>, words: nat, i: nat)
    requires SameWidth(s, words) && i / WORD >= words
    ensures WideCount(s, i) == 0
  {
    if s != [] {
      NoSuchBit(s[..|s| - 1], words, i);
    }
  }

  // Bit i of the exclusive or is the parity of the values that have it set.
  lemma {:induction false} XorIsParity(words: nat, s: seq<Wide>, i: nat)
    requires SameWidth(s, words)
    ensures WideBit(LeftFold(Wordwise(Xor), Zero(words), s), i) <==> WideCount(s, i) % 2 == 1
  {
    if i / WORD < words {
      FoldOfWords(Xor, Zero(words), s, i / WORD);
      XorOfWords(Column(s, i / WORD), i % WORD);
      CountsAgree(s, i);
    } else {
      FoldKeepsWidth(Xor, Zero(words), s);
      NoSuchBit(s, words, i);
    }
  }

  // ---- boolean arrays ----

  /** A boolean array: its values are packed like a validity mask. */
  datatype BooleanArray = BooleanArray(bits: BitBuffer, nulls: Option<BitBuffer>) {
    ghost predicate Valid() {
      && bits.Valid()
      && (nulls.Some? ==> nulls.value.Valid() && nulls.value.len == bits.len)
    }

    // The same array with one boolean per element.
    function Unpacked(): (p: PrimitiveArray<bool>)
      requires Valid()
      ensures p.Valid() && p.Len() == bits.len
    {
      PrimitiveArray(seq(bits.len, i requires 0 <= i < bits.len => bits.Get(i)), nulls)
    }

    // The word that has a bit set for every element that is valid and true.
    function TrueWord(c: nat): bv64 {
      match nulls
      case None => bits.Word(c)
      case Some(mask) => And(bits.Word(c), mask.Word(c))
    }

    lemma TrueWordBit(c: nat, i: nat)
      requires Valid() && c <= |bits.chunks| && i < WORD
      ensures Bit(TrueWord(c), i)
         <==> WORD * c + i < bits.len && Unpacked().IsValid(WORD * c + i) && bits.Get(WORD * c + i)
    {
      bits.GetInWord(c, i);
      if nulls.Some? {
        nulls.value.GetInWord(c, i);
        BitOfAnd(bits.Word(c), nulls.value.Word(c), i);
      }
    }
  }

  lemma {:induction false} KeptHas(a: PrimitiveArray<bool>, n: nat, b: bool)
    requires a.Valid() && n <= a.Len()
    ensures b in a.Kept(n) <==> exists i :: 0 <= i < n && a.IsValid(i) && a.values[i] == b
  {
    if n != 0 {
      KeptHas(a, n - 1, b);
    }
  }

  function MaxBooleanSpec(a: BooleanArray): Option<bool>
    requires a.Valid()
  {
    var s := a.Unpacked().Present();
    if s == [] then None else Some(true in s)
  }

  function MinBooleanSpec(a: BooleanArray): Option<bool>
    requires a.Valid()
  {
    var s := a.Unpacked().Present();
    if s == [] then None else Some(false !in s)
  }

  // `max_boolean`: scans whole 64-bit words, padding included, and stops at the first hit.
  method MaxBoolean(a: BooleanArray) returns (r: Option<bool>)
    requires a.Valid()
    ensures r == MaxBooleanSpec(a)
  {
    var p := a.Unpacked();
    p.KeptAndNulls(p.Len());
    KeptHas(p, p.Len(), true);
    if p.NullCount() == p.Len() {
      return None;
    }
    for c := 0 to |a.bits.chunks| + 1
      invariant forall i :: 0 <= i < WORD * c && i < p.Len() ==> !(p.IsValid(i) && p.values[i])
    {
      if a.TrueWord(c) != 0 {
        NonzeroHasBit(a.TrueWord(c));
        var i :| 0 <= i < WORD && Bit(a.TrueWord(c), i);
        a.TrueWordBit(c, i);
        assert p.values[WORD * c + i];
        return Some(true);
      }
      forall i | WORD * c <= i < WORD * (c + 1) && i < p.Len()
        ensures !(p.IsValid(i) && p.values[i])
      {
        if Bit(a.TrueWord(c), i - WORD * c) {
          SetBitMeansNonzero(a.TrueWord(c), i - WORD * c);
        }
        a.TrueWordBit(c, i - WORD * c);
      }
    }
    return Some(false);
  }

  // `min_boolean`: looks for the first valid false, element by element.
  method MinBoolean(a: BooleanArray) returns (r: Option<bool>)
    requires a.Valid()
    ensures r == MinBooleanSpec(a)
  {
    var p := a.Unpacked();
    p.KeptAndNulls(p.Len());
    KeptHas(p, p.Len(), false);
    if p.NullCount() == p.Len() {
      return None;
    }
    for i := 0 to p.Len()
      invariant forall k :: 0 <= k < i ==> !(p.IsValid(k) && p.values[k] == false)
    {
      if p.IsValid(i) && !p.values[i] {
        return Some(false);
      }
    }
    return Some(true);
  }

  // `bool_or` is `max_boolean`.
  method BoolOr(a: BooleanArray) returns (r: Option<bool>)
    requires a.Valid()
    ensures r == MaxBooleanSpec(a)
  {
    r := MaxBoolean(a);
  }

  function FalseCount(s: seq<bool>): nat {
    if s == [] then 0 else FalseCount(s[..|s| - 1]) + if s[|s| - 1] then 0 else 1
  }

  lemma {:induction false} NoFalseCounted(s: seq<bool>)
    ensures FalseCount(s) == 0 <==> false !in s
  {
    if s != [] {
      NoFalseCounted(s[..|s| - 1]);
      assert s == s[..|s| - 1] + [s[|s| - 1]];
    }
  }

  // `bool_and` counts the valid falses; it agrees with `min_boolean`.
  method BoolAnd(a: BooleanArray) returns (r: Option<bool>)
    requires a.Valid()
    ensures r == MinBooleanSpec(a)
  {
    var p := a.Unpacked();
    p.KeptAndNulls(p.Len());
    if p.NullCount() == p.Len() {
      return None;
    }
    NoFalseCounted(p.Present());
    return Some(FalseCount(p.Present()) == 0);
  }

  // The two scans are dual: flipping every value turns one into the negation of the other.
  lemma MinMaxDual(a: BooleanArray, flipped: BooleanArray)
    requires a.Valid() && flipped.Valid() && flipped.bits.len == a.bits.len && flipped.nulls == a.nulls
    requires forall i :: 0 <= i < a.bits.len ==> (flipped.bits.Get(i) <==> !a.bits.Get(i))
    ensures MinBooleanSpec(a) == match MaxBooleanSpec(flipped) case None => None case Some(b) => Some(!b)
  {
    var p, q := a.Unpacked(), flipped.Unpacked();
    KeptHas(p, p.Len(), false);
    KeptHas(q, q.Len(), true);
    p.KeptAndNulls(p.Len());
    q.KeptAndNulls(q.Len());
    SameNulls(p, q, p.Len());
    assert forall i :: 0 <= i < p.Len() ==> (q.values[i] <==> !p.values[i]);
    assert forall i :: 0 <= i < p.Len() ==> (q.IsValid(i) <==> p.IsValid(i));
  }

  lemma {:induction false} SameNulls(p: PrimitiveArray<bool>, q: PrimitiveArray<bool>, n: nat)
    requires p.Valid() && q.Valid() && p.Len() == q.Len() && p.nulls == q.nulls && n <= p.Len()
    ensures p.NullsBefore(n) == q.NullsBefore(n)
  {
    if n != 0 {
      SameNulls(p, q, n - 1);
    }
  }
}
