/** The lane-parallel sum, minimum and maximum of arrow-arith's aggregate.rs. */
module LaneAggregate {
  import opened Outcomes
  import opened Bits
  import opened Numbers
  import opened PrimitiveArrays

  /** A native type given by the range of its values.  Integers stand for themselves; a float
      stands for its position in the totalOrder of IEEE 754-2008 section 5.10, which is the
      order the comparison kernels use. */
  datatype Native = Native(lo: int, hi: int, isFloat: bool) {
    predicate Valid() { lo <= 0 <= hi }

    predicate Has(x: int) { lo <= x <= hi }

    predicate HasAll(s: seq<int>) { forall i :: 0 <= i < |s| ==> Has(s[i]) }

    // Two's complement (or unsigned) wrap-around.
    function Wrap(x: int): (r: int)
      requires Valid()
      ensures Has(r)
    {
      lo + (x - lo) % (hi - lo + 1)
    }

    function AddWrapping(a: int, b: int): int
      requires Valid()
    {
      Wrap(a + b)
    }
  }

  datatype Kind = Sum | Min | Max

  function Select(m: bool, a: int, b: int): int { if m then a else b }

  function Default(ty: Native, kind: Kind): int {
    match kind
    case Sum => 0
    case Min => ty.hi
    case Max => ty.lo
  }

  function Accumulate(ty: Native, kind: Kind, acc: int, value: int): int
    requires ty.Valid()
  {
    match kind
    case Sum => ty.AddWrapping(acc, value)
    case Min => Select(value < acc, value, acc)
    case Max => Select(value > acc, value, acc)
  }

  function AccumulateNullable(ty: Native, kind: Kind, acc: int, value: int, valid: bool): int
    requires ty.Valid()
  {
    match kind
    case Sum => Select(valid, ty.AddWrapping(acc, value), acc)
    case Min => Select(valid && value < acc, value, acc)
    case Max => Select(value > acc && valid, value, acc)
  }

  function Merge(ty: Native, kind: Kind, acc: int, other: int): int
    requires ty.Valid()
  {
    match kind
    case Sum => ty.AddWrapping(acc, other)
    case Min => Accumulate(ty, kind, acc, other)
    case Max => Accumulate(ty, kind, acc, other)
  }

  // The plain left-to-right aggregation with one accumulator.
  function Fold(ty: Native, kind: Kind, s: seq<int>): int
    requires ty.Valid()
  {
    if s == [] then Default(ty, kind)
    else Accumulate(ty, kind, Fold(ty, kind, s[..|s| - 1]), s[|s| - 1])
  }

  // ---- the accumulators form a commutative monoid ----

  // Wrapping forgets exactly the multiples of the type's size.
  lemma WrapForgets(ty: Native, x: int, y: int)
    requires ty.Valid()
    ensures ty.Wrap(ty.Wrap(x) + y) == ty.Wrap(x + y)
  {
    var m, lo := ty.hi - ty.lo + 1, ty.lo;
    var q := (x - lo) / m;
    assert ty.Wrap(x) == x - m * q;
    var u, v := ty.Wrap(x) + y - lo, x + y - lo;
    EuclidUnique(m, u / m + q, u % m, v / m, v % m) by {
      assert u == m * (u / m) + u % m && v == m * (v / m) + v % m && v == u + m * q;
      assert m * (u / m + q) == m * (u / m) + m * q;
    }
  }

  lemma WrapKeeps(ty: Native, x: int)
    requires ty.Valid() && ty.Has(x)
    ensures ty.Wrap(x) == x
  {
    EuclidUnique(ty.hi - ty.lo + 1, (x - ty.lo) / (ty.hi - ty.lo + 1), (x - ty.lo) % (ty.hi - ty.lo + 1), 0, x - ty.lo);
  }

  lemma AccumulateLaws(ty: Native, kind: Kind, a: int, b: int, c: int)
    requires ty.Valid() && ty.Has(a) && ty.Has(b) && ty.Has(c)
    ensures ty.Has(Accumulate(ty, kind, a, b)) && ty.Has(Default(ty, kind))
    ensures Accumulate(ty, kind, a, b) == Accumulate(ty, kind, b, a) == Merge(ty, kind, a, b)
    ensures Accumulate(ty, kind, Accumulate(ty, kind, a, b), c) == Accumulate(ty, kind, a, Accumulate(ty, kind, b, c))
    ensures Accumulate(ty, kind, a, Default(ty, kind)) == a == Accumulate(ty, kind, Default(ty, kind), a)
  {
    if kind == Sum {
      WrapForgets(ty, a + b, c);
      WrapForgets(ty, b + c, a);
      WrapKeeps(ty, a);
    }
  }

  lemma {:induction false} FoldInRange(ty: Native, kind: Kind, s: seq<int>)
    requires ty.Valid() && ty.HasAll(s)
    ensures ty.Has(Fold(ty, kind, s))
  {
    if s != [] {
      FoldInRange(ty, kind, s[..|s| - 1]);
    }
  }

  lemma {:induction false} FoldConcat(ty: Native, kind: Kind, s: seq<int>, t: seq<int>)
    requires ty.Valid() && ty.HasAll(s) && ty.HasAll(t)
    ensures Fold(ty, kind, s + t) == Accumulate(ty, kind, Fold(ty, kind, s), Fold(ty, kind, t))
    decreases |t|
  {
    FoldInRange(ty, kind, s);
    if t == [] {
      assert s + t == s;
      AccumulateLaws(ty, kind, Fold(ty, kind, s), 0, 0);
    } else {
      var t', v := t[..|t| - 1], t[|t| - 1];
      assert (s + t)[..|s + t| - 1] == s + t';
      FoldConcat(ty, kind, s, t');
      FoldInRange(ty, kind, t');
      AccumulateLaws(ty, kind, Fold(ty, kind, s), Fold(ty, kind, t'), v);
    }
  }

  // Feeding a value into any one lane feeds it into the fold over all lanes.
  lemma {:induction false} FoldLane(ty: Native, kind: Kind, lanes: seq<int>, i: nat, v: int)
    requires ty.Valid() && ty.HasAll(lanes) && ty.Has(v) && i < |lanes|
    ensures ty.Has(Accumulate(ty, kind, lanes[i], v))
    ensures Fold(ty, kind, lanes[i := Accumulate(ty, kind, lanes[i], v)])
         == Accumulate(ty, kind, Fold(ty, kind, lanes), v)
  {
    var n := |lanes| - 1;
    var rest := lanes[..n];
    var fed := lanes[i := Accumulate(ty, kind, lanes[i], v)];
    AccumulateLaws(ty, kind, lanes[i], v, v);
    FoldInRange(ty, kind, rest);
    if i == n {
      assert fed[..n] == rest;
      AccumulateLaws(ty, kind, Fold(ty, kind, rest), lanes[i], v);
    } else {
      FoldLane(ty, kind, rest, i, v);
      assert fed[..n] == rest[i := Accumulate(ty, kind, rest[i], v)];
      AccumulateLaws(ty, kind, Fold(ty, kind, rest), v, lanes[n]);
      AccumulateLaws(ty, kind, Fold(ty, kind, rest), lanes[n], v);
      AccumulateLaws(ty, kind, lanes[n], v, v);
    }
  }

  lemma {:induction false} FoldFresh(ty: Native, kind: Kind, lanes: seq<int>)
    requires ty.Valid() && forall i :: 0 <= i < |lanes| ==> lanes[i] == Default(ty, kind)
    ensures Fold(ty, kind, lanes) == Default(ty, kind)
  {
    if lanes != [] {
      FoldFresh(ty, kind, lanes[..|lanes| - 1]);
      AccumulateLaws(ty, kind, Default(ty, kind), Default(ty, kind), 0);
    }
  }

  // ---- the lane-parallel form ----

  // The tree reduction merges the upper half of the lanes into the lower half until one is left.
  method ReduceAccumulators(ty: Native, kind: Kind, acc: array<int>) returns (r: int)
    requires ty.Valid() && LaneCount(acc.Length) && ty.HasAll(acc[..])
    modifies acc
    ensures r == Fold(ty, kind, old(acc[..]))
  {
    var len := acc.Length;
    assert acc[..len] == acc[..];
    while len >= 2
      invariant len <= acc.Length && LaneCount(len)
      invariant ty.HasAll(acc[..len])
      invariant Fold(ty, kind, acc[..len]) == Fold(ty, kind, old(acc[..]))
    {
      MergeHalves(ty, kind, acc, len / 2);
      len := len / 2;
    }
    SingleLane(ty, kind, acc[..1]);
    r := acc[0];
  }

  method MergeHalves(ty: Native, kind: Kind, acc: array<int>, mid: nat)
    requires ty.Valid() && 2 * mid <= acc.Length && ty.HasAll(acc[..2 * mid])
    modifies acc
    ensures ty.HasAll(acc[..mid])
    ensures Fold(ty, kind, acc[..mid]) == Fold(ty, kind, old(acc[..2 * mid]))
  {
    ghost var upper := acc[mid..2 * mid];
    assert acc[..2 * mid] == acc[..mid] + upper;
    FoldConcat(ty, kind, acc[..mid], upper);
    for i := 0 to mid
      invariant acc[mid..2 * mid] == upper
      invariant HalvesMakeUp(ty, kind, acc[..mid], upper[i..], Fold(ty, kind, old(acc[..2 * mid])))
    {
      MergeStep(ty, kind, acc[..mid], i, upper[i..]);
      assert acc[mid + i] == upper[i];
      assert upper[i..][1..] == upper[i + 1..];
      ghost var before := acc[..];
      acc[i] := Merge(ty, kind, acc[i], acc[mid + i]);
      assert acc[..] == before[i := Merge(ty, kind, before[i], upper[i])];
      assert acc[..mid] == before[..mid][i := Merge(ty, kind, before[i], upper[i])];
    }
    NothingToMerge(ty, kind, acc[..mid], upper[mid..]);
  }

  // The merged lanes and those still to be merged fold to the total.
  predicate HalvesMakeUp(ty: Native, kind: Kind, merged: seq<int>, rest: seq<int>, total: int)
    requires ty.Valid()
  {
    ty.HasAll(merged) && ty.HasAll(rest) && Accumulate(ty, kind, Fold(ty, kind, merged), Fold(ty, kind, rest)) == total
  }

  lemma NothingToMerge(ty: Native, kind: Kind, merged: seq<int>, rest: seq<int>)
    requires ty.Valid() && ty.HasAll(merged) && rest == []
    ensures Accumulate(ty, kind, Fold(ty, kind, merged), Fold(ty, kind, rest)) == Fold(ty, kind, merged)
  {
    FoldInRange(ty, kind, merged);
    AccumulateLaws(ty, kind, Fold(ty, kind, merged), 0, 0);
  }

  lemma SingleLane(ty: Native, kind: Kind, s: seq<int>)
    requires ty.Valid() && |s| == 1 && ty.HasAll(s)
    ensures Fold(ty, kind, s) == s[0]
  {
    AccumulateLaws(ty, kind, s[0], 0, 0);
  }

  lemma FoldHead(ty: Native, kind: Kind, t: seq<int>)
    requires ty.Valid() && ty.HasAll(t) && t != []
    ensures Fold(ty, kind, t) == Accumulate(ty, kind, t[0], Fold(ty, kind, t[1..]))
  {
    assert t == [t[0]] + t[1..];
    FoldConcat(ty, kind, [t[0]], t[1..]);
    AccumulateLaws(ty, kind, t[0], 0, 0);
  }

  lemma MergeStep(ty: Native, kind: Kind, h: seq<int>, i: nat, t: seq<int>)
    requires ty.Valid() && ty.HasAll(h) && ty.HasAll(t) && i < |h| && t != []
    ensures HalvesMakeUp(ty, kind, h[i := Merge(ty, kind, h[i], t[0])], t[1..],
                         Accumulate(ty, kind, Fold(ty, kind, h), Fold(ty, kind, t)))
  {
    AccumulateLaws(ty, kind, h[i], t[0], 0);
    FoldLane(ty, kind, h, i, t[0]);
    FoldHead(ty, kind, t);
    FoldInRange(ty, kind, h);
    FoldInRange(ty, kind, t[1..]);
    AccumulateLaws(ty, kind, Fold(ty, kind, h), t[0], Fold(ty, kind, t[1..]));
  }

  // The values whose validity bit is set, the mask's low bit belonging to the first value.
  function Masked(values: seq<int>, word: bv64): seq<int> {
    if values == [] then []
    else
      var n := |values| - 1;
      Masked(values[..n], word) + if Bit(word, n) then [values[n]] else []
  }

  lemma {:induction false} MaskedInRange(ty: Native, values: seq<int>, word: bv64)
    requires ty.HasAll(values)
    ensures ty.HasAll(Masked(values, word))
  {
    if values != [] {
      MaskedInRange(ty, values[..|values| - 1], word);
    }
  }

  lemma {:induction false} MaskedSplit(values: seq<int>, word: bv64, n: nat)
    requires n <= |values|
    ensures Masked(values, word) == Masked(values[..n], word) + Masked(values[n..], ShiftRight(word, n))
    decreases |values|
  {
    var m := |values| - 1;
    if n == |values| {
      assert values[..n] == values;
    } else {
      MaskedSplit(values[..m], word, n);
      assert values[..m][..n] == values[..n];
      assert values[..m][n..] == values[n..][..m - n];
      BitOfShifted(word, n, m - n);
    }
  }

  lemma MaskedExtend(values: seq<int>, word: bv64, p: nat, q: nat)
    requires p <= q <= |values|
    ensures Masked(values[..q], word) == Masked(values[..p], word) + Masked(values[p..q], ShiftRight(word, p))
  {
    MaskedSplit(values[..q], word, p);
    assert values[..q][..p] == values[..p];
    assert values[..q][p..] == values[p..q];
  }

  // One accumulator per value, each asked by its own mask bit.  Serves both a full row of
  // lanes and the final partial row.
  method AggregateNullableChunk(ty: Native, kind: Kind, acc: array<int>, values: seq<int>, validity: bv64)
    requires ty.Valid() && ty.HasAll(acc[..]) && ty.HasAll(values) && |values| <= acc.Length
    modifies acc
    ensures ty.HasAll(acc[..])
    ensures Fold(ty, kind, acc[..]) == Fold(ty, kind, old(acc[..]) + Masked(values, validity))
  {
    var bit := 1;
    ghost var start := acc[..];
    assert start + Masked(values[..0], validity) == start;
    for i := 0 to |values|
      invariant ty.HasAll(acc[..]) && bit == MaskAt(i)
      invariant Fold(ty, kind, acc[..]) == Fold(ty, kind, start + Masked(values[..i], validity))
    {
      MaskTestsBit(validity, i);
      NullableStep(ty, kind, acc[..], i, values, validity, start);
      ghost var before := acc[..];
      acc[i] := AccumulateNullable(ty, kind, acc[i], values[i], Hits(validity, bit));
      assert acc[..] == before[i := acc[i]];
      bit := Twice(bit);
    }
    assert values[..|values|] == values;
  }

  lemma NullableStep(ty: Native, kind: Kind, lanes: seq<int>, i: nat, values: seq<int>, word: bv64, start: seq<int>)
    requires ty.Valid() && ty.HasAll(lanes) && ty.HasAll(values) && ty.HasAll(start) && i < |lanes| && i < |values|
    ensures var lanes' := lanes[i := AccumulateNullable(ty, kind, lanes[i], values[i], Bit(word, i))];
      && ty.HasAll(lanes')
      && (Fold(ty, kind, lanes) == Fold(ty, kind, start + Masked(values[..i], word)) ==>
            Fold(ty, kind, lanes') == Fold(ty, kind, start + Masked(values[..i + 1], word)))
  {
    var sofar := start + Masked(values[..i], word);
    assert values[..i + 1][..i] == values[..i];
    if Bit(word, i) {
      FoldLane(ty, kind, lanes, i, values[i]);
      assert (sofar + [values[i]])[..|sofar|] == sofar;
      assert start + Masked(values[..i + 1], word) == sofar + [values[i]];
    } else {
      assert start + Masked(values[..i + 1], word) == sofar;
      assert lanes[i := lanes[i]] == lanes;
    }
  }

  lemma ShiftedRow(word: bv64, p: nat, lanes: nat)
    requires LaneCount(lanes) && lanes < WORD
    ensures ShiftLanes(ShiftRight(word, p), lanes) == ShiftRight(word, p + lanes)
  {
    ShiftLanesIsShiftRight(ShiftRight(word, p), lanes);
    ShiftRightAdds(word, p, lanes);
  }

  lemma FoldThenAppend(ty: Native, kind: Kind, s: seq<int>, s': seq<int>, t: seq<int>)
    requires ty.Valid() && ty.HasAll(s) && ty.HasAll(s') && ty.HasAll(t)
    requires Fold(ty, kind, s) == Fold(ty, kind, s')
    ensures Fold(ty, kind, s + t) == Fold(ty, kind, s' + t)
  {
    FoldConcat(ty, kind, s, t);
    FoldConcat(ty, kind, s', t);
  }

  // Up to 64 values under one validity word: rows of `lanes` values, then the partial row.
  method AggregateWord(ty: Native, kind: Kind, acc: array<int>, values: seq<int>, word: bv64)
    requires ty.Valid() && LaneCount(acc.Length) && ty.HasAll(acc[..]) && ty.HasAll(values) && |values| <= WORD
    modifies acc
    ensures ty.HasAll(acc[..])
    ensures Fold(ty, kind, acc[..]) == Fold(ty, kind, old(acc[..]) + Masked(values, word))
  {
    var lanes := acc.Length;
    ghost var start := acc[..];
    var validity := word;
    var p := 0;
    assert start + Masked(values[..0], word) == start;
    while p + lanes <= |values|
      invariant 0 <= p <= |values|
      invariant ty.HasAll(acc[..])
      invariant p == WORD || validity == ShiftRight(word, p)
      invariant Fold(ty, kind, acc[..]) == Fold(ty, kind, start + Masked(values[..p], word))
      decreases |values| - p
    {
      AggregateRow(ty, kind, acc, values, validity, p, p + lanes, word, start);
      if lanes < WORD {
        ShiftedRow(word, p, lanes);
      }
      validity := ShiftLanes(validity, lanes);
      p := p + lanes;
    }
    if p < |values| {
      AggregateRow(ty, kind, acc, values, validity, p, |values|, word, start);
    }
    assert values[..|values|] == values;
  }

  method AggregateRow(ty: Native, kind: Kind, acc: array<int>, values: seq<int>, validity: bv64, p: nat, q: nat,
                      ghost word: bv64, ghost start: seq<int>)
    requires ty.Valid() && ty.HasAll(acc[..]) && ty.HasAll(values) && ty.HasAll(start)
    requires p <= q <= |values| && q - p <= acc.Length && validity == ShiftRight(word, p)
    requires Fold(ty, kind, acc[..]) == Fold(ty, kind, start + Masked(values[..p], word))
    modifies acc
    ensures ty.HasAll(acc[..])
    ensures Fold(ty, kind, acc[..]) == Fold(ty, kind, start + Masked(values[..q], word))
  {
    AppendRow(ty, kind, start, acc[..], values, word, p, q);
    AggregateNullableChunk(ty, kind, acc, values[p..q], validity);
  }

  lemma AppendRow(ty: Native, kind: Kind, start: seq<int>, lanes: seq<int>, values: seq<int>,
                  word: bv64, p: nat, q: nat)
    requires ty.Valid() && ty.HasAll(start) && ty.HasAll(lanes) && ty.HasAll(values) && p <= q <= |values|
    requires Fold(ty, kind, lanes) == Fold(ty, kind, start + Masked(values[..p], word))
    ensures Fold(ty, kind, lanes + Masked(values[p..q], ShiftRight(word, p)))
         == Fold(ty, kind, start + Masked(values[..q], word))
  {
    var row := Masked(values[p..q], ShiftRight(word, p));
    MaskedInRange(ty, values[p..q], ShiftRight(word, p));
    MaskedInRange(ty, values[..p], word);
    FoldThenAppend(ty, kind, lanes, start + Masked(values[..p], word), row);
    MaskedExtend(values, word, p, q);
    assert start + Masked(values[..p], word) + row == start + Masked(values[..q], word);
  }

  // The word covering position 64c of the array selects exactly the valid ones of its values.
  // The low n bits of the word are the validity of the n positions from there on.
  ghost predicate ShowsValidity(a: PrimitiveArray<int>, from: nat, n: nat, word: bv64)
    requires a.Valid() && from + n <= a.Len()
  {
    forall i :: 0 <= i < n ==> Bit(word, i) == a.IsValid(from + i)
  }

  // The word of a block shows its validity.
  lemma WordShowsValidity(a: PrimitiveArray<int>, c: nat, from: nat, n: nat)
    requires a.Valid() && a.nulls.Some? && from == WORD * c && from + n <= a.Len() && n <= WORD
    ensures ShowsValidity(a, from, n, a.nulls.value.Word(c))
  {
    forall i | 0 <= i < n ensures Bit(a.nulls.value.Word(c), i) == a.IsValid(from + i) {
      a.nulls.value.GetInWord(c, i);
    }
  }

  // A word that shows the validity of a block selects exactly its valid values.
  lemma {:induction false} KeptIsMasked(a: PrimitiveArray<int>, from: nat, n: nat, word: bv64)
    requires a.Valid() && from + n <= a.Len() && ShowsValidity(a, from, n, word)
    ensures a.Kept(from + n) == a.Kept(from) + Masked(a.values[from..from + n], word)
    decreases n
  {
    if n != 0 {
      KeptIsMasked(a, from, n - 1, word);
      MaskedOneMore(a.values, from, n, word);
    }
  }

  lemma MaskedOneMore(values: seq<int>, from: nat, n: nat, word: bv64)
    requires 0 < n && from + n <= |values|
    ensures Masked(values[from..from + n], word)
         == Masked(values[from..from + n - 1], word) + if Bit(word, n - 1) then [values[from + n - 1]] else []
  {
    assert values[from..from + n][..n - 1] == values[from..from + n - 1];
  }

  method AggregateNullableLanes(ty: Native, kind: Kind, a: PrimitiveArray<int>, lanes: nat) returns (r: int)
    requires ty.Valid() && a.Valid() && a.nulls.Some? && ty.HasAll(a.values) && LaneCount(lanes)
    ensures r == Fold(ty, kind, a.Present())
  {
    var acc := FreshLanes(ty, kind, lanes);
    var full := |a.nulls.value.chunks|;
    for c := 0 to full
      invariant ty.HasAll(acc[..])
      invariant Fold(ty, kind, acc[..]) == Fold(ty, kind, a.Kept(WORD * c))
    {
      AddWord(ty, kind, acc, a, c, WORD * c, WORD);
    }
    if WORD * full < a.Len() {
      AddWord(ty, kind, acc, a, full, WORD * full, a.Len() - WORD * full);
    }
    r := ReduceAccumulators(ty, kind, acc);
  }

  // The n values from position `from` on, where the block of word c begins.
  method AddWord(ty: Native, kind: Kind, acc: array<int>, a: PrimitiveArray<int>, c: nat, from: nat, n: nat)
    requires ty.Valid() && a.Valid() && a.nulls.Some? && ty.HasAll(a.values)
    requires LaneCount(acc.Length) && ty.HasAll(acc[..])
    requires from == WORD * c && from + n <= a.Len() && n <= WORD
    modifies acc
    ensures ty.HasAll(acc[..])
    ensures Fold(ty, kind, old(acc[..])) == Fold(ty, kind, a.Kept(from)) ==>
      Fold(ty, kind, acc[..]) == Fold(ty, kind, a.Kept(from + n))
  {
    WordShowsValidity(a, c, from, n);
    FinishWord(ty, kind, acc[..], a, from, n, a.nulls.value.Word(c));
    AggregateWord(ty, kind, acc, a.values[from..from + n], a.nulls.value.Word(c));
  }

  lemma FinishWord(ty: Native, kind: Kind, lanes: seq<int>, a: PrimitiveArray<int>, from: nat, n: nat, word: bv64)
    requires ty.Valid() && a.Valid() && ty.HasAll(a.values) && ty.HasAll(lanes)
    requires from + n <= a.Len() && ShowsValidity(a, from, n, word)
    ensures Fold(ty, kind, lanes) == Fold(ty, kind, a.Kept(from)) ==>
      Fold(ty, kind, lanes + Masked(a.values[from..from + n], word)) == Fold(ty, kind, a.Kept(from + n))
  {
    if Fold(ty, kind, lanes) == Fold(ty, kind, a.Kept(from)) {
      KeptIsMasked(a, from, n, word);
      KeptInRange(ty, a, from);
      MaskedInRange(ty, a.values[from..from + n], word);
      FoldThenAppend(ty, kind, lanes, a.Kept(from), Masked(a.values[from..from + n], word));
    }
  }

  lemma {:induction false} KeptInRange(ty: Native, a: PrimitiveArray<int>, n: nat)
    requires a.Valid() && n <= a.Len() && ty.HasAll(a.values)
    ensures ty.HasAll(a.Kept(n))
  {
    if n != 0 {
      KeptInRange(ty, a, n - 1);
    }
  }

  method AggregateNonnullChunk(ty: Native, kind: Kind, acc: array<int>, values: seq<int>)
    requires ty.Valid() && ty.HasAll(acc[..]) && ty.HasAll(values) && |values| <= acc.Length
    modifies acc
    ensures ty.HasAll(acc[..])
    ensures Fold(ty, kind, acc[..]) == Fold(ty, kind, old(acc[..]) + values)
  {
    assert old(acc[..]) + values[..0] == acc[..];
    for i := 0 to |values|
      invariant ty.HasAll(acc[..])
      invariant Fold(ty, kind, acc[..]) == Fold(ty, kind, old(acc[..]) + values[..i])
    {
      ghost var before := acc[..];
      FoldLane(ty, kind, before, i, values[i]);
      ghost var sofar := old(acc[..]) + values[..i];
      assert (sofar + [values[i]])[..|sofar|] == sofar;
      assert old(acc[..]) + values[..i + 1] == sofar + [values[i]];
      acc[i] := Accumulate(ty, kind, acc[i], values[i]);
      assert acc[..] == before[i := Accumulate(ty, kind, before[i], values[i])];
    }
    assert values[..|values|] == values;
  }

  method AggregateNonnullRow(ty: Native, kind: Kind, acc: array<int>, values: seq<int>, p: nat, q: nat)
    requires ty.Valid() && ty.HasAll(acc[..]) && ty.HasAll(values) && p <= q <= |values| && q - p <= acc.Length
    requires Fold(ty, kind, acc[..]) == Fold(ty, kind, values[..p])
    modifies acc
    ensures ty.HasAll(acc[..])
    ensures Fold(ty, kind, acc[..]) == Fold(ty, kind, values[..q])
  {
    PrefixRow(ty, kind, acc[..], values, p, q);
    AggregateNonnullChunk(ty, kind, acc, values[p..q]);
  }

  method FreshLanes(ty: Native, kind: Kind, lanes: nat) returns (acc: array<int>)
    requires ty.Valid()
    ensures fresh(acc) && acc.Length == lanes && ty.HasAll(acc[..])
    ensures Fold(ty, kind, acc[..]) == Default(ty, kind)
  {
    acc := new int[lanes](_ => Default(ty, kind));
    FoldFresh(ty, kind, acc[..]);
  }

  method AggregateNonnullLanes(ty: Native, kind: Kind, values: seq<int>, lanes: nat) returns (r: int)
    requires ty.Valid() && ty.HasAll(values) && LaneCount(lanes)
    ensures r == Fold(ty, kind, values)
  {
    var acc := FreshLanes(ty, kind, lanes);
    var p := 0;
    while p + lanes <= |values|
      invariant 0 <= p <= |values| && ty.HasAll(acc[..])
      invariant Fold(ty, kind, acc[..]) == Fold(ty, kind, values[..p])
      decreases |values| - p
    {
      AggregateNonnullRow(ty, kind, acc, values, p, p + lanes);
      p := p + lanes;
    }
    AggregateNonnullRow(ty, kind, acc, values, p, |values|);
    assert values[..|values|] == values;
    r := ReduceAccumulators(ty, kind, acc);
  }

  lemma PrefixRow(ty: Native, kind: Kind, lanes: seq<int>, values: seq<int>, p: nat, q: nat)
    requires ty.Valid() && ty.HasAll(lanes) && ty.HasAll(values) && p <= q <= |values|
    ensures Fold(ty, kind, lanes) == Fold(ty, kind, values[..p]) ==>
      Fold(ty, kind, lanes + values[p..q]) == Fold(ty, kind, values[..q])
  {
    if Fold(ty, kind, lanes) == Fold(ty, kind, values[..p]) {
      FoldThenAppend(ty, kind, lanes, values[..p], values[p..q]);
      assert values[..p] + values[p..q] == values[..q];
    }
  }

  method AggregateNonnullSimple(ty: Native, kind: Kind, values: seq<int>) returns (r: int)
    requires ty.Valid()
    ensures r == Fold(ty, kind, values)
  {
    r := Default(ty, kind);
    for i := 0 to |values|
      invariant r == Fold(ty, kind, values[..i])
    {
      assert values[..i + 1][..i] == values[..i];
      r := Accumulate(ty, kind, r, values[i]);
    }
    assert values[..|values|] == values;
  }

  // What every aggregation kernel promises: nothing when nothing is valid, and otherwise the
  // plain fold over the valid values in index order.
  function AggregateSpec(ty: Native, kind: Kind, a: PrimitiveArray<int>): Option<int>
    requires ty.Valid() && a.Valid()
  {
    if a.Present() == [] then None else Some(Fold(ty, kind, a.Present()))
  }

  // `aggregate`: vectorBytes is the platform's preferred vector size, width the size of a value.
  method Aggregate(ty: Native, kind: Kind, a: PrimitiveArray<int>, vectorBytes: nat, width: nat)
    returns (r: Option<int>)
    requires ty.Valid() && a.Valid() && ty.HasAll(a.values)
    requires vectorBytes in {16, 32, 64} && width > 0
    requires ty.isFloat ==> kind != Sum  // float addition is not associative
    ensures r == AggregateSpec(ty, kind, a)
  {
    a.KeptAndNulls(a.Len());
    var nullCount := a.NullCount();
    if nullCount == a.Len() {
      return None;
    }
    if a.nulls.Some? && nullCount > 0 {
      var lanes := vectorBytes / width;
      var v := AggregateNullableLanes(ty, kind, a, if LaneCount(lanes) then lanes else 1);
      return Some(v);
    }
    a.NoNullsKeepsAll(a.Len()) by {
      if a.nulls.None? { a.NoMaskNoNulls(a.Len()); }
    }
    assert a.values[..a.Len()] == a.values;
    var lanes := vectorBytes * 2 / width;
    var v;
    if ty.isFloat && LaneCount(lanes) && lanes != 1 {
      v := AggregateNonnullLanes(ty, kind, a.values, lanes);
    } else {
      v := AggregateNonnullSimple(ty, kind, a.values);
    }
    return Some(v);
  }

  // ---- what the fold means ----

  function Total(s: seq<int>): int {
    if s == [] then 0 else Total(s[..|s| - 1]) + s[|s| - 1]
  }

  // The wrapping sum is the exact sum reduced once.
  lemma {:induction false} FoldIsWrappedTotal(ty: Native, s: seq<int>)
    requires ty.Valid()
    ensures Fold(ty, Sum, s) == ty.Wrap(Total(s))
    ensures ty.Has(Fold(ty, Sum, s)) && (Fold(ty, Sum, s) - Total(s)) % (ty.hi - ty.lo + 1) == 0
  {
    if s == [] {
      WrapKeeps(ty, 0);
    } else {
      FoldIsWrappedTotal(ty, s[..|s| - 1]);
      WrapForgets(ty, Total(s[..|s| - 1]), s[|s| - 1]);
    }
    WrapIsCongruent(ty, Total(s));
  }

  lemma {:induction false} WrapIsCongruent(ty: Native, x: int)
    requires ty.Valid()
    ensures (ty.Wrap(x) - x) % (ty.hi - ty.lo + 1) == 0
  {
    var m := ty.hi - ty.lo + 1;
    var q := (x - ty.lo) / m;
    assert ty.Wrap(x) - x == m * -q + 0;
    EuclidUnique(m, (ty.Wrap(x) - x) / m, (ty.Wrap(x) - x) % m, -q, 0);
  }

  ghost predicate IsExtreme(kind: Kind, s: seq<int>, v: int) {
    && v in s
    && forall i :: 0 <= i < |s| ==> if kind == Min then v <= s[i] else s[i] <= v
  }

  // The minimum kernel's fold is one of the values and no value is below it; dually for maximum.
  lemma {:induction false} FoldIsExtreme(ty: Native, kind: Kind, s: seq<int>)
    requires ty.Valid() && s != [] && ty.HasAll(s) && kind != Sum
    ensures IsExtreme(kind, s, Fold(ty, kind, s))
  {
    var init, last := s[..|s| - 1], s[|s| - 1];
    if init != [] {
      FoldIsExtreme(ty, kind, init);
      ExtremeStep(ty, kind, s, Fold(ty, kind, init));
    } else {
      AccumulateLaws(ty, kind, last, last, last);
      assert Fold(ty, kind, s) == s[0];
    }
  }

  lemma {:induction false} ExtremeStep(ty: Native, kind: Kind, s: seq<int>, v: int)
    requires ty.Valid() && |s| > 1 && kind != Sum && IsExtreme(kind, s[..|s| - 1], v)
    ensures IsExtreme(kind, s, Accumulate(ty, kind, v, s[|s| - 1]))
  {
    var init := s[..|s| - 1];
    assert forall i :: 0 <= i < |init| ==> init[i] == s[i];
  }
}
