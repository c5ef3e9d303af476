/** `sum_checked` of arrow-arith's aggregate.rs, and its agreement with the wrapping `sum`. */
module CheckedSum {
  import opened Outcomes
  import opened PrimitiveArrays
  import opened LaneAggregate

  // Every running sum, taken left to right, is a value of the type.
  ghost predicate PrefixesFit(ty: Native, s: seq<int>) {
    forall n :: 0 <= n <= |s| ==> ty.Has(Total(s[..n]))
  }

  ghost function SumCheckedSpec(ty: Native, a: PrimitiveArray<int>): Result<Option<int>, ArithmeticError>
    requires ty.Valid() && a.Valid()
  {
    var s := a.Present();
    if s == [] then Ok(None)
    else if PrefixesFit(ty, s) then Ok(Some(Total(s)))
    else Err(Overflow)
  }

  lemma {:induction false} TotalSnoc(s: seq<int>, v: int)
    ensures Total(s + [v]) == Total(s) + v
  {
    assert (s + [v])[..|s|] == s;
  }

  lemma {:induction false} PrefixesExtend(ty: Native, s: seq<int>, v: int)
    ensures PrefixesFit(ty, s + [v]) <==> PrefixesFit(ty, s) && ty.Has(Total(s) + v)
  {
    var t := s + [v];
    TotalSnoc(s, v);
    if PrefixesFit(ty, s) && ty.Has(Total(s) + v) {
      forall n | 0 <= n <= |t| ensures ty.Has(Total(t[..n])) {
        assert t[..n] == if n <= |s| then s[..n] else t;
      }
    }
    if PrefixesFit(ty, t) {
      assert t[..|t|] == t;
      forall n | 0 <= n <= |s| ensures ty.Has(Total(s[..n])) {
        assert t[..n] == s[..n];
      }
    }
  }

  lemma {:induction false} FailureIsFinal(ty: Native, a: PrimitiveArray<int>, n: nat)
    requires ty.Valid() && a.Valid() && n <= a.Len() && PrefixesFit(ty, a.Present())
    ensures PrefixesFit(ty, a.Kept(n))
    decreases a.Len() - n
  {
    if n < a.Len() {
      KeptIsPrefix(a, n, a.Len());
      var s, t := a.Kept(n), a.Present();
      forall k | 0 <= k <= |s| ensures ty.Has(Total(s[..k])) {
        assert s[..k] == t[..k];
      }
    }
  }

  lemma {:induction false} KeptIsPrefix(a: PrimitiveArray<int>, n: nat, m: nat)
    requires a.Valid() && n <= m <= a.Len()
    ensures |a.Kept(n)| <= |a.Kept(m)| && a.Kept(m)[..|a.Kept(n)|] == a.Kept(n)
    decreases m
  {
    if n < m {
      KeptIsPrefix(a, n, m - 1);
    }
  }

  lemma {:induction false} RunningSumStep(ty: Native, a: PrimitiveArray<int>, i: nat)
    requires ty.Valid() && a.Valid() && i < a.Len() && a.IsValid(i) && PrefixesFit(ty, a.Kept(i))
    ensures Total(a.Kept(i + 1)) == Total(a.Kept(i)) + a.values[i]
    ensures PrefixesFit(ty, a.Kept(i + 1)) <==> ty.Has(Total(a.Kept(i + 1)))
    ensures !ty.Has(Total(a.Kept(i + 1))) ==> !PrefixesFit(ty, a.Present())
  {
    var s := a.Kept(i);
    PrefixesExtend(ty, s, a.values[i]);
    assert (s + [a.values[i]])[..|s|] == s;
    if PrefixesFit(ty, a.Present()) {
      FailureIsFinal(ty, a, i + 1);
    }
  }

  method SumChecked(ty: Native, a: PrimitiveArray<int>) returns (r: Result<Option<int>, ArithmeticError>)
    requires ty.Valid() && a.Valid() && !ty.isFloat && ty.HasAll(a.values)
    ensures r == SumCheckedSpec(ty, a)
  {
    a.KeptAndNulls(a.Len());
    if a.NullCount() == a.Len() {
      return Ok(None);
    }
    var sum := RunningSum(ty, a);
    match sum
    case Ok(s) => return Ok(Some(s));
    case Err(e) => return Err(e);
  }

  method RunningSum(ty: Native, a: PrimitiveArray<int>) returns (r: Result<int, ArithmeticError>)
    requires ty.Valid() && a.Valid()
    ensures r == if PrefixesFit(ty, a.Present()) then Ok(Total(a.Present())) else Err(Overflow)
  {
    var sum := 0;
    assert PrefixesFit(ty, a.Kept(0)) by { assert forall n :: 0 <= n <= 0 ==> a.Kept(0)[..n] == []; }
    for i := 0 to a.Len()
      invariant sum == Total(a.Kept(i)) && PrefixesFit(ty, a.Kept(i))
    {
      if a.IsValid(i) {
        RunningSumStep(ty, a, i);
        if !ty.Has(sum + a.values[i]) {
          return Err(Overflow);
        }
        sum := sum + a.values[i];
      }
    }
    return Ok(sum);
  }

  // A checked success is the exact sum, and the wrapping kernel returns the same number; the
  // two kernels agree on when there is nothing to add.
  lemma {:induction false} CheckedAgreesWithWrapping(ty: Native, a: PrimitiveArray<int>)
    requires ty.Valid() && a.Valid()
    ensures SumCheckedSpec(ty, a) == Ok(None) <==> AggregateSpec(ty, Sum, a) == None
    ensures forall s :: SumCheckedSpec(ty, a) == Ok(Some(s)) ==>
              s == Total(a.Present()) && AggregateSpec(ty, Sum, a) == Some(s)
  {
    var s := a.Present();
    if s != [] && PrefixesFit(ty, s) {
      assert s[..|s|] == s;
      FoldIsWrappedTotal(ty, s);
      WrapKeeps(ty, Total(s));
    }
  }

  // The checked kernel may refuse a sum that fits: only the running sums matter.
  lemma {:induction false} RefusesRepresentableSum(ty: Native)
    requires ty == Native(-128, 127, false)
    ensures var a := PrimitiveArray([100, 100, -100], None);
      SumCheckedSpec(ty, a) == Err(Overflow) && ty.Has(Total(a.Present()))
  {
    var a := PrimitiveArray([100, 100, -100], None);
    a.NoMaskNoNulls(3);
    a.NoNullsKeepsAll(3);
    var s := a.Present();
    assert s == [100, 100, -100];
    assert [100][..0] == [] && [100, 100][..1] == [100] && s[..2] == [100, 100];
    assert Total([100]) == 100 && Total([100, 100]) == 200 && Total(s) == 100;
  }
}
