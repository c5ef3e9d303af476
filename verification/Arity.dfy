/** The element-wise binary kernels of arrow-arith's arity.rs: infallible, fallible, in place. */
module Arity {
  import opened Outcomes
  import opened Bits
  import opened PrimitiveArrays

  datatype KernelError<+E> = LengthMismatch | OpFailed(error: E)

  ghost predicate BothValid<A, B>(a: PrimitiveArray<A>, b: PrimitiveArray<B>, i: nat)
    requires a.Valid() && b.Valid() && a.Len() == b.Len() && i < a.Len()
  {
    a.IsValid(i) && b.IsValid(i)
  }

  // The result is null exactly where an input is null.
  ghost predicate NullsMatch<A, B, O>(a: PrimitiveArray<A>, b: PrimitiveArray<B>, out: PrimitiveArray<O>)
    requires a.Valid() && b.Valid() && a.Len() == b.Len()
  {
    && out.Valid() && out.Len() == a.Len()
    && forall i :: 0 <= i < a.Len() ==> (out.IsValid(i) <==> BothValid(a, b, i))
  }

  // What a fallible kernel promises: the operator at every doubly valid index, or the error of
  // the first index at which the operator fails.
  ghost predicate TryOutcome<A, B, O, E>(op: (A, B) --> Result<O, E>, a: PrimitiveArray<A>, b: PrimitiveArray<B>,
                                         r: Result<PrimitiveArray<O>, KernelError<E>>)
    requires a.Valid() && b.Valid()
    requires Evaluable(op, a, b)
  {
    if a.Len() != b.Len() then r == Err(LengthMismatch)
    else match r
      case Ok(out) =>
        && NullsMatch(a, b, out)
        && forall i :: 0 <= i < a.Len() && BothValid(a, b, i) ==> op(a.values[i], b.values[i]) == Ok(out.values[i])
      case Err(OpFailed(e)) => exists i :: FailsFirst(op, a, b, e, i)
      case Err(LengthMismatch) => false
  }

  // The operator is only asked to be defined where both inputs are valid.
  ghost predicate Evaluable<A, B, O, E>(op: (A, B) --> Result<O, E>, a: PrimitiveArray<A>, b: PrimitiveArray<B>)
    requires a.Valid() && b.Valid()
  {
    a.Len() == b.Len() ==>
      forall i :: 0 <= i < a.Len() && BothValid(a, b, i) ==> op.requires(a.values[i], b.values[i])
  }

  ghost predicate Succeeds<A, B, O, E>(op: (A, B) --> Result<O, E>, a: PrimitiveArray<A>, b: PrimitiveArray<B>, i: nat)
    requires a.Valid() && b.Valid() && a.Len() == b.Len() && i < a.Len()
    requires Evaluable(op, a, b)
  {
    BothValid(a, b, i) ==> op(a.values[i], b.values[i]).Ok?
  }

  ghost predicate FailsFirst<A, B, O, E>(op: (A, B) --> Result<O, E>,
                               a: PrimitiveArray<A>, b: PrimitiveArray<B>, e: E, i: nat)
    requires a.Valid() && b.Valid() && a.Len() == b.Len()
    requires Evaluable(op, a, b)
  {
    && i < a.Len() && BothValid(a, b, i)
    && op(a.values[i], b.values[i]) == Err(e)
    && forall j :: 0 <= j < i ==> Succeeds(op, a, b, j)
  }

  lemma UnionMatches<A, B>(a: PrimitiveArray<A>, b: PrimitiveArray<B>)
    requires a.Valid() && b.Valid() && a.Len() == b.Len()
    ensures var u := Union(a.nulls, b.nulls);
      && (u.Some? ==> u.value.Valid() && u.value.len == a.Len())
      && forall i :: 0 <= i < a.Len() ==> ((u.None? || u.value.Get(i)) <==> BothValid(a, b, i))
  {
    if a.nulls.Some? && b.nulls.Some? {
      UnionIsConjunction(a.nulls.value, b.nulls.value);
    }
  }

  // `binary` applies the operator everywhere, under nulls too, so it must be total.
  method Binary<A, B, O, E>(op: (A, B) -> O, a: PrimitiveArray<A>, b: PrimitiveArray<B>)
    returns (r: Result<PrimitiveArray<O>, KernelError<E>>)
    requires a.Valid() && b.Valid()
    ensures a.Len() != b.Len() <==> r == Err(LengthMismatch)
    ensures a.Len() == b.Len() ==>
      && r.Ok? && NullsMatch(a, b, r.value)
      && forall i :: 0 <= i < a.Len() ==> r.value.values[i] == op(a.values[i], b.values[i])
  {
    if a.Len() != b.Len() {
      return Err(LengthMismatch);
    }
    if a.Len() == 0 {
      return Ok(PrimitiveArray([], None));
    }
    UnionMatches(a, b);
    var nulls := Union(a.nulls, b.nulls);
    var values := seq(a.Len(), i requires 0 <= i < a.Len() => op(a.values[i], b.values[i]));
    return Ok(PrimitiveArray(values, nulls));
  }

  method TryBinary<A, B, O, E>(op: (A, B) --> Result<O, E>, a: PrimitiveArray<A>, b: PrimitiveArray<B>, zero: O)
    returns (r: Result<PrimitiveArray<O>, KernelError<E>>)
    requires a.Valid() && b.Valid() && Evaluable(op, a, b)
    ensures TryOutcome(op, a, b, r)
    ensures r.Ok? ==> forall i :: 0 <= i < a.Len() && !BothValid(a, b, i) ==> r.value.values[i] == zero
  {
    if a.Len() != b.Len() {
      return Err(LengthMismatch);
    }
    if a.Len() == 0 {
      return Ok(PrimitiveArray([], None));
    }
    if a.NullCount() == 0 && b.NullCount() == 0 {
      a.NoNullsKeepsAll(a.Len());
      b.NoNullsKeepsAll(b.Len());
      r := TryBinaryNoNulls(op, a, b);
      return;
    }
    UnionMatches(a, b);
    var nulls := Union(a.nulls, b.nulls);
    var buffer := new O[a.Len()](_ => zero);
    for i := 0 to a.Len()
      invariant forall j :: 0 <= j < i ==> Succeeds(op, a, b, j)
      invariant forall j :: 0 <= j < i && BothValid(a, b, j) ==> op(a.values[j], b.values[j]) == Ok(buffer[j])
      invariant forall j :: 0 <= j < a.Len() && (j < i ==> !BothValid(a, b, j)) ==> buffer[j] == zero
    {
      if nulls.None? || nulls.value.Get(i) {
        var v := op(a.values[i], b.values[i]);
        if v.Err? {
          assert FailsFirst(op, a, b, v.error, i);
          return Err(OpFailed(v.error));
        }
        buffer[i] := v.value;
      }
    }
    return Ok(PrimitiveArray(buffer[..], nulls));
  }

  method TryBinaryNoNulls<A, B, O, E>(op: (A, B) --> Result<O, E>, a: PrimitiveArray<A>, b: PrimitiveArray<B>)
    returns (r: Result<PrimitiveArray<O>, KernelError<E>>)
    requires a.Valid() && b.Valid() && a.Len() == b.Len() && Evaluable(op, a, b)
    requires forall i :: 0 <= i < a.Len() ==> BothValid(a, b, i)
    ensures TryOutcome(op, a, b, r)
  {
    var buffer: seq<O> := [];
    for i := 0 to a.Len()
      invariant |buffer| == i
      invariant forall j :: 0 <= j < i ==> Succeeds(op, a, b, j)
      invariant forall j :: 0 <= j < i ==> op(a.values[j], b.values[j]) == Ok(buffer[j])
    {
      assert BothValid(a, b, i);
      var v := op(a.values[i], b.values[i]);
      if v.Err? {
        assert FailsFirst(op, a, b, v.error, i);
        return Err(OpFailed(v.error));
      }
      buffer := buffer + [v.value];
    }
    return Ok(PrimitiveArray(buffer, None));
  }

  // `try_binary_mut`: overwrites the buffer of the first array.  A buffer that is shared with
  // another array is handed back untouched; after an operator error the positions before the
  // failing one have been overwritten and the rest have not.
  method TryBinaryMut<T, E>(op: (T, T) --> Result<T, E>, buffer: array<T>, nulls: Option<BitBuffer>, shared: bool,
                            b: PrimitiveArray<T>)
    returns (r: Result<Result<PrimitiveArray<T>, KernelError<E>>, PrimitiveArray<T>>)
    requires PrimitiveArray(buffer[..], nulls).Valid() && b.Valid()
    requires Evaluable(op, PrimitiveArray(buffer[..], nulls), b)
    modifies buffer
    ensures var a := PrimitiveArray(old(buffer[..]), nulls);
      if a.Len() == b.Len() && a.Len() > 0 && shared
      then r == Err(a) && buffer[..] == old(buffer[..])
      else r.Ok? && TryOutcome(op, a, b, r.value)
    ensures var a := PrimitiveArray(old(buffer[..]), nulls);
      r.Ok? ==> match r.value
        case Ok(out) => out.values == buffer[..]
          && forall i :: 0 <= i < a.Len() && !BothValid(a, b, i) ==> buffer[i] == a.values[i]
        case Err(LengthMismatch) => buffer[..] == a.values
        case Err(OpFailed(e)) =>
          exists i: nat :: (
            && FailsFirst(op, a, b, e, i)
            && (forall j :: i <= j < a.Len() ==> buffer[j] == a.values[j])
            && (forall j :: 0 <= j < i ==> Overwritten(op, a, b, j, buffer[j])))
  {
    ghost var a := PrimitiveArray(buffer[..], nulls);
    if buffer.Length != b.Len() {
      return Ok(Err(LengthMismatch));
    }
    if buffer.Length == 0 {
      return Ok(Ok(PrimitiveArray([], None)));
    }
    if shared {
      return Err(PrimitiveArray(buffer[..], nulls));
    }
    UnionMatches(a, b);
    var union := Union(nulls, b.nulls);
    for i := 0 to buffer.Length
      invariant forall j :: 0 <= j < i ==> Succeeds(op, a, b, j) && Overwritten(op, a, b, j, buffer[j])
      invariant forall j :: i <= j < a.Len() ==> buffer[j] == a.values[j]
    {
      if union.None? || union.value.Get(i) {
        var v := op(buffer[i], b.values[i]);
        if v.Err? {
          assert FailsFirst(op, a, b, v.error, i);
          return Ok(Err(OpFailed(v.error)));
        }
        buffer[i] := v.value;
      }
    }
    return Ok(Ok(PrimitiveArray(buffer[..], union)));
  }

  // What position j holds once the in-place loop has passed it.
  ghost predicate Overwritten<T, E>(op: (T, T) --> Result<T, E>, a: PrimitiveArray<T>, b: PrimitiveArray<T>,
                                j: nat, v: T)
    requires a.Valid() && b.Valid() && a.Len() == b.Len() && j < a.Len() && Evaluable(op, a, b)
  {
    if BothValid(a, b, j) then op(a.values[j], b.values[j]) == Ok(v) else v == a.values[j]
  }

  ghost predicate SameWhereValid<O>(x: PrimitiveArray<O>, y: PrimitiveArray<O>) {
    && x.Valid() && y.Valid() && x.Len() == y.Len()
    && forall i :: 0 <= i < x.Len() ==>
         (x.IsValid(i) <==> y.IsValid(i)) && (x.IsValid(i) ==> x.values[i] == y.values[i])
  }

  // The promise of the fallible kernels fixes the outcome: two kernels that keep it report the
  // same error, or arrays that agree on nulls and on every valid value.
  lemma OutcomeIsUnique<A, B, O, E>(op: (A, B) --> Result<O, E>, a: PrimitiveArray<A>, b: PrimitiveArray<B>,
                                    r: Result<PrimitiveArray<O>, KernelError<E>>,
                                    s: Result<PrimitiveArray<O>, KernelError<E>>)
    requires a.Valid() && b.Valid() && Evaluable(op, a, b)
    requires TryOutcome(op, a, b, r) && TryOutcome(op, a, b, s)
    ensures r.Ok? <==> s.Ok?
    ensures if r.Ok? then SameWhereValid(r.value, s.value) else r == s
  {
    if a.Len() == b.Len() {
      if s.Err? {
        var j :| FailsFirst(op, a, b, s.error.error, j);
        NoOutputPast(op, a, b, r, j);
      }
      if r.Err? {
        var i :| FailsFirst(op, a, b, r.error.error, i);
        NoOutputPast(op, a, b, s, i);
        var j :| FailsFirst(op, a, b, s.error.error, j);
        FirstIsFirst(op, a, b, r.error.error, i, s.error.error, j);
      }
    }
  }

  lemma NoOutputPast<A, B, O, E>(op: (A, B) --> Result<O, E>, a: PrimitiveArray<A>, b: PrimitiveArray<B>,
                                 s: Result<PrimitiveArray<O>, KernelError<E>>, i: nat)
    requires a.Valid() && b.Valid() && a.Len() == b.Len() && Evaluable(op, a, b)
    requires i < a.Len() && BothValid(a, b, i) && op(a.values[i], b.values[i]).Err? && TryOutcome(op, a, b, s)
    ensures s.Err?
  {
  }

  lemma FirstIsFirst<A, B, O, E>(op: (A, B) --> Result<O, E>, a: PrimitiveArray<A>, b: PrimitiveArray<B>,
                                 e: E, i: nat, f: E, j: nat)
    requires a.Valid() && b.Valid() && a.Len() == b.Len() && Evaluable(op, a, b)
    requires FailsFirst(op, a, b, e, i) && FailsFirst(op, a, b, f, j)
    ensures i == j && e == f
  {
    assert !Succeeds(op, a, b, i) && !Succeeds(op, a, b, j);
  }

  // With an operator that never fails the fallible kernels compute what `binary` computes.
  lemma NeverFailingAgrees<A, B, O, E>(op: (A, B) -> O, tryOp: (A, B) --> Result<O, E>, a: PrimitiveArray<A>,
                                       b: PrimitiveArray<B>, plain: PrimitiveArray<O>,
                                       r: Result<PrimitiveArray<O>, KernelError<E>>)
    requires a.Valid() && b.Valid() && a.Len() == b.Len() && Evaluable(tryOp, a, b)
    requires forall i :: 0 <= i < a.Len() && BothValid(a, b, i) ==>
               tryOp(a.values[i], b.values[i]) == Ok(op(a.values[i], b.values[i]))
    requires NullsMatch(a, b, plain) && forall i :: 0 <= i < a.Len() ==> plain.values[i] == op(a.values[i], b.values[i])
    requires TryOutcome(tryOp, a, b, r)
    ensures r.Ok? && SameWhereValid(r.value, plain)
  {
    OutcomeIsUnique(tryOp, a, b, r, Ok(plain));
  }
}
