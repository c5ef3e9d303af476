/** Arrow primitive arrays: values plus an optional validity mask. */
module PrimitiveArrays {
  import opened Outcomes
  import opened Bits

  datatype PrimitiveArray<T> = PrimitiveArray(values: seq<T>, nulls: Option<BitBuffer>) {
    ghost predicate Valid() {
      nulls.Some? ==> nulls.value.Valid() && nulls.value.len == |values|
    }

    function Len(): nat { |values| }

    predicate IsValid(i: nat)
      requires Valid() && i < Len()
    {
      nulls.None? || nulls.value.Get(i)
    }

    // The non-null values among the first n, in index order.
    function Kept(n: nat): seq<T>
      requires Valid() && n <= Len()
    {
      if n == 0 then []
      else if IsValid(n - 1) then Kept(n - 1) + [values[n - 1]]
      else Kept(n - 1)
    }

    function Present(): seq<T>
      requires Valid()
    {
      Kept(Len())
    }

    function NullsBefore(n: nat): nat
      requires Valid() && n <= Len()
    {
      if n == 0 then 0 else NullsBefore(n - 1) + if IsValid(n - 1) then 0 else 1
    }

    function NullCount(): nat
      requires Valid()
    {
      NullsBefore(Len())
    }

    lemma {:induction false} KeptAndNulls(n: nat)
      requires Valid() && n <= Len()
      ensures |Kept(n)| + NullsBefore(n) == n
    {
      if n != 0 {
        KeptAndNulls(n - 1);
      }
    }

    lemma {:induction false} NoNullsKeepsAll(n: nat)
      requires Valid() && n <= Len() && NullsBefore(n) == 0
      ensures Kept(n) == values[..n]
      ensures forall i :: 0 <= i < n ==> IsValid(i)
    {
      if n != 0 {
        NoNullsKeepsAll(n - 1);
        assert values[..n] == values[..n - 1] + [values[n - 1]];
      }
    }

    lemma {:induction false} NoMaskNoNulls(n: nat)
      requires Valid() && nulls.None? && n <= Len()
      ensures NullsBefore(n) == 0
    {
      if n != 0 {
        NoMaskNoNulls(n - 1);
      }
    }
  }
}
