/** Stable descending sort of scored items, the contract of the `sort_by` calls on result lists. */
module StableSort {
  import opened Sets

  predicate SortedDown<T>(s: seq<(real, T)>) {
    forall i, j :: 0 <= i < j < |s| ==> s[i].0 >= s[j].0
  }

  // Puts x behind every item that scores at least as high.
  function Insert<T>(s: seq<(real, T)>, x: (real, T)): seq<(real, T)> {
    if s == [] || s[|s| - 1].0 >= x.0 then s + [x]
    else Insert(s[..|s| - 1], x) + [s[|s| - 1]]
  }

  function SortDown<T>(s: seq<(real, T)>): seq<(real, T)> {
    if s == [] then [] else Insert(SortDown(s[..|s| - 1]), s[|s| - 1])
  }

  // The items with one particular score, in order.
  function WithScore<T>(s: seq<(real, T)>, v: real): seq<(real, T)> {
    if s == [] then []
    else WithScore(s[..|s| - 1], v) + if s[|s| - 1].0 == v then [s[|s| - 1]] else []
  }

  lemma {:induction false} WithScoreSnoc<T>(s: seq<(real, T)>, x: (real, T), v: real)
    ensures WithScore(s + [x], v) == WithScore(s, v) + if x.0 == v then [x] else []
  {
    assert (s + [x])[..|s + [x]| - 1] == s;
  }

  lemma {:induction false} InsertBounded<T>(s: seq<(real, T)>, x: (real, T), low: real)
    requires x.0 >= low && forall i :: 0 <= i < |s| ==> s[i].0 >= low
    ensures forall i :: 0 <= i < |Insert(s, x)| ==> Insert(s, x)[i].0 >= low
  {
    if s != [] && s[|s| - 1].0 < x.0 {
      InsertBounded(s[..|s| - 1], x, low);
    }
  }

  lemma {:induction false} InsertSorts<T>(s: seq<(real, T)>, x: (real, T))
    requires SortedDown(s)
    ensures SortedDown(Insert(s, x))
  {
    if s != [] && s[|s| - 1].0 < x.0 {
      InsertSorts(s[..|s| - 1], x);
      InsertBounded(s[..|s| - 1], x, s[|s| - 1].0);
    }
  }

  lemma {:induction false} InsertKeepsItems<T>(s: seq<(real, T)>, x: (real, T))
    ensures multiset(Insert(s, x)) == multiset(s) + multiset{x} && |Insert(s, x)| == |s| + 1
  {
    if s != [] && s[|s| - 1].0 < x.0 {
      InsertKeepsItems(s[..|s| - 1], x);
      assert s == s[..|s| - 1] + [s[|s| - 1]];
    }
  }

  lemma {:induction false} InsertIsStable<T>(s: seq<(real, T)>, x: (real, T), v: real)
    requires SortedDown(s)
    ensures WithScore(Insert(s, x), v) == WithScore(s, v) + if x.0 == v then [x] else []
  {
    if s == [] || s[|s| - 1].0 >= x.0 {
      WithScoreSnoc(s, x, v);
    } else {
      var s', y := s[..|s| - 1], s[|s| - 1];
      InsertIsStable(s', x, v);
      WithScoreSnoc(Insert(s', x), y, v);
    }
  }

  // The result is in descending order, holds the same items, and keeps ties in their old order.
  lemma {:induction false} SortDownSorts<T>(s: seq<(real, T)>)
    ensures SortedDown(SortDown(s))
    ensures multiset(SortDown(s)) == multiset(s) && |SortDown(s)| == |s|
  {
    if s != [] {
      var s', x := s[..|s| - 1], s[|s| - 1];
      assert s == s' + [x];
      SortDownSorts(s');
      InsertSorts(SortDown(s'), x);
      InsertKeepsItems(SortDown(s'), x);
    }
  }

  lemma {:induction false} SortDownIsStable<T>(s: seq<(real, T)>, v: real)
    ensures WithScore(SortDown(s), v) == WithScore(s, v)
  {
    if s != [] {
      var s', x := s[..|s| - 1], s[|s| - 1];
      SortDownSorts(s');
      SortDownIsStable(s', v);
      InsertIsStable(SortDown(s'), x, v);
    }
  }

  // t is s with its items in another order: item i of t is item p[i] of s, and ties keep their order.
  ghost predicate Reorders<T>(p: seq<nat>, s: seq<(real, T)>, t: seq<(real, T)>) {
    && |p| == |s| == |t|
    && (forall i :: 0 <= i < |p| ==> p[i] < |s| && t[i] == s[p[i]])
    && (forall i, j :: 0 <= i < j < |p| ==> p[i] != p[j] && (t[i].0 == t[j].0 ==> p[i] < p[j]))
  }

  lemma {:induction false} InsertPosition<T>(s: seq<(real, T)>, x: (real, T)) returns (k: nat)
    ensures k <= |s| && Insert(s, x) == s[..k] + [x] + s[k..]
    ensures forall i :: k <= i < |s| ==> s[i].0 < x.0
  {
    if s == [] || s[|s| - 1].0 >= x.0 {
      k := |s|;
    } else {
      var init, last := s[..|s| - 1], s[|s| - 1];
      k := InsertPosition(init, x);
      assert init[..k] == s[..k] && init[k..] + [last] == s[k..];
    }
  }

  lemma {:induction false} SortDownReorders<T>(s: seq<(real, T)>) returns (p: seq<nat>)
    ensures Reorders(p, s, SortDown(s))
  {
    if s == [] {
      p := [];
    } else {
      var n := |s| - 1;
      var before := SortDownReorders(s[..n]);
      var k := InsertPosition(SortDown(s[..n]), s[n]);
      p := before[..k] + [n] + before[k..];
      InsertReorders(before, s, SortDown(s[..n]), k);
    }
  }

  lemma {:induction false} InsertReorders<T>(p: seq<nat>, s: seq<(real, T)>, t: seq<(real, T)>, k: nat)
    requires s != [] && Reorders(p, s[..|s| - 1], t) && k <= |t|
    requires forall i :: k <= i < |t| ==> t[i].0 < s[|s| - 1].0
    ensures Reorders(p[..k] + [|s| - 1] + p[k..], s, t[..k] + [s[|s| - 1]] + t[k..])
  {
    var n := |s| - 1;
    var p', t' := p[..k] + [n] + p[k..], t[..k] + [s[n]] + t[k..];
    forall i | 0 <= i < |p'| ensures p'[i] < |s| && t'[i] == s[p'[i]] {
      if i != k {
        assert s[..n][p[if i < k then i else i - 1]] == s[p'[i]];
      }
    }
  }

  function Below(n: nat): set<nat> { if n == 0 then {} else Below(n - 1) + {n - 1} }

  lemma {:induction false} BelowHas(n: nat)
    ensures |Below(n)| == n && forall x :: x in Below(n) <==> 0 <= x < n
  {
    if n != 0 {
      BelowHas(n - 1);
    }
  }

  function Elements(p: seq<nat>): set<nat> { set x | x in p }

  lemma {:induction false} DistinctSize(p: seq<nat>)
    requires forall i, j :: 0 <= i < j < |p| ==> p[i] != p[j]
    ensures |Elements(p)| == |p|
  {
    if p == [] {
      assert Elements(p) == {};
    } else {
      var init, last := p[..|p| - 1], p[|p| - 1];
      assert p == init + [last];
      DistinctSize(init);
      assert Elements(p) == Elements(init) + {last};
    }
  }

  // A list of n different numbers below n has them all.
  lemma {:induction false} HasAllBelow(p: seq<nat>, x: nat)
    requires forall i, j :: 0 <= i < j < |p| ==> p[i] != p[j]
    requires (forall i :: 0 <= i < |p| ==> p[i] < |p|) && x < |p|
    ensures x in p
  {
    DistinctSize(p);
    BelowHas(|p|);
    assert Elements(p) <= Below(|p|);
    SubsetSize(Elements(p), Below(|p|));
    assert x in Elements(p);
  }

  lemma {:induction false} LastIn<T>(s: seq<T>)
    requires s != []
    ensures s[|s| - 1] in multiset(s)
    ensures multiset(s[..|s| - 1]) == multiset(s) - multiset{s[|s| - 1]}
  {
    assert s == s[..|s| - 1] + [s[|s| - 1]];
  }

  lemma {:induction false} TakenOut<T>(t: seq<T>, i: nat)
    requires i < |t|
    ensures multiset(t[..i] + t[i + 1..]) == multiset(t) - multiset{t[i]}
  {
    assert t == t[..i] + [t[i]] + t[i + 1..];
  }

  // Of two sequences with the same items, the last item of one can be taken out of both.
  lemma {:induction false} RemoveShared<T>(s: seq<T>, t: seq<T>) returns (i: nat)
    requires s != [] && multiset(s) == multiset(t)
    ensures i < |t| && t[i] == s[|s| - 1]
    ensures multiset(t[..i] + t[i + 1..]) == multiset(s[..|s| - 1])
  {
    LastIn(s);
    i :| 0 <= i < |t| && t[i] == s[|s| - 1];
    TakenOut(t, i);
  }
}
