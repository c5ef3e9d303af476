/** The per-client sliding-window rate limiter of src/k2k/tasks.rs.

    Times are nanoseconds on a monotone clock.  Every reading of the clock is a parameter, and
    the two readings inside one check are separate ones. */
module RateLimiter {
  import opened Outcomes

  const SECOND: nat := 1_000_000_000
  const U32: nat := 0x1_0000_0000

  // `duration_since`, which never goes below zero.
  function Age(now: nat, t: nat): nat { if now >= t then now - t else 0 }

  function Pruned(ts: seq<nat>, now: nat, window: nat): seq<nat> {
    if ts == [] then []
    else Pruned(ts[..|ts| - 1], now, window) + if Age(now, ts[|ts| - 1]) < window then [ts[|ts| - 1]] else []
  }

  // Whole seconds until the oldest entry expires, rounded up by adding one.
  function RetryAfter(oldest: nat, now: nat, window: nat): nat {
    var age := Age(now, oldest);
    (if age <= window then window - age else SECOND) / SECOND + 1
  }

  datatype Limits = Limits(maxTasks: nat, window: nat) {
    // `submit` consults the limiter only for a positive budget; the budget is a u32.
    predicate Valid() { 0 < maxTasks < U32 }
  }

  // One check of one client's list: the pruned list decides, and an accepted request is stamped.
  function CheckList(ts: seq<nat>, limits: Limits, tPrune: nat, tStamp: nat): (seq<nat>, Result<(), nat>)
    requires limits.Valid()
  {
    var kept := Pruned(ts, tPrune, limits.window);
    if |kept| % U32 >= limits.maxTasks then (kept, Err(RetryAfter(kept[0], tStamp, limits.window)))
    else (kept + [tStamp], Ok(()))
  }

  type Lists = map<string, seq<nat>>

  function Get(m: Lists, client: string): seq<nat> { if client in m then m[client] else [] }

  function CheckStep(m: Lists, client: string, limits: Limits, tPrune: nat, tStamp: nat): (Lists, Result<(), nat>)
    requires limits.Valid()
  {
    var (ts, r) := CheckList(Get(m, client), limits, tPrune, tStamp);
    (m[client := ts], r)
  }

  // Prunes every list, each at its own reading of the clock, and drops the empty ones.
  function CleanupStep(m: Lists, window: nat, now: string -> nat): Lists {
    map c | c in m && Pruned(m[c], now(c), window) != [] :: Pruned(m[c], now(c), window)
  }

  // The positions of the entries that are younger than the window.
  function Young(h: seq<nat>, now: nat, window: nat): set<nat> {
    set i: nat | i < |h| && Age(now, h[i]) < window
  }

  lemma {:induction false} PrunedCountsYoung(h: seq<nat>, now: nat, window: nat)
    ensures |Pruned(h, now, window)| == |Young(h, now, window)|
  {
    if h == [] {
      assert Young(h, now, window) == {};
    } else {
      var n := |h| - 1;
      PrunedCountsYoung(h[..n], now, window);
      var before := Young(h[..n], now, window);
      assert Young(h, now, window) == if Age(now, h[n]) < window then before + {n} else before;
    }
  }

  // Less than a window has passed since t.
  predicate IsYoung(t: nat, now: nat, window: nat) { (if now >= t then now - t else 0) < window }

  // The list holds, in order, just the entries that are younger than the window: p are their positions.
  ghost predicate AreYoungAt(p: seq<nat>, kept: seq<nat>, ts: seq<nat>, now: nat, window: nat) {
    && |p| == |kept|
    && (forall i :: 0 <= i < |p| ==> p[i] < |ts| && kept[i] == ts[p[i]])
    && (forall i, j :: 0 <= i < j < |p| ==> p[i] < p[j])
    && (forall k: nat :: k < |ts| ==> (k in p <==> IsYoung(ts[k], now, window)))
  }

  ghost predicate AreYoung(kept: seq<nat>, ts: seq<nat>, now: nat, window: nat) {
    exists p :: AreYoungAt(p, kept, ts, now, window)
  }

  lemma {:induction false} OneMoreYoung(p: seq<nat>, kept: seq<nat>, ts: seq<nat>, t: nat, now: nat, window: nat)
    requires AreYoungAt(p, kept, ts, now, window) && IsYoung(t, now, window)
    ensures AreYoungAt(p + [|ts|], kept + [t], ts + [t], now, window)
  {
    var p', ts' := p + [|ts|], ts + [t];
    forall k: nat | k < |ts'| ensures k in p' <==> IsYoung(ts'[k], now, window) {
      if k == |ts| {
        assert p'[|p|] == k;
      } else {
        assert k in p <==> IsYoung(ts[k], now, window);
      }
    }
  }

  lemma {:induction false} NoneMoreYoung(p: seq<nat>, kept: seq<nat>, ts: seq<nat>, t: nat, now: nat, window: nat)
    requires AreYoungAt(p, kept, ts, now, window) && !IsYoung(t, now, window)
    ensures AreYoungAt(p, kept, ts + [t], now, window)
  {
    var ts' := ts + [t];
    forall k: nat | k < |ts'| ensures k in p <==> IsYoung(ts'[k], now, window) {
      if k < |ts| {
        assert k in p <==> IsYoung(ts[k], now, window);
      }
    }
  }

  lemma {:induction false} PrunedAreYoungAt(ts: seq<nat>, now: nat, window: nat) returns (p: seq<nat>)
    ensures AreYoungAt(p, Pruned(ts, now, window), ts, now, window)
  {
    if ts == [] {
      p := [];
    } else {
      var init, last := ts[..|ts| - 1], ts[|ts| - 1];
      assert ts == init + [last];
      p := PrunedAreYoungAt(init, now, window);
      if IsYoung(last, now, window) {
        OneMoreYoung(p, Pruned(init, now, window), init, last, now, window);
        p := p + [|init|];
      } else {
        NoneMoreYoung(p, Pruned(init, now, window), init, last, now, window);
      }
    }
  }

  lemma {:induction false} PrunedAreYoung(ts: seq<nat>, now: nat, window: nat)
    ensures AreYoung(Pruned(ts, now, window), ts, now, window)
    ensures Pruned(ts, now, window) != [] <==> exists k: nat :: k < |ts| && IsYoung(ts[k], now, window)
  {
    var p := PrunedAreYoungAt(ts, now, window);
    if p != [] {
      assert p[0] in p;
    }
  }

  // The `retain` loop of `ClientWindow::prune`.
  method Retain(timestamps: seq<nat>, now: nat, window: nat) returns (kept: seq<nat>)
    ensures kept == Pruned(timestamps, now, window)
  {
    kept := [];
    for i := 0 to |timestamps|
      invariant kept == Pruned(timestamps[..i], now, window)
    {
      assert timestamps[..i + 1][..i] == timestamps[..i];
      if Age(now, timestamps[i]) < window {
        kept := kept + [timestamps[i]];
      }
    }
    assert timestamps[..|timestamps|] == timestamps;
  }

  lemma {:induction false} SetTwice(m: Lists, client: string, ts: seq<nat>, us: seq<nat>)
    ensures m[client := ts][client := us] == m[client := us]
    ensures client in m && m[client] == ts ==> m[client := ts] == m
  {
  }

  // A list with room in the budget accepts; a full one names the whole seconds, plus one, until its
  // oldest entry has expired, or two seconds if it has by now.
  predicate Decides(kept: seq<nat>, limits: Limits, tStamp: nat, r: Result<(), nat>) {
    match r
    case Ok(_) => |kept| % 0x1_0000_0000 < limits.maxTasks
    case Err(wait) =>
      && |kept| % 0x1_0000_0000 >= limits.maxTasks && kept != []
      && var left := kept[0] + limits.window - tStamp;
        wait == if tStamp < kept[0] then limits.window / 1_000_000_000 + 1
                else if left >= 0 then left / 1_000_000_000 + 1 else 2
  }

  lemma {:induction false} FullListDecides(kept: seq<nat>, limits: Limits, tStamp: nat)
    requires limits.Valid() && |kept| % U32 >= limits.maxTasks
    ensures kept != [] && Decides(kept, limits, tStamp, Err(RetryAfter(kept[0], tStamp, limits.window)))
  {
    var age := Age(tStamp, kept[0]);
    assert tStamp >= kept[0] ==> limits.window - age == kept[0] + limits.window - tStamp;
  }

  lemma {:induction false} CheckListDecides(ts: seq<nat>, limits: Limits, tPrune: nat, tStamp: nat)
    requires limits.Valid()
    ensures var kept, after := Pruned(ts, tPrune, limits.window), CheckList(ts, limits, tPrune, tStamp);
      && AreYoung(kept, ts, tPrune, limits.window) && Decides(kept, limits, tStamp, after.1)
      && after.0 == if after.1.Ok? then kept + [tStamp] else kept
  {
    var kept := Pruned(ts, tPrune, limits.window);
    PrunedAreYoung(ts, tPrune, limits.window);
    if |kept| % U32 >= limits.maxTasks {
      FullListDecides(kept, limits, tStamp);
    }
  }

  // A client is left iff it has a young entry, and then with just those.
  ghost predicate IsCleaned(after: Lists, before: Lists, window: nat, now: string -> nat) {
    && (forall c :: c in after <==>
          c in before && exists k: nat :: (k < |before[c]| && IsYoung(before[c][k], now(c), window)))
    && forall c :: c in after ==> AreYoung(after[c], before[c], now(c), window)
  }

  lemma {:induction false} CleanupMeans(before: Lists, window: nat, now: string -> nat)
    ensures IsCleaned(CleanupStep(before, window, now), before, window, now)
  {
    forall c | c in before
      ensures AreYoung(Pruned(before[c], now(c), window), before[c], now(c), window)
      ensures Pruned(before[c], now(c), window) != [] <==>
              exists k: nat :: k < |before[c]| && IsYoung(before[c][k], now(c), window)
    {
      PrunedAreYoung(before[c], now(c), window);
    }
  }

  /** The limiter.  Its table owns the per-client lists, so a client's window is the table's
      entry for that client; both public methods run under the table's write lock. */
  class PerClientRateLimiter {
    var windows: Lists
    const limits: Limits

    constructor (maxTasks: nat, windowSeconds: nat)
      requires maxTasks < U32
      ensures windows == map[] && limits == Limits(maxTasks, windowSeconds * 1_000_000_000)
    {
      windows := map[];
      limits := Limits(maxTasks, windowSeconds * SECOND);
    }

    method Check(client: string, tPrune: nat, tStamp: nat) returns (r: Result<(), nat>)
      requires limits.Valid()
      modifies this
      ensures (windows, r) == CheckStep(old(windows), client, limits, tPrune, tStamp)
      ensures exists kept ::
                && AreYoung(kept, if client in old(windows) then old(windows)[client] else [], tPrune, limits.window)
                && Decides(kept, limits, tStamp, r)
                && windows == old(windows)[client := if r.Ok? then kept + [tStamp] else kept]
    {
      CheckListDecides(Get(windows, client), limits, tPrune, tStamp);
      if client !in windows {
        windows := windows[client := []];
      }
      var kept := Retain(windows[client], tPrune, limits.window);
      SetTwice(old(windows), client, Get(windows, client), kept);
      windows := windows[client := kept];
      if |kept| % U32 >= limits.maxTasks {
        return Err(RetryAfter(kept[0], tStamp, limits.window));
      }
      SetTwice(old(windows), client, kept, kept + [tStamp]);
      windows := windows[client := kept + [tStamp]];
      return Ok(());
    }

    method Cleanup(now: string -> nat)
      modifies this
      ensures windows == CleanupStep(old(windows), limits.window, now)
      ensures IsCleaned(windows, old(windows), limits.window, now)
    {
      var todo := windows.Keys;
      while todo != {}
        invariant todo <= old(windows).Keys && todo <= windows.Keys <= old(windows).Keys
        invariant forall c :: c in todo ==> windows[c] == old(windows)[c]
        invariant forall c :: c in old(windows) && c !in todo ==>
                    (c in windows <==> Pruned(old(windows)[c], now(c), limits.window) != [])
        invariant forall c :: c in windows && c !in todo ==>
                    windows[c] == Pruned(old(windows)[c], now(c), limits.window)
        decreases todo
      {
        var c :| c in todo;
        var kept := Retain(windows[c], now(c), limits.window);
        windows := if kept != [] then windows[c := kept] else windows - {c};
        todo := todo - {c};
      }
      assert windows == CleanupStep(old(windows), limits.window, now);
      CleanupMeans(old(windows), limits.window, now);
    }
  }

  // ---- whole runs, against the full history of acceptances ----

  datatype Event =
    | Check(client: string, tPrune: nat, tStamp: nat)
    | Cleanup(now: string -> nat, tEnd: nat)

  datatype State = State(lists: Lists, history: Lists, clock: nat)

  const Start: State := State(map[], map[], 0)

  function Step(s: State, e: Event, limits: Limits): State
    requires limits.Valid()
  {
    match e
    case Check(c, tPrune, tStamp) =>
      var (lists, r) := CheckStep(s.lists, c, limits, tPrune, tStamp);
      State(lists, if r.Ok? then s.history[c := Get(s.history, c) + [tStamp]] else s.history, tStamp)
    case Cleanup(now, tEnd) => State(CleanupStep(s.lists, limits.window, now), s.history, tEnd)
  }

  // The clock never goes back: every reading lies between the end of the last event and its own end.
  ghost predicate InTime(clock: nat, e: Event) {
    match e
    case Check(_, tPrune, tStamp) => clock <= tPrune <= tStamp
    case Cleanup(now, tEnd) => forall c :: clock <= now(c) <= tEnd
  }

  function Run(s: State, events: seq<Event>, limits: Limits): State
    requires limits.Valid()
  {
    if events == [] then s
    else Step(Run(s, events[..|events| - 1], limits), events[|events| - 1], limits)
  }

  ghost predicate Monotone(s: State, events: seq<Event>, limits: Limits)
    requires limits.Valid()
  {
    events == [] ||
    (Monotone(s, events[..|events| - 1], limits) &&
     InTime(Run(s, events[..|events| - 1], limits).clock, events[|events| - 1]))
  }

  ghost predicate Sorted(h: seq<nat>) { forall i, j :: 0 <= i < j < |h| ==> h[i] <= h[j] }

  // An acceptance and the one a budget later are a window apart.
  ghost predicate Spaced(h: seq<nat>, limits: Limits) {
    forall i, j :: 0 <= i < j < |h| && j - i == limits.maxTasks ==> h[j] - h[i] >= limits.window
  }

  // The stored list is the history without a prefix of entries that have all expired.
  ghost predicate Tail(kept: seq<nat>, h: seq<nat>, clock: nat, window: nat, k: nat) {
    k <= |h| && kept == h[k..] && forall i :: 0 <= i < k ==> Age(clock, h[i]) >= window
  }

  ghost predicate ListInv(kept: seq<nat>, h: seq<nat>, clock: nat, limits: Limits) {
    && Sorted(h) && (forall i :: 0 <= i < |h| ==> h[i] <= clock)
    && Spaced(h, limits)
    && |kept| <= limits.maxTasks
    && exists k: nat :: Tail(kept, h, clock, limits.window, k)
  }

  ghost predicate Inv(s: State, limits: Limits) {
    forall c :: ListInv(Get(s.lists, c), Get(s.history, c), s.clock, limits)
  }

  lemma {:induction false} PrunedAdds(a: seq<nat>, b: seq<nat>, now: nat, window: nat)
    ensures Pruned(a + b, now, window) == Pruned(a, now, window) + Pruned(b, now, window)
    decreases |b|
  {
    if b == [] {
      assert a + b == a;
    } else {
      assert (a + b)[..|a + b| - 1] == a + b[..|b| - 1];
      PrunedAdds(a, b[..|b| - 1], now, window);
    }
  }

  lemma {:induction false} AllExpired(a: seq<nat>, now: nat, window: nat)
    requires forall i :: 0 <= i < |a| ==> Age(now, a[i]) >= window
    ensures Pruned(a, now, window) == []
  {
    if a != [] {
      AllExpired(a[..|a| - 1], now, window);
    }
  }

  lemma {:induction false} NoneExpired(a: seq<nat>, now: nat, window: nat)
    requires forall i :: 0 <= i < |a| ==> Age(now, a[i]) < window
    ensures Pruned(a, now, window) == a
  {
    if a != [] {
      NoneExpired(a[..|a| - 1], now, window);
    }
  }

  lemma {:induction false} ExpiredPrefixDrops(gone: seq<nat>, rest: seq<nat>, h: seq<nat>, now: nat, window: nat)
    requires h == gone + rest && forall i :: 0 <= i < |gone| ==> Age(now, gone[i]) >= window
    ensures Pruned(h, now, window) == Pruned(rest, now, window)
  {
    PrunedAdds(gone, rest, now, window);
    AllExpired(gone, now, window);
  }

  lemma {:induction false} FirstFresh(h: seq<nat>, now: nat, window: nat) returns (k: nat)
    requires Sorted(h) && forall i :: 0 <= i < |h| ==> h[i] <= now
    ensures k <= |h|
    ensures forall i :: 0 <= i < k ==> Age(now, h[i]) >= window
    ensures forall i :: k <= i < |h| ==> Age(now, h[i]) < window
  {
    k := 0;
    while k < |h| && Age(now, h[k]) >= window
      invariant k <= |h| && forall i :: 0 <= i < k ==> Age(now, h[i]) >= window
    {
      k := k + 1;
    }
  }

  // Pruning a sorted history removes a prefix: everything up to the last expired entry.
  lemma {:induction false} PrunedIsTail(h: seq<nat>, now: nat, window: nat) returns (k: nat)
    requires Sorted(h) && forall i :: 0 <= i < |h| ==> h[i] <= now
    ensures Tail(Pruned(h, now, window), h, now, window, k)
    ensures forall i :: k <= i < |h| ==> Age(now, h[i]) < window
  {
    k := FirstFresh(h, now, window);
    var rest := h[k..];
    assert h == h[..k] + rest;
    ExpiredPrefixDrops(h[..k], rest, h, now, window);
    NoneExpired(rest, now, window);
  }

  lemma {:induction false} TailSuffices(kept: seq<nat>, h: seq<nat>, clock: nat, now: nat, window: nat, k: nat)
    requires Tail(kept, h, clock, window, k) && clock <= now
    ensures Pruned(kept, now, window) == Pruned(h, now, window)
  {
    assert h == h[..k] + kept;
    ExpiredPrefixDrops(h[..k], kept, h, now, window);
  }

  // Pruning the stored list gives what pruning the whole history would give.
  lemma {:induction false} StoredListSuffices(kept: seq<nat>, h: seq<nat>, clock: nat, now: nat, limits: Limits)
    requires ListInv(kept, h, clock, limits) && clock <= now
    ensures Pruned(kept, now, limits.window) == Pruned(h, now, limits.window)
    ensures |Pruned(h, now, limits.window)| <= limits.maxTasks
  {
    var k: nat :| Tail(kept, h, clock, limits.window, k);
    TailSuffices(kept, h, clock, now, limits.window, k);
    PrunedLength(kept, now, limits.window);
  }

  lemma {:induction false} PrunedLength(a: seq<nat>, now: nat, window: nat)
    ensures |Pruned(a, now, window)| <= |a|
  {
    if a != [] {
      PrunedLength(a[..|a| - 1], now, window);
    }
  }

  lemma {:induction false} PruneKeepsInv(kept: seq<nat>, h: seq<nat>, clock: nat, now: nat, end: nat, limits: Limits)
    requires ListInv(kept, h, clock, limits) && clock <= now <= end
    ensures ListInv(Pruned(kept, now, limits.window), h, end, limits)
  {
    StoredListSuffices(kept, h, clock, now, limits);
    var k := PrunedIsTail(h, now, limits.window);
    assert Tail(Pruned(kept, now, limits.window), h, end, limits.window, k);
  }

  lemma {:induction false} WaitKeepsInv(kept: seq<nat>, h: seq<nat>, clock: nat, end: nat, limits: Limits)
    requires ListInv(kept, h, clock, limits) && clock <= end
    ensures ListInv(kept, h, end, limits)
  {
    var k: nat :| Tail(kept, h, clock, limits.window, k);
    assert Tail(kept, h, end, limits.window, k);
  }

  // A request admitted when the fresh entries are h[k..], fewer than maxTasks, keeps the spacing.
  lemma {:induction false} AcceptKeepsSpacing(h: seq<nat>, k: nat, tPrune: nat, tStamp: nat, limits: Limits)
    requires limits.Valid() && Spaced(h, limits) && k <= |h| < k + limits.maxTasks && tPrune <= tStamp
    requires forall i :: 0 <= i < k ==> h[i] <= tPrune && Age(tPrune, h[i]) >= limits.window
    ensures Spaced(h + [tStamp], limits)
  {
  }

  lemma {:induction false} AcceptKeepsInv(kept: seq<nat>, h: seq<nat>, clock: nat, tPrune: nat,
                                          tStamp: nat, limits: Limits)
    requires limits.Valid() && ListInv(kept, h, clock, limits) && clock <= tPrune <= tStamp
    requires |Pruned(h, tPrune, limits.window)| < limits.maxTasks
    ensures ListInv(Pruned(h, tPrune, limits.window) + [tStamp], h + [tStamp], tStamp, limits)
  {
    var k := PrunedIsTail(h, tPrune, limits.window);
    AcceptKeepsSpacing(h, k, tPrune, tStamp, limits);
    ExtendTail(Pruned(h, tPrune, limits.window), h, tPrune, tStamp, limits.window, k);
  }

  lemma {:induction false} ExtendTail(kept: seq<nat>, h: seq<nat>, clock: nat, end: nat, window: nat, k: nat)
    requires Tail(kept, h, clock, window, k) && clock <= end
    ensures Tail(kept + [end], h + [end], end, window, k)
  {
    assert (h + [end])[k..] == h[k..] + [end];
  }

  lemma {:induction false} CheckKeepsInv(kept: seq<nat>, h: seq<nat>, clock: nat, tPrune: nat,
                                         tStamp: nat, limits: Limits)
    requires limits.Valid() && ListInv(kept, h, clock, limits) && clock <= tPrune <= tStamp
    ensures var (ts, r) := CheckList(kept, limits, tPrune, tStamp);
      ListInv(ts, if r.Ok? then h + [tStamp] else h, tStamp, limits)
  {
    StoredListSuffices(kept, h, clock, tPrune, limits);
    CheckListCases(kept, h, limits, tPrune, tStamp);
    if |Pruned(h, tPrune, limits.window)| < limits.maxTasks {
      AcceptKeepsInv(kept, h, clock, tPrune, tStamp, limits);
    } else {
      PruneKeepsInv(kept, h, clock, tPrune, tStamp, limits);
    }
  }

  // The cast to 32 bits changes nothing for a list no longer than the budget.
  lemma {:induction false} CheckListCases(kept: seq<nat>, h: seq<nat>, limits: Limits, tPrune: nat, tStamp: nat)
    requires limits.Valid()
    requires Pruned(kept, tPrune, limits.window) == Pruned(h, tPrune, limits.window)
    requires |Pruned(h, tPrune, limits.window)| <= limits.maxTasks
    ensures var (ts, r) := CheckList(kept, limits, tPrune, tStamp);
      var live := Pruned(h, tPrune, limits.window);
      && (r.Ok? <==> |live| < limits.maxTasks)
      && ts == (if r.Ok? then live + [tStamp] else live)
      && (r.Err? ==> |live| == limits.maxTasks && r.error == RetryAfter(live[0], tStamp, limits.window))
  {
  }

  lemma {:induction false} StepKeepsInv(s: State, e: Event, limits: Limits)
    requires limits.Valid() && Inv(s, limits) && InTime(s.clock, e)
    ensures Inv(Step(s, e, limits), limits)
  {
    var s' := Step(s, e, limits);
    forall c ensures ListInv(Get(s'.lists, c), Get(s'.history, c), s'.clock, limits) {
      StepKeepsClient(s, e, limits, c);
    }
  }

  lemma {:induction false} StepKeepsClient(s: State, e: Event, limits: Limits, c: string)
    requires limits.Valid() && InTime(s.clock, e) && ListInv(Get(s.lists, c), Get(s.history, c), s.clock, limits)
    ensures var s' := Step(s, e, limits);
      ListInv(Get(s'.lists, c), Get(s'.history, c), s'.clock, limits)
  {
    var kept, h := Get(s.lists, c), Get(s.history, c);
    match e
    case Check(client, tPrune, tStamp) =>
      if c == client {
        CheckKeepsInv(kept, h, s.clock, tPrune, tStamp, limits);
      } else {
        WaitKeepsInv(kept, h, s.clock, tStamp, limits);
      }
    case Cleanup(now, tEnd) =>
      PruneKeepsInv(kept, h, s.clock, now(c), tEnd, limits);
  }

  lemma {:induction false} RunKeepsInv(s: State, events: seq<Event>, limits: Limits)
    requires limits.Valid() && Inv(s, limits) && Monotone(s, events, limits)
    ensures Inv(Run(s, events, limits), limits)
  {
    if events != [] {
      RunKeepsInv(s, events[..|events| - 1], limits);
      StepKeepsInv(Run(s, events[..|events| - 1], limits), events[|events| - 1], limits);
    }
  }

  lemma {:induction false} EveryRunKeepsInv(events: seq<Event>, limits: Limits)
    requires limits.Valid() && Monotone(Start, events, limits)
    ensures Inv(Run(Start, events, limits), limits)
  {
    forall c ensures ListInv(Get(Start.lists, c), Get(Start.history, c), Start.clock, limits) {
      assert Tail([], [], 0, limits.window, 0);
    }
    RunKeepsInv(Start, events, limits);
  }

  lemma {:induction false} DecidesLikeHistoryAt(s: State, limits: Limits, c: string, tPrune: nat, tStamp: nat)
    requires limits.Valid() && Inv(s, limits) && s.clock <= tPrune
    ensures CheckStep(s.lists, c, limits, tPrune, tStamp).1.Ok? <==>
      |Young(Get(s.history, c), tPrune, limits.window)| < limits.maxTasks
  {
    PrunedCountsYoung(Get(s.history, c), tPrune, limits.window);
    StoredListSuffices(Get(s.lists, c), Get(s.history, c), s.clock, tPrune, limits);
    CheckListCases(Get(s.lists, c), Get(s.history, c), limits, tPrune, tStamp);
  }

  // After any run of checks and cleanups, the next check accepts exactly when the full history
  // of acceptances has fewer than maxTasks entries younger than the window.
  lemma {:induction false} DecidesLikeFullHistory(events: seq<Event>, limits: Limits, c: string,
                                                  tPrune: nat, tStamp: nat)
    requires limits.Valid() && Monotone(Start, events, limits)
    requires InTime(Run(Start, events, limits).clock, Check(c, tPrune, tStamp))
    ensures var s := Run(Start, events, limits);
      CheckStep(s.lists, c, limits, tPrune, tStamp).1.Ok? <==>
      |Young(Get(s.history, c), tPrune, limits.window)| < limits.maxTasks
  {
    EveryRunKeepsInv(events, limits);
    DecidesLikeHistoryAt(Run(Start, events, limits), limits, c, tPrune, tStamp);
  }

  lemma {:induction false} SpacedAt(s: State, limits: Limits, c: string)
    requires limits.Valid() && Inv(s, limits)
    ensures Spaced(Get(s.history, c), limits) && |Get(s.lists, c)| % U32 == |Get(s.lists, c)| <= limits.maxTasks
  {
    assert ListInv(Get(s.lists, c), Get(s.history, c), s.clock, limits);
  }

  // In every run, maxTasks + 1 acceptances of one client span at least a window, and the stored
  // list is never longer than maxTasks, so its length survives the cast to 32 bits.
  lemma {:induction false} AcceptancesAreSpaced(events: seq<Event>, limits: Limits, c: string)
    requires limits.Valid() && Monotone(Start, events, limits)
    ensures var s := Run(Start, events, limits);
      && Spaced(Get(s.history, c), limits)
      && |Get(s.lists, c)| % U32 == |Get(s.lists, c)| <= limits.maxTasks
  {
    EveryRunKeepsInv(events, limits);
    SpacedAt(Run(Start, events, limits), limits, c);
  }

  // Waiting the told number of seconds takes the oldest entry out of the window.
  lemma {:induction false} WaitExpiresOldest(oldest: nat, now: nat, later: nat, window: nat)
    requires later >= now + RetryAfter(oldest, now, window) * SECOND
    ensures oldest <= now ==> Age(later, oldest) >= window
  {
  }

  // While the oldest entry is in the window the wait outlasts its expiry by at most a second.
  lemma {:induction false} WaitIsTight(oldest: nat, now: nat, window: nat)
    requires oldest <= now && Age(now, oldest) <= window
    ensures oldest + window < now + RetryAfter(oldest, now, window) * SECOND <= oldest + window + SECOND
  {
  }

  // A rejected list holds exactly maxTasks entries; once the first has expired one fits again.
  lemma {:induction false} WaitMakesRoom(kept: seq<nat>, h: seq<nat>, clock: nat, limits: Limits,
                                         tPrune: nat, tStamp: nat, later: nat)
    requires limits.Valid() && ListInv(kept, h, clock, limits) && clock <= tPrune <= tStamp
    requires var r := CheckList(kept, limits, tPrune, tStamp).1; r.Err? && later >= tStamp + r.error * SECOND
    ensures |Pruned(h, later, limits.window)| < limits.maxTasks
  {
    StoredListSuffices(kept, h, clock, tPrune, limits);
    CheckListCases(kept, h, limits, tPrune, tStamp);
    var k := PrunedIsTail(h, tPrune, limits.window);
    WaitExpiresOldest(h[k], tStamp, later, limits.window);
    var k' := PrunedIsTail(h, later, limits.window);
  }

  // A client that is rejected, waits as long as it was told, and has no request accepted in the
  // meantime is accepted, whatever other checks and cleanups come in between.
  lemma {:induction false} WaitIsHonoured(before: seq<Event>, between: seq<Event>, limits: Limits, c: string,
                                          tPrune: nat, tStamp: nat, tPrune': nat, tStamp': nat)
    requires limits.Valid() && Monotone(Start, before, limits)
    requires InTime(Run(Start, before, limits).clock, Check(c, tPrune, tStamp))
    requires var s := Run(Start, before, limits);
      var r := CheckStep(s.lists, c, limits, tPrune, tStamp).1;
      r.Err? && tPrune' >= tStamp + r.error * SECOND
    requires var s := Run(Start, before, limits);
      var s1 := Step(s, Check(c, tPrune, tStamp), limits);
      && Monotone(s1, between, limits)
      && InTime(Run(s1, between, limits).clock, Check(c, tPrune', tStamp'))
      && Get(Run(s1, between, limits).history, c) == Get(s.history, c)
    ensures var s1 := Step(Run(Start, before, limits), Check(c, tPrune, tStamp), limits);
      CheckStep(Run(s1, between, limits).lists, c, limits, tPrune', tStamp').1.Ok?
  {
    EveryRunKeepsInv(before, limits);
    var s := Run(Start, before, limits);
    WaitMakesRoom(Get(s.lists, c), Get(s.history, c), s.clock, limits, tPrune, tStamp, tPrune');
    StepKeepsInv(s, Check(c, tPrune, tStamp), limits);
    var s1 := Step(s, Check(c, tPrune, tStamp), limits);
    RunKeepsInv(s1, between, limits);
    PrunedCountsYoung(Get(s.history, c), tPrune', limits.window);
    DecidesLikeHistoryAt(Run(s1, between, limits), limits, c, tPrune', tStamp');
  }
}
