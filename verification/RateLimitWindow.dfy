/** How many charges a fixed-window limiter can let through in a sliding interval. */
module RateLimitWindow {
  import opened RateLimit
  import opened RateLimitRefinement

  /** Charges of key k accepted at a clock value in [lo, hi). */
  ghost function Charges(calls: seq<Call>, answers: seq<bool>, k: string, lo: int, hi: int): nat
    requires |answers| == |calls|
  {
    if calls == [] then 0
    else
      var n := |calls| - 1;
      Charges(calls[..n], answers[..n], k, lo, hi) +
      (if answers[n] && calls[n].limit > 0 && k in calls[n].Keys() && lo <= calls[n].now < hi then 1 else 0)
  }

  /** Every call that names key k uses the same limit and window. */
  ghost predicate UsedWith(calls: seq<Call>, k: string, limit: int, window: int) {
    forall i :: 0 <= i < |calls| && k in calls[i].Keys() ==> calls[i].limit == limit && calls[i].window == window
  }

  lemma {:induction false} ChargesSplit(calls: seq<Call>, answers: seq<bool>, k: string, lo: int, mid: int, hi: int)
    requires |answers| == |calls| && lo <= mid <= hi
    ensures Charges(calls, answers, k, lo, hi) ==
           Charges(calls, answers, k, lo, mid) + Charges(calls, answers, k, mid, hi)
  {
    if calls != [] {
      var n := |calls| - 1;
      ChargesSplit(calls[..n], answers[..n], k, lo, mid, hi);
    }
  }

  /** The facts about key k's table entry that the bound rests on, for a history (calls, answers) that
      ended in table t: the entry's window starts at its first charge, holds all later charges and at
      most `limit` of them, and fewer than `limit` charges lie in any shorter stretch before it. */
  ghost predicate WindowFacts(calls: seq<Call>, answers: seq<bool>, t: Table, k: string, limit: int, window: int)
    requires |answers| == |calls|
  {
    if k !in t then
      forall lo, hi :: Charges(calls, answers, k, lo, hi) == 0
    else
      var start := t[k].resetAt - window;
      && 1 <= t[k].count <= limit
      && (calls != [] && start <= calls[|calls| - 1].now)
      && (forall lo, hi :: lo >= start ==> Charges(calls, answers, k, lo, hi) <= t[k].count)
      && (forall lo, hi :: lo > start ==> Charges(calls, answers, k, lo, hi) <= t[k].count - 1)
      && (forall lo, hi :: lo >= start + window ==> Charges(calls, answers, k, lo, hi) == 0)
      && (forall lo, hi {:trigger Charges(calls, answers, k, lo, hi)} ::
            start - window < lo && hi <= start ==> Charges(calls, answers, k, lo, hi) <= limit - 1)
  }

  /** The most charges in an interval of one window's length: the clock is discrete, so a window of one unit
      is a single instant. */
  function MostIn(limit: int, window: int): int {
    if window == 1 then limit else 2 * limit - 1
  }

  ghost predicate Bounded(calls: seq<Call>, answers: seq<bool>, k: string, limit: int, window: int)
    requires |answers| == |calls|
  {
    forall lo, hi {:trigger Charges(calls, answers, k, lo, hi)} ::
      hi <= lo + window ==> Charges(calls, answers, k, lo, hi) <= MostIn(limit, window)
  }

  /** A call that charges k inside its open window. */
  lemma ChargeInOpenWindow(calls: seq<Call>, answers: seq<bool>, t: Table, t': Table,
                           k: string, limit: int, window: int)
    requires |answers| == |calls| > 0 && limit > 0 && window > 0
    requires var n := |calls| - 1; var c := calls[n];
             && answers[n] && c.limit == limit && c.window == window && k in c.Keys()
             && WindowFacts(calls[..n], answers[..n], t, k, limit, window)
             && Bounded(calls[..n], answers[..n], k, limit, window)
             && (n > 0 ==> calls[n - 1].now <= c.now)
             && IsLive(t, k, c.now) && t[k].count < limit
             && k in t' && t'[k] == t[k].(count := t[k].count + 1)
    ensures WindowFacts(calls, answers, t', k, limit, window)
    ensures Bounded(calls, answers, k, limit, window)
  {
    var n := |calls| - 1;
    var now, start := calls[n].now, t[k].resetAt - window;
    var pc, pa := calls[..n], answers[..n];
    assert forall lo, hi :: Charges(calls, answers, k, lo, hi) ==
             Charges(pc, pa, k, lo, hi) + if lo <= now < hi then 1 else 0;
    assert pc[|pc| - 1] == calls[n - 1];
    forall lo, hi | hi <= lo + window ensures Charges(calls, answers, k, lo, hi) <= MostIn(limit, window) {
      if lo <= now < hi && lo < start {
        ChargesSplit(calls, answers, k, lo, start, hi);
      }
    }
  }

  /** A call that charges k with no open window opens a new one. */
  lemma ChargeOpensWindow(calls: seq<Call>, answers: seq<bool>, t: Table, t': Table, k: string, limit: int, window: int)
    requires |answers| == |calls| > 0 && limit > 0 && window > 0
    requires var n := |calls| - 1; var c := calls[n];
             && answers[n] && c.limit == limit && c.window == window && k in c.Keys()
             && WindowFacts(calls[..n], answers[..n], t, k, limit, window)
             && Bounded(calls[..n], answers[..n], k, limit, window)
             && (n > 0 ==> calls[n - 1].now <= c.now)
             && !IsLive(t, k, c.now)
             && k in t' && t'[k] == Entry(c.now + window, 1)
    ensures WindowFacts(calls, answers, t', k, limit, window)
    ensures Bounded(calls, answers, k, limit, window)
  {
    var n := |calls| - 1;
    var now := calls[n].now;
    var pc, pa := calls[..n], answers[..n];
    assert forall lo, hi :: Charges(calls, answers, k, lo, hi) ==
             Charges(pc, pa, k, lo, hi) + if lo <= now < hi then 1 else 0;
    assert forall lo, hi :: lo >= now ==> Charges(pc, pa, k, lo, hi) == 0;
    assert forall lo, hi :: now - window < lo ==> Charges(pc, pa, k, lo, hi) <= limit - 1;
  }

  lemma {:induction false} ReferenceBound(cap: nat, calls: seq<Call>, k: string, limit: int, window: int)
    requires NonDecreasing(calls) && UsedWith(calls, k, limit, window) && limit > 0 && window > 0
    ensures var (t, answers) := ReferenceRun(map[], cap, calls);
            WindowFacts(calls, answers, t, k, limit, window) && Bounded(calls, answers, k, limit, window)
  {
    if calls != [] {
      var n := |calls| - 1;
      ReferenceBound(cap, calls[..n], k, limit, window);
      var (t, before) := ReferenceRun(map[], cap, calls[..n]);
      var (t', answers) := ReferenceRun(map[], cap, calls);
      assert answers[..n] == before;
      CallKeepsFacts(cap, calls, answers, t, t', k, limit, window);
    }
  }

  /** One more call, on a table that the facts hold of. */
  lemma CallKeepsFacts(cap: nat, calls: seq<Call>, answers: seq<bool>, t: Table, t': Table,
                       k: string, limit: int, window: int)
    requires NonDecreasing(calls) && UsedWith(calls, k, limit, window) && limit > 0 && window > 0
    requires |answers| == |calls| > 0
    requires var n := |calls| - 1; var c := calls[n];
             && answers[n] == Accepts(t, cap, c) && t' == Reference(t, cap, c)
             && WindowFacts(calls[..n], answers[..n], t, k, limit, window)
             && Bounded(calls[..n], answers[..n], k, limit, window)
    ensures WindowFacts(calls, answers, t', k, limit, window) && Bounded(calls, answers, k, limit, window)
  {
    var n := |calls| - 1;
    var c := calls[n];
    ReferenceOnKey(t, cap, c, k);
    if answers[n] && c.limit > 0 && k in c.Keys() {
      if IsLive(t, k, c.now) {
        ChargeInOpenWindow(calls, answers, t, t', k, limit, window);
      } else {
        ChargeOpensWindow(calls, answers, t, t', k, limit, window);
      }
    } else {
      UnchargedKeepsFacts(calls, answers, t, t', k, limit, window);
    }
  }

  /** What one call of the reference does to one key's entry. */
  lemma ReferenceOnKey(t: Table, cap: nat, c: Call, k: string)
    ensures var t' := Reference(t, cap, c);
            if Accepts(t, cap, c) && c.limit > 0 && k in c.Keys() then
              var e := Budget(t, k, c.window, c.now);
              e.count < c.limit && k in t' && t'[k] == e.(count := e.count + 1)
            else (k in t' <==> k in t) && (k in t ==> t'[k] == t[k])
  {
  }

  /** A call that does not charge k. */
  lemma UnchargedKeepsFacts(calls: seq<Call>, answers: seq<bool>, t: Table, t': Table,
                            k: string, limit: int, window: int)
    requires |answers| == |calls| > 0
    requires var n := |calls| - 1; var c := calls[n];
             && !(answers[n] && c.limit > 0 && k in c.Keys())
             && WindowFacts(calls[..n], answers[..n], t, k, limit, window)
             && Bounded(calls[..n], answers[..n], k, limit, window)
             && (n > 0 ==> calls[n - 1].now <= c.now)
    requires (k in t' <==> k in t) && (k in t ==> t'[k] == t[k])
    ensures WindowFacts(calls, answers, t', k, limit, window)
    ensures Bounded(calls, answers, k, limit, window)
  {
    var n := |calls| - 1;
    assert forall lo, hi :: Charges(calls, answers, k, lo, hi) == Charges(calls[..n], answers[..n], k, lo, hi);
    if k in t {
      assert calls[..n][n - 1] == calls[n - 1];
    }
  }

  /** For a key always used with one limit and window, the implementation accepts at most 2 * limit - 1
      charges (limit, for a window of one clock unit) in any half-open interval of one window's length,
      whatever happens to other keys and whenever entries are swept: an interval meets at most two windows,
      and misses the charge that opened the first of them. */
  lemma SlidingBound(cap: nat, calls: seq<Call>, k: string, limit: int, window: int, lo: int)
    requires NonDecreasing(calls) && UsedWith(calls, k, limit, window) && limit > 0 && window > 0
    ensures |Run(State(map[], 0, cap), calls).1| == |calls|
    ensures Charges(calls, Run(State(map[], 0, cap), calls).1, k, lo, lo + window) <= MostIn(limit, window)
  {
    var last := if calls == [] then 0 else calls[|calls| - 1].now;
    LimiterRefinesReference(cap, calls, last);
    ReferenceBound(cap, calls, k, limit, window);
  }

  // ---------------------------------------------------------------- the bound is exact

  /** n calls on one key: the first at 0, the rest of its window's budget just before the window ends,
      and the next window's budget the moment it ends. */
  ghost function Bursts(k: string, limit: nat, window: int, n: nat): (calls: seq<Call>)
    ensures |calls| == n
  {
    seq(n, i requires 0 <= i < n => Single(k, limit, window,
                  if i == 0 then 0 else if i < limit then window - 1 else window))
  }

  ghost function BurstTable(k: string, limit: nat, window: int, n: nat): Table {
    if n == 0 then map[]
    else if n <= limit then map[k := Entry(window, n)]
    else map[k := Entry(2 * window, n - limit)]
  }

  lemma LoneCharge(t: Table, k: string, window: int, now: int)
    requires t.Keys <= {k}
    ensures ChargeAll(t, {k}, window, now) == map[k := var e := Budget(t, k, window, now); e.(count := e.count + 1)]
  {
    assert ChargeAll(t, {k}, window, now).Keys == {k};
  }

  /** On a table that holds at most key k, a call on k alone passes whenever its budget is not spent. */
  lemma LoneKeyPasses(t: Table, cap: nat, c: Call, k: string)
    requires t.Keys <= {k} && cap >= 1 && c.limit > 0 && c.Keys() == {k}
    requires Budget(t, k, c.window, c.now).count < c.limit
    ensures Accepts(t, cap, c)
  {
    AcceptsOne(t, cap, c, k);
    if !IsLive(t, k, c.now) {
      assert Live(t, c.now) == map[];
    }
  }

  lemma BurstPasses(k: string, cap: nat, limit: nat, window: int, n: nat)
    requires k != "" && cap >= 1 && limit >= 1 && window >= 1 && n < 2 * limit
    ensures var c := Bursts(k, limit, window, 2 * limit)[n];
            var t := BurstTable(k, limit, window, n);
            Accepts(t, cap, c) && Reference(t, cap, c) == BurstTable(k, limit, window, n + 1)
  {
    var c := Bursts(k, limit, window, 2 * limit)[n];
    var t := BurstTable(k, limit, window, n);
    assert c.Keys() == {k};
    LoneCharge(t, k, c.window, c.now);
    LoneKeyPasses(t, cap, c, k);
  }

  lemma RunOneMore(cap: nat, calls: seq<Call>, c: Call)
    ensures var (t, answers) := ReferenceRun(map[], cap, calls);
            ReferenceRun(map[], cap, calls + [c]) == (Reference(t, cap, c), answers + [Accepts(t, cap, c)])
  {
    assert (calls + [c])[..|calls|] == calls;
  }

  lemma ChargesOneMore(calls: seq<Call>, answers: seq<bool>, c: Call, ok: bool, k: string, lo: int, hi: int)
    requires |answers| == |calls|
    ensures Charges(calls + [c], answers + [ok], k, lo, hi)
         == Charges(calls, answers, k, lo, hi) +
             (if ok && c.limit > 0 && k in c.Keys() && lo <= c.now < hi then 1 else 0)
  {
    assert (calls + [c])[..|calls|] == calls && (answers + [ok])[..|calls|] == answers;
  }

  /** How many of the first n calls fall into the window's length from window - 1 on. */
  function BurstCharges(limit: nat, window: int, n: nat): nat {
    if window == 1 then (if n <= limit then n else limit) else if n == 0 then 0 else n - 1
  }

  lemma {:induction false} BurstsAllPass(k: string, cap: nat, limit: nat, window: int, n: nat)
    requires k != "" && cap >= 1 && limit >= 1 && window >= 1 && n <= 2 * limit
    ensures var calls := Bursts(k, limit, window, 2 * limit)[..n];
            && ReferenceRun(map[], cap, calls).0 == BurstTable(k, limit, window, n)
            && Charges(calls, ReferenceRun(map[], cap, calls).1, k, window - 1, 2 * window - 1)
               == BurstCharges(limit, window, n)
  {
    if n > 0 {
      var all := Bursts(k, limit, window, 2 * limit);
      var calls, c := all[..n - 1], all[n - 1];
      assert all[..n] == calls + [c];
      BurstsAllPass(k, cap, limit, window, n - 1);
      BurstPasses(k, cap, limit, window, n - 1);
      RunOneMore(cap, calls, c);
      ChargesOneMore(calls, ReferenceRun(map[], cap, calls).1, c, true, k, window - 1, 2 * window - 1);
    }
  }

  lemma BurstsAreInOrder(k: string, limit: nat, window: int, calls: seq<Call>)
    requires calls == Bursts(k, limit, window, 2 * limit) && k != "" && limit >= 1 && window >= 1
    ensures NonDecreasing(calls) && UsedWith(calls, k, limit, window)
    ensures forall i :: 0 <= i < |calls| ==> calls[i].now <= window
  {
  }

  /** Every limit and window reaches its bound: some history lets exactly that many charges through in one
      window's length. */
  lemma SlidingBoundIsReached(k: string, cap: nat, limit: nat, window: int)
    requires k != "" && cap >= 1 && limit >= 1 && window >= 1
    ensures exists calls ::
              && NonDecreasing(calls) && UsedWith(calls, k, limit, window)
              && |Run(State(map[], 0, cap), calls).1| == |calls|
              && Charges(calls, Run(State(map[], 0, cap), calls).1, k, window - 1, 2 * window - 1)
                 == MostIn(limit, window)
  {
    var calls := Bursts(k, limit, window, 2 * limit);
    assert calls[..2 * limit] == calls;
    BurstsAreInOrder(k, limit, window, calls);
    BurstsAllPass(k, cap, limit, window, 2 * limit);
    LimiterRefinesReference(cap, calls, window);
  }
}
