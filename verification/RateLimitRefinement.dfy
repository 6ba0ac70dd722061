/** The limiter refines a reference that never sweeps: along every history whose calls enter the lock
    with non-decreasing clock values, each answer is the reference's answer. */
module RateLimitRefinement {
  import opened RateLimit

  // ---------------------------------------------------------------- one call

  lemma LiveIsSmaller(t: Table, now: int)
    ensures |Live(t, now)| <= |t|
  {
    var live := Live(t, now);
    assert live.Keys <= t.Keys;
    SubsetIsSmaller(live.Keys, t.Keys);
  }

  lemma {:induction false} SubsetIsSmaller<T>(a: set<T>, b: set<T>)
    requires a <= b
    ensures |a| <= |b|
  {
    if a != {} {
      var x :| x in a;
      SubsetIsSmaller(a - {x}, b - {x});
    }
  }

  /** Windows that are over stay over: later live views are views of the earlier one. */
  lemma LiveLater(t: Table, now: int, later: int)
    requires now <= later
    ensures Live(Live(t, now), later) == Live(t, later)
  {
  }

  lemma DropExpiredKeepsLive(t: Table, key: string, now: int)
    ensures Live(DropExpired(t, key, now), now) == Live(t, now)
    ensures |DropExpired(t, key, now)| <= |t|
  {
    SubsetIsSmaller(DropExpired(t, key, now).Keys, t.Keys);
  }

  /** Making room answers by the live keys alone and deletes no live key. */
  lemma MakeRoomExact(t: Table, cap: nat, now: int, needed: nat)
    ensures var (t', roomy) := MakeRoom(t, cap, now, needed);
            && (roomy <==> needed == 0 || |Live(t, now)| + needed <= cap)
            && Live(t', now) == Live(t, now)
            && |t'| <= |t|
            && (roomy ==> needed == 0 || |t'| + needed <= cap)
            && (forall k :: IsLive(t, k, now) ==> k in t')
  {
    LiveIsSmaller(t, now);
    assert Live(Live(t, now), now) == Live(t, now);
  }

  lemma CountCallKeepsLive(s: State, t: Table, now: int)
    ensures Live(CountCall(s, t, now).entries, now) == Live(t, now)
    ensures |CountCall(s, t, now).entries| <= |t|
    ensures CountCall(s, t, now).maxEntries == s.maxEntries
  {
    LiveIsSmaller(t, now);
    assert Live(Live(t, now), now) == Live(t, now);
  }

  /** The sweep-free reference looks only at live entries. */
  lemma BudgetOfLive(t: Table, ref: Table, key: string, window: int, now: int)
    requires Live(t, now) == Live(ref, now)
    ensures Budget(t, key, window, now) == Budget(ref, key, window, now)
    ensures IsLive(t, key, now) == IsLive(ref, key, now) == (key in Live(ref, now))
  {
    assert IsLive(t, key, now) <==> key in Live(t, now);
    assert IsLive(ref, key, now) <==> key in Live(ref, now);
    if IsLive(t, key, now) {
      assert Live(t, now)[key] == t[key] && Live(ref, now)[key] == ref[key];
    }
  }

  /** The live view after one entry is overwritten depends on the live view before only. */
  lemma LiveUpdate(t: Table, key: string, e: Entry, now: int)
    ensures Live(t[key := e], now) == if now < e.resetAt then Live(t, now)[key := e] else Live(t, now) - {key}
  {
  }

  lemma ChargeAllIsUpdates(ref: Table, first: string, second: string, window: int, now: int)
    ensures var a, b := Budget(ref, first, window, now), Budget(ref, second, window, now);
            ChargeAll(ref, {first, second}, window, now)
            == ref[first := a.(count := a.count + 1)][second := b.(count := b.count + 1)]
  {
  }

  lemma ChargeOneLive(t: Table, ref: Table, key: string, window: int, now: int)
    requires Live(t, now) == Live(ref, now)
    ensures var e := Budget(ref, key, window, now);
            Live(t[key := e.(count := e.count + 1)], now) == Live(ChargeAll(ref, {key}, window, now), now)
  {
    var e := Budget(ref, key, window, now);
    var e' := e.(count := e.count + 1);
    ChargeAllIsUpdates(ref, key, key, window, now);
    assert {key, key} == {key};
    assert ref[key := e'][key := e'] == ref[key := e'];
    LiveUpdate(t, key, e', now);
    LiveUpdate(ref, key, e', now);
  }

  lemma ChargeTwoLive(t: Table, ref: Table, first: string, second: string, window: int, now: int)
    requires Live(t, now) == Live(ref, now)
    ensures var a, b := Budget(ref, first, window, now), Budget(ref, second, window, now);
            Live(ChargePair(t, first, a, second, b), now) == Live(ChargeAll(ref, {first, second}, window, now), now)
  {
    var a, b := Budget(ref, first, window, now), Budget(ref, second, window, now);
    var a', b' := a.(count := a.count + 1), b.(count := b.count + 1);
    ChargeAllIsUpdates(ref, first, second, window, now);
    LiveUpdate(t, first, a', now);
    LiveUpdate(ref, first, a', now);
    LiveUpdate(t[first := a'], second, b', now);
    LiveUpdate(ref[first := a'], second, b', now);
  }

  ghost predicate Agree(s: State, ref: Table, now: int) {
    Live(s.entries, now) == Live(ref, now) && |s.entries| <= s.maxEntries
  }

  /** What a single charged key does to the implementation: its expired entry is dropped, then room is
      made if the key is new. */
  function Prepared(s: State, key: string, now: int): (Table, bool) {
    var t := DropExpired(s.entries, key, now);
    if key in t then (t, true) else MakeRoom(t, s.maxEntries, now, 1)
  }

  lemma PreparedAgrees(s: State, ref: Table, key: string, now: int)
    requires Agree(s, ref, now)
    ensures var (u, roomy) := Prepared(s, key, now);
            && Live(DropExpired(s.entries, key, now), now) == Live(u, now) == Live(ref, now)
            && |DropExpired(s.entries, key, now)| <= s.maxEntries && |u| <= s.maxEntries
            && (roomy <==> IsLive(ref, key, now) || |Live(ref, now)| + 1 <= s.maxEntries)
            && (roomy && key !in u ==> |u| + 1 <= s.maxEntries)
            && (key !in DropExpired(s.entries, key, now) ==> !IsLive(ref, key, now))
  {
    var t := DropExpired(s.entries, key, now);
    DropExpiredKeepsLive(s.entries, key, now);
    BudgetOfLive(t, ref, key, 0, now);
    MakeRoomExact(t, s.maxEntries, now, 1);
  }

  lemma ChargedAgrees(s: State, u: Table, ref: Table, key: string, window: int, now: int)
    requires Live(u, now) == Live(ref, now) && |u| <= s.maxEntries
    requires key !in u ==> |u| + 1 <= s.maxEntries
    ensures var e := Budget(ref, key, window, now);
            Agree(CountCall(s, u[key := e.(count := e.count + 1)], now), ChargeAll(ref, {key}, window, now), now)
  {
    var e := Budget(ref, key, window, now);
    ChargeOneLive(u, ref, key, window, now);
    UpdateSize(u, key, e.(count := e.count + 1));
    CountedAgrees(s, u[key := e.(count := e.count + 1)], ChargeAll(ref, {key}, window, now), now);
  }

  /** The reference's capacity rule for a given number of newly needed keys. */
  ghost predicate RoomFor(ref: Table, cap: nat, needed: nat, now: int) {
    needed == 0 || |Live(ref, now)| + needed <= cap
  }

  function Need(ref: Table, key: string, now: int): nat {
    if IsLive(ref, key, now) then 0 else 1
  }

  lemma SizeOfPairWithout(first: string, second: string, x: set<string>)
    requires first != second
    ensures |{first, second} - x| == (if first in x then 0 else 1) + (if second in x then 0 else 1)
  {
    var missing := {first, second} - x;
    if first in x && second in x {
      assert missing == {};
    } else if first in x {
      assert missing == {second};
    } else if second in x {
      assert missing == {first};
    } else {
      assert missing == {first, second};
    }
  }

  lemma AcceptsOne(ref: Table, cap: nat, c: Call, key: string)
    requires c.limit > 0 && c.Keys() == {key}
    ensures Accepts(ref, cap, c) <==>
            && Budget(ref, key, c.window, c.now).count < c.limit
            && RoomFor(ref, cap, Need(ref, key, c.now), c.now)
  {
    var live := Live(ref, c.now).Keys;
    assert {key} - live == if key in live then {} else {key};
    assert key in live <==> IsLive(ref, key, c.now);
  }

  lemma FitsBoth(ref: Table, first: string, second: string, limit: int, window: int, now: int)
    ensures Fits(ref, {first, second}, limit, window, now) <==>
            Budget(ref, first, window, now).count < limit && Budget(ref, second, window, now).count < limit
  {
  }

  lemma AcceptsTwo(ref: Table, cap: nat, c: Call, first: string, second: string)
    requires c.limit > 0 && c.Keys() == {first, second} && first != second
    ensures Accepts(ref, cap, c) <==>
            && Budget(ref, first, c.window, c.now).count < c.limit
            && Budget(ref, second, c.window, c.now).count < c.limit
            && RoomFor(ref, cap, Need(ref, first, c.now) + Need(ref, second, c.now), c.now)
  {
    var live := Live(ref, c.now).Keys;
    SizeOfPairWithout(first, second, live);
    assert first in live <==> IsLive(ref, first, c.now);
    assert second in live <==> IsLive(ref, second, c.now);
    FitsBoth(ref, first, second, c.limit, c.window, c.now);
    var missing := {first, second} - live;
    assert |missing| == Need(ref, first, c.now) + Need(ref, second, c.now);
    assert missing == {} <==> |missing| == 0;
  }

  /** What one accepted or rejected call on `keys` must leave behind. */
  ghost predicate Settled(s: State, ref: Table, keys: set<string>, window: int, now: int, s': State, ok: bool) {
    && s'.maxEntries == s.maxEntries
    && (ok ==> Agree(s', ChargeAll(ref, keys, window, now), now))
    && (!ok ==> Agree(s', ref, now))
  }

  lemma AllowRefines(s: State, ref: Table, rawKey: string, limit: int, window: int, now: int)
    requires Agree(s, ref, now) && limit > 0
    ensures var (s', ok) := AllowStep(s, rawKey, limit, window, now);
            var key := NormalizeKey(rawKey);
            && (ok <==> Budget(ref, key, window, now).count < limit
                         && RoomFor(ref, s.maxEntries, Need(ref, key, now), now))
            && Settled(s, ref, {key}, window, now, s', ok)
  {
    var key := NormalizeKey(rawKey);
    var (u, roomy) := Prepared(s, key, now);
    PreparedAgrees(s, ref, key, now);
    BudgetOfLive(s.entries, ref, key, window, now);
    if !roomy {
      assert AllowStep(s, rawKey, limit, window, now) == (s.(entries := u), false);
    } else {
      var e := Budget(ref, key, window, now);
      assert AllowStep(s, rawKey, limit, window, now) == ChargeIfFits(s.(entries := u), key, e, limit, now);
      ChargeIfFitsRefines(s.(entries := u), ref, key, limit, window, now);
    }
  }

  lemma ChargeIfFitsRefines(s: State, ref: Table, key: string, limit: int, window: int, now: int)
    requires Agree(s, ref, now) && (key !in s.entries ==> |s.entries| + 1 <= s.maxEntries)
    ensures var (s', ok) := ChargeIfFits(s, key, Budget(ref, key, window, now), limit, now);
            (ok <==> Budget(ref, key, window, now).count < limit) && Settled(s, ref, {key}, window, now, s', ok)
  {
    ChargedAgrees(s, s.entries, ref, key, window, now);
  }

  lemma EqualPairRefines(s: State, ref: Table, key: string, limit: int, window: int, now: int)
    requires Agree(s, ref, now) && limit > 0
    ensures var (s', ok) := EqualPairStep(s, key, limit, window, now);
            && (ok <==> Budget(ref, key, window, now).count < limit
                         && RoomFor(ref, s.maxEntries, Need(ref, key, now), now))
            && Settled(s, ref, {key}, window, now, s', ok)
  {
    var (u, roomy) := Prepared(s, key, now);
    PreparedAgrees(s, ref, key, now);
    BudgetOfLive(s.entries, ref, key, window, now);
    var e := Budget(ref, key, window, now);
    var step := EqualPairStep(s, key, limit, window, now);
    if e.count >= limit {
      assert step == (s.(entries := DropExpired(s.entries, key, now)), false);
    } else if !roomy {
      assert step == (s.(entries := u), false);
    } else {
      assert step == (CountCall(s, u[key := e.(count := e.count + 1)], now), true);
      ChargedAgrees(s, u, ref, key, window, now);
    }
  }

  lemma ChargeTwoRefines(s: State, ref: Table, first: string, second: string, window: int, now: int)
    requires Agree(s, ref, now) && first != second
    requires first in s.entries <==> IsLive(ref, first, now)
    requires second in s.entries <==> IsLive(ref, second, now)
    ensures var a, b := Budget(ref, first, window, now), Budget(ref, second, window, now);
            var needed := Need(ref, first, now) + Need(ref, second, now);
            var (s', ok) := ChargeTwoStep(s, first, a, second, b, needed, now);
            && (ok <==> RoomFor(ref, s.maxEntries, needed, now))
            && Settled(s, ref, {first, second}, window, now, s', ok)
  {
    var needed := Need(ref, first, now) + Need(ref, second, now);
    var (u, roomy) := MakeRoom(s.entries, s.maxEntries, now, needed);
    var a, b := Budget(ref, first, window, now), Budget(ref, second, window, now);
    var (s', ok) := ChargeTwoStep(s, first, a, second, b, needed, now);
    RoomForTwo(s, ref, first, second, now);
    if roomy {
      ChargedPairIsLive(s.maxEntries, u, ref, first, second, window, now);
      CountedAgrees(s, ChargePair(u, first, a, second, b), ChargeAll(ref, {first, second}, window, now), now);
    }
  }

  lemma CountedAgrees(s: State, t: Table, ref: Table, now: int)
    requires Live(t, now) == Live(ref, now) && |t| <= s.maxEntries
    ensures Agree(CountCall(s, t, now), ref, now)
  {
    CountCallKeepsLive(s, t, now);
  }

  lemma RoomForTwo(s: State, ref: Table, first: string, second: string, now: int)
    requires Agree(s, ref, now) && first != second
    requires first in s.entries <==> IsLive(ref, first, now)
    requires second in s.entries <==> IsLive(ref, second, now)
    ensures var needed := Need(ref, first, now) + Need(ref, second, now);
            var (u, roomy) := MakeRoom(s.entries, s.maxEntries, now, needed);
            && (roomy <==> RoomFor(ref, s.maxEntries, needed, now))
            && Live(u, now) == Live(ref, now) && |u| <= s.maxEntries
            && (roomy ==> |u| + (if first in u then 0 else 1) + (if second in u then 0 else 1) <= s.maxEntries)
  {
    var needed := Need(ref, first, now) + Need(ref, second, now);
    MakeRoomExact(s.entries, s.maxEntries, now, needed);
    BudgetOfLive(s.entries, ref, first, 0, now);
    BudgetOfLive(s.entries, ref, second, 0, now);
  }

  lemma UpdateSize(t: Table, key: string, e: Entry)
    ensures |t[key := e]| == |t| + (if key in t then 0 else 1)
  {
  }

  lemma ChargedPairIsLive(cap: nat, u: Table, ref: Table, first: string, second: string, window: int, now: int)
    requires Live(u, now) == Live(ref, now) && first != second
    requires |u| + (if first in u then 0 else 1) + (if second in u then 0 else 1) <= cap
    ensures var a, b := Budget(ref, first, window, now), Budget(ref, second, window, now);
            && Live(ChargePair(u, first, a, second, b), now) == Live(ChargeAll(ref, {first, second}, window, now), now)
            && |ChargePair(u, first, a, second, b)| <= cap
  {
    var a, b := Budget(ref, first, window, now), Budget(ref, second, window, now);
    var one := u[first := a.(count := a.count + 1)];
    UpdateSize(u, first, a.(count := a.count + 1));
    UpdateSize(one, second, b.(count := b.count + 1));
    ChargeTwoLive(u, ref, first, second, window, now);
  }

  /** After the lazy deletions of a pair, an entry for either key is there exactly when it is live. */
  lemma DropBoth(t: Table, ref: Table, first: string, second: string, now: int)
    requires Live(t, now) == Live(ref, now)
    ensures var u := DropExpired(DropExpired(t, first, now), second, now);
            && Live(u, now) == Live(ref, now) && |u| <= |t|
            && (first in u <==> IsLive(ref, first, now))
            && (second in u <==> IsLive(ref, second, now))
  {
    var v := DropExpired(t, first, now);
    DropExpiredKeepsLive(t, first, now);
    DropExpiredKeepsLive(v, second, now);
    BudgetOfLive(t, ref, first, 0, now);
    BudgetOfLive(t, ref, second, 0, now);
  }

  lemma DistinctPairRefines(s: State, ref: Table, first: string, second: string, limit: int, window: int, now: int)
    requires Agree(s, ref, now) && limit > 0 && first != second
    ensures var (s', ok) := DistinctPairStep(s, first, second, limit, window, now);
            && (ok <==> && Budget(ref, first, window, now).count < limit
                        && Budget(ref, second, window, now).count < limit
                        && RoomFor(ref, s.maxEntries, Need(ref, first, now) + Need(ref, second, now), now))
            && Settled(s, ref, {first, second}, window, now, s', ok)
  {
    var t := DropExpired(DropExpired(s.entries, first, now), second, now);
    DropBoth(s.entries, ref, first, second, now);
    BudgetOfLive(s.entries, ref, first, window, now);
    BudgetOfLive(s.entries, ref, second, window, now);
    ChargeTwoRefines(s.(entries := t), ref, first, second, window, now);
  }

  /** One call of either kind, from agreeing states: the answer is the reference's and the states
      agree again. */
  lemma StepRefines(s: State, ref: Table, c: Call)
    requires Agree(s, ref, c.now)
    ensures var (s', ok) := Step(s, c);
            && (ok <==> Accepts(ref, s.maxEntries, c))
            && s'.maxEntries == s.maxEntries
            && Agree(s', Reference(ref, s.maxEntries, c), c.now)
  {
    if c.limit > 0 {
      match c
      case Single(key, limit, window, now) =>
        var a := NormalizeKey(key);
        AllowRefines(s, ref, key, limit, window, now);
        AcceptsOne(ref, s.maxEntries, c, a);
      case Pair(first, second, limit, window, now) =>
        var a, b := NormalizeKey(first), NormalizeKey(second);
        if a == b {
          assert c.Keys() == {a};
          EqualPairRefines(s, ref, a, limit, window, now);
          AcceptsOne(ref, s.maxEntries, c, a);
        } else {
          DistinctPairRefines(s, ref, a, b, limit, window, now);
          AcceptsTwo(ref, s.maxEntries, c, a, b);
        }
    }
  }

  // ---------------------------------------------------------------- whole histories

  ghost predicate NonDecreasing(calls: seq<Call>) {
    forall i, j :: 0 <= i < j < |calls| ==> calls[i].now <= calls[j].now
  }

  ghost function Run(s: State, calls: seq<Call>): (State, seq<bool>) {
    if calls == [] then (s, [])
    else
      var n := |calls| - 1;
      var (s1, answers) := Run(s, calls[..n]);
      var (s2, ok) := Step(s1, calls[n]);
      (s2, answers + [ok])
  }

  ghost function ReferenceRun(t: Table, cap: nat, calls: seq<Call>): (r: (Table, seq<bool>))
    ensures |r.1| == |calls|
  {
    if calls == [] then (t, [])
    else
      var n := |calls| - 1;
      var (t1, answers) := ReferenceRun(t, cap, calls[..n]);
      (Reference(t1, cap, calls[n]), answers + [Accepts(t1, cap, calls[n])])
  }

  /** For every history with non-decreasing clocks, lazy deletion, sweeps and the emergency clean-up
      are invisible: every answer equals the never-sweeping reference's, the live budgets agree
      afterwards, and the table never exceeds its cap. */
  lemma {:induction false} LimiterRefinesReference(cap: nat, calls: seq<Call>, now: int)
    requires NonDecreasing(calls)
    requires forall i :: 0 <= i < |calls| ==> calls[i].now <= now
    ensures Run(State(map[], 0, cap), calls).1 == ReferenceRun(map[], cap, calls).1
    ensures Live(Run(State(map[], 0, cap), calls).0.entries, now) == Live(ReferenceRun(map[], cap, calls).0, now)
    ensures |Run(State(map[], 0, cap), calls).0.entries| <= cap
    ensures Run(State(map[], 0, cap), calls).0.maxEntries == cap
  {
    if calls != [] {
      var n := |calls| - 1;
      var c := calls[n];
      LimiterRefinesReference(cap, calls[..n], c.now);
      var s1 := Run(State(map[], 0, cap), calls[..n]).0;
      var t1 := ReferenceRun(map[], cap, calls[..n]).0;
      StepRefines(s1, t1, c);
      LiveLater(Step(s1, c).0.entries, c.now, now);
      LiveLater(Reference(t1, cap, c), c.now, now);
    }
  }

  /** A rejected call changes no live budget; an accepted one charges every key it names exactly one
      unit (so a pair charges both or neither, and equal keys once) and no other live budget. */
  lemma CallChargesAllOrNothing(s: State, c: Call, k: string, window: int)
    requires |s.entries| <= s.maxEntries
    requires c.limit > 0
    ensures var (s', ok) := Step(s, c);
            && (!ok ==> Live(s'.entries, c.now) == Live(s.entries, c.now))
            && (ok && k !in c.Keys() ==> Budget(s'.entries, k, window, c.now) == Budget(s.entries, k, window, c.now))
            && (ok && k in c.Keys() && c.window > 0 ==>
                  var before := Budget(s.entries, k, c.window, c.now);
                  && before.count < c.limit
                  && Budget(s'.entries, k, window, c.now) == before.(count := before.count + 1))
  {
    StepRefines(s, s.entries, c);
    var (s', ok) := Step(s, c);
    BudgetOfLive(s'.entries, Reference(s.entries, s.maxEntries, c), k, window, c.now);
  }

  // ---------------------------------------------------------------- keys, disabled limits, sweeps

  /** No key and the key "unknown" are one budget, in single calls and in either place of a pair. */
  lemma EmptyKeyIsUnknown(s: State, other: string, limit: int, window: int, now: int)
    ensures Step(s, Single("", limit, window, now)) == Step(s, Single("unknown", limit, window, now))
    ensures Step(s, Pair("", other, limit, window, now)) == Step(s, Pair("unknown", other, limit, window, now))
    ensures Step(s, Pair(other, "", limit, window, now)) == Step(s, Pair(other, "unknown", limit, window, now))
  {
  }

  /** And every other key is a budget of its own. */
  lemma OtherKeysAreApart(a: string, b: string)
    requires a != "" && b != "" && a != b
    ensures Single(a, 1, 1, 0).Keys() !! Single(b, 1, 1, 0).Keys() && |Pair(a, b, 1, 1, 0).Keys()| == 2
  {
    SizeOfPairWithout(a, b, {});
    assert Pair(a, b, 1, 1, 0).Keys() == {a, b} - {};
  }

  /** A limit of zero or less lets every call pass and charges nothing. */
  lemma DisabledLimitPasses(s: State, c: Call)
    requires c.limit <= 0
    ensures Step(s, c) == (s, true)
  {
  }

  /** How many calls were charged. */
  ghost function ChargedCalls(calls: seq<Call>, answers: seq<bool>): nat
    requires |answers| == |calls|
  {
    if calls == [] then 0
    else
      var n := |calls| - 1;
      ChargedCalls(calls[..n], answers[..n]) + (if answers[n] && calls[n].limit > 0 then 1 else 0)
  }

  lemma StepCounts(s: State, c: Call)
    ensures var (s', ok) := Step(s, c);
            && s'.calls == s.calls + (if ok && c.limit > 0 then 1 else 0)
            && (ok && c.limit > 0 && s'.calls % 1024 == 0 ==> s'.entries == Live(s'.entries, c.now))
  {
    if c.limit > 0 && Step(s, c).1 {
      CountingSweeps(s, c);
    }
  }

  lemma CountingSweeps(s: State, c: Call)
    requires c.limit > 0 && Step(s, c).1
    ensures Step(s, c).0.calls == s.calls + 1
    ensures Step(s, c).0.calls % 1024 == 0 ==> Step(s, c).0.entries == Live(Step(s, c).0.entries, c.now)
  {
  }

  /** The limiter counts the calls it charges, and right after every 1024th of them its table holds open windows
      only, whatever the history and the clock. */
  lemma {:induction false} SweptEvery1024Charges(cap: nat, calls: seq<Call>)
    ensures var (s, answers) := Run(State(map[], 0, cap), calls);
            && |answers| == |calls| && s.calls == ChargedCalls(calls, answers)
            && (calls != [] && answers[|calls| - 1] && calls[|calls| - 1].limit > 0 && s.calls % 1024 == 0 ==>
                  forall k :: k in s.entries ==> calls[|calls| - 1].now < s.entries[k].resetAt)
  {
    if calls != [] {
      var n := |calls| - 1;
      SweptEvery1024Charges(cap, calls[..n]);
      var (s, before) := Run(State(map[], 0, cap), calls[..n]);
      var answers := Run(State(map[], 0, cap), calls).1;
      assert answers[..n] == before;
      StepCounts(s, calls[n]);
    }
  }

  // ---------------------------------------------------------------- clocks out of order

  /** Whatever the clock values, in any order, the table never exceeds its cap. */
  lemma {:induction false} CapHoldsInAnyOrder(cap: nat, calls: seq<Call>)
    ensures var s := Run(State(map[], 0, cap), calls).0; s.maxEntries == cap && |s.entries| <= cap
  {
    if calls != [] {
      var n := |calls| - 1;
      CapHoldsInAnyOrder(cap, calls[..n]);
      var s := Run(State(map[], 0, cap), calls[..n]).0;
      StepRefines(s, s.entries, calls[n]);
    }
  }

  /** One more call of each kind. */
  lemma RunMore(s: State, calls: seq<Call>, s1: State, answers: seq<bool>, c: Call, s2: State, ok: bool)
    requires Run(s, calls) == (s1, answers) && Step(s1, c) == (s2, ok)
    ensures Run(s, calls + [c]) == (s2, answers + [ok])
  {
    assert (calls + [c])[..|calls|] == calls;
  }

  lemma ReferenceMore(t: Table, cap: nat, calls: seq<Call>, t1: Table, answers: seq<bool>, c: Call, t2: Table, ok: bool)
    requires ReferenceRun(t, cap, calls) == (t1, answers) && Accepts(t1, cap, c) == ok && Reference(t1, cap, c) == t2
    ensures ReferenceRun(t, cap, calls + [c]) == (t2, answers + [ok])
  {
    assert (calls + [c])[..|calls|] == calls;
  }

  /** A call on a new key that passes, on a table with room. */
  lemma FreshCall(s: State, key: string, window: int, now: int)
    requires key != "" && key !in s.entries && |s.entries| + 1 <= s.maxEntries && s.calls < 1023
    ensures Step(s, Single(key, 1, window, now))
         == (State(s.entries[key := Entry(now + window, 1)], s.calls + 1, s.maxEntries), true)
  {
  }

  /** A call on a new key, on a full table all of whose windows are over. */
  lemma FreshCallAfterCleanup(s: State, key: string, window: int, now: int)
    requires key != "" && key !in s.entries && |s.entries| == s.maxEntries >= 1 && s.calls < 1023
    requires forall k :: k in s.entries ==> s.entries[k].resetAt <= now
    ensures Step(s, Single(key, 1, window, now))
         == (State(map[key := Entry(now + window, 1)], s.calls + 1, s.maxEntries), true)
  {
    assert Live(s.entries, now) == map[];
  }

  lemma FreshReference(t: Table, cap: nat, key: string, window: int, now: int)
    requires key != "" && key !in t && |Live(t, now)| + 1 <= cap
    ensures Accepts(t, cap, Single(key, 1, window, now))
    ensures Reference(t, cap, Single(key, 1, window, now)) == t[key := Entry(now + window, 1)]
  {
    var c := Single(key, 1, window, now);
    assert c.Keys() == {key};
    AcceptsOne(t, cap, c, key);
    FreshCharge(t, key, window, now);
  }

  lemma FreshCharge(t: Table, key: string, window: int, now: int)
    requires key !in t
    ensures ChargeAll(t, {key}, window, now) == t[key := Entry(now + window, 1)]
  {
  }

  /** A call whose key has used up its limit is refused. */
  lemma SpentReference(t: Table, cap: nat, key: string, window: int, now: int)
    requires key != "" && IsLive(t, key, now) && t[key].count >= 1
    ensures !Accepts(t, cap, Single(key, 1, window, now)) && Reference(t, cap, Single(key, 1, window, now)) == t
  {
    assert key in Single(key, 1, window, now).Keys();
    assert Budget(t, key, window, now) == t[key];
  }

  /** With clock values out of order the limiter need not answer as the reference. With room for two keys: key a
      is charged at 0, for a window of 10 and a limit of 1; a call at 30 has its entry cleaned up; and a call
      that read 5 before, and enters the lock after, passes. */
  lemma ClockOrderMatters(a: string, b: string, c: string)
    requires a != "" && b != "" && c != "" && a != b && b != c && a != c
    ensures var calls := [Single(a, 1, 10, 0)] + [Single(b, 1, 1, 20)] + [Single(c, 1, 1, 30)] + [Single(a, 1, 10, 5)];
            && Run(State(map[], 0, 2), calls).1 == [true, true, true, true]
            && ReferenceRun(map[], 2, calls).1 == [true, true, true, false]
  {
    InOrderPart(a, b, c);
    var calls := [Single(a, 1, 10, 0)] + [Single(b, 1, 1, 20)] + [Single(c, 1, 1, 30)];
    var s: State := State(map[c := Entry(31, 1)], 3, 2);
    var t := ThreeEntries(a, b, c);
    FreshCall(s, a, 10, 5);
    RunMore(State(map[], 0, 2), calls, s, [true, true, true], Single(a, 1, 10, 5),
            State(s.entries[a := Entry(15, 1)], 4, 2), true);
    SpentReference(t, 2, a, 10, 5);
    ReferenceMore(map[], 2, calls, t, [true, true, true], Single(a, 1, 10, 5), t, false);
  }

  function ThreeEntries(a: string, b: string, c: string): Table {
    map[a := Entry(10, 1)][b := Entry(21, 1)][c := Entry(31, 1)]
  }

  lemma InOrderPart(a: string, b: string, c: string)
    requires a != "" && b != "" && c != "" && a != b && b != c && a != c
    ensures var calls := [Single(a, 1, 10, 0)] + [Single(b, 1, 1, 20)] + [Single(c, 1, 1, 30)];
            && Run(State(map[], 0, 2), calls) == (State(map[c := Entry(31, 1)], 3, 2), [true, true, true])
            && ReferenceRun(map[], 2, calls) == (ThreeEntries(a, b, c), [true, true, true])
  {
    FirstTwo(a, b);
    var calls := [Single(a, 1, 10, 0)] + [Single(b, 1, 1, 20)];
    var t: Table := map[a := Entry(10, 1)][b := Entry(21, 1)];
    FreshCallAfterCleanup(State(t, 2, 2), c, 1, 30);
    RunMore(State(map[], 0, 2), calls, State(t, 2, 2), [true, true], Single(c, 1, 1, 30),
            State(map[c := Entry(31, 1)], 3, 2), true);
    assert Live(t, 30) == map[];
    FreshReference(t, 2, c, 1, 30);
    ReferenceMore(map[], 2, calls, t, [true, true], Single(c, 1, 1, 30), ThreeEntries(a, b, c), true);
    assert [true, true] + [true] == [true, true, true];
  }

  lemma FirstTwo(a: string, b: string)
    requires a != "" && b != "" && a != b
    ensures var calls := [Single(a, 1, 10, 0)] + [Single(b, 1, 1, 20)];
            var t: Table := map[a := Entry(10, 1)][b := Entry(21, 1)];
            && Run(State(map[], 0, 2), calls) == (State(t, 2, 2), [true, true])
            && ReferenceRun(map[], 2, calls) == (t, [true, true])
  {
    FirstOne(a);
    var t: Table := map[a := Entry(10, 1)];
    FreshCall(State(t, 1, 2), b, 1, 20);
    RunMore(State(map[], 0, 2), [Single(a, 1, 10, 0)], State(t, 1, 2), [true], Single(b, 1, 1, 20),
            State(t[b := Entry(21, 1)], 2, 2), true);
    assert Live(t, 20) == map[];
    FreshReference(t, 2, b, 1, 20);
    ReferenceMore(map[], 2, [Single(a, 1, 10, 0)], t, [true], Single(b, 1, 1, 20), t[b := Entry(21, 1)], true);
    assert [true] + [true] == [true, true];
  }

  lemma FirstOne(a: string)
    requires a != ""
    ensures Run(State(map[], 0, 2), [Single(a, 1, 10, 0)]) == (State(map[a := Entry(10, 1)], 1, 2), [true])
    ensures ReferenceRun(map[], 2, [Single(a, 1, 10, 0)]) == (map[a := Entry(10, 1)], [true])
  {
    var c, t := Single(a, 1, 10, 0), map[a := Entry(10, 1)];
    assert [] + [c] == [c];
    FreshCall(State(map[], 0, 2), a, 10, 0);
    RunMore(State(map[], 0, 2), [], State(map[], 0, 2), [], c, State(t, 1, 2), true);
    assert Live(map[], 0) == map[];
    FreshReference(map[], 2, a, 10, 0);
    ReferenceMore(map[], 2, [], map[], [], c, t, true);
    assert [] + [true] == [true];
    assert map[][a := Entry(10, 1)] == t;
  }
}
