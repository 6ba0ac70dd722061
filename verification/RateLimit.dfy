/** internal/ratelimit: a fixed-window limiter with lazy deletion, periodic sweeps and a capacity cap.

    `Reference` is the limiter one would write down first: it never deletes anything and never counts
    calls. `Step` is what the code does. The class performs it on its own fields. */
module RateLimit {
  const DEFAULT_MAX_ENTRIES := 65536
  const SWEEP_EVERY := 1024

  datatype Entry = Entry(resetAt: int, count: nat)

  type Table = map<string, Entry>

  function NormalizeKey(key: string): string {
    if key == "" then "unknown" else key
  }

  predicate IsLive(t: Table, key: string, now: int) {
    key in t && now < t[key].resetAt
  }

  /** The entries whose window is still open. */
  function Live(t: Table, now: int): (r: Table)
  {
    map k | k in t && now < t[k].resetAt :: t[k]
  }

  /** The budget a call at `now` would charge: the open window, or a fresh one. */
  function Budget(t: Table, key: string, window: int, now: int): Entry {
    if IsLive(t, key, now) then t[key] else Entry(now + window, 0)
  }

  // ---------------------------------------------------------------- calls

  /** One call of Allow, or of AllowPair; `now` is the clock value the call read. */
  datatype Call =
    | Single(key: string, limit: int, window: int, now: int)
    | Pair(first: string, second: string, limit: int, window: int, now: int)
  {
    /** The budgets the call charges: a pair of equal keys is one budget. */
    function Keys(): set<string> {
      match this
      case Single(key, _, _, _) => {NormalizeKey(key)}
      case Pair(first, second, _, _, _) => {NormalizeKey(first), NormalizeKey(second)}
    }
  }

  // ---------------------------------------------------------------- the reference

  function ChargeAll(t: Table, keys: set<string>, window: int, now: int): Table {
    map k | k in t.Keys + keys ::
      if k in keys then var e := Budget(t, k, window, now); e.(count := e.count + 1) else t[k]
  }

  predicate Fits(t: Table, keys: set<string>, limit: int, window: int, now: int) {
    forall k :: k in keys ==> Budget(t, k, window, now).count < limit
  }

  /** Rejects for capacity exactly when the live keys and the newly needed keys exceed the cap. */
  predicate HasRoom(t: Table, cap: nat, keys: set<string>, now: int) {
    var needed := keys - Live(t, now).Keys;
    needed == {} || |Live(t, now)| + |needed| <= cap
  }

  predicate Accepts(t: Table, cap: nat, c: Call) {
    c.limit <= 0 || (Fits(t, c.Keys(), c.limit, c.window, c.now) && HasRoom(t, cap, c.Keys(), c.now))
  }

  function Reference(t: Table, cap: nat, c: Call): Table {
    if c.limit > 0 && Accepts(t, cap, c) then ChargeAll(t, c.Keys(), c.window, c.now) else t
  }

  // ---------------------------------------------------------------- the implementation's step

  datatype State = State(entries: Table, calls: nat, maxEntries: nat)

  /** currentEntry: drops the key's entry if its window is over. */
  function DropExpired(t: Table, key: string, now: int): Table {
    if key in t && now >= t[key].resetAt then t - {key} else t
  }

  function MakeRoom(t: Table, cap: nat, now: int, needed: nat): (Table, bool) {
    if needed == 0 || |t| + needed <= cap then (t, true)
    else (Live(t, now), |Live(t, now)| + needed <= cap)
  }

  function CountCall(s: State, t: Table, now: int): State {
    var calls := s.calls + 1;
    State(if calls % SWEEP_EVERY == 0 then Live(t, now) else t, calls, s.maxEntries)
  }

  function AllowStep(s: State, rawKey: string, limit: int, window: int, now: int): (State, bool) {
    if limit <= 0 then (s, true) else
    var key := NormalizeKey(rawKey);
    var t := DropExpired(s.entries, key, now);
    var e := Budget(s.entries, key, window, now);
    var (t, roomy) := if key in t then (t, true) else MakeRoom(t, s.maxEntries, now, 1);
    if !roomy then (s.(entries := t), false) else ChargeIfFits(s.(entries := t), key, e, limit, now)
  }

  /** The tail of Allow. */
  function ChargeIfFits(s: State, key: string, e: Entry, limit: int, now: int): (State, bool) {
    if e.count >= limit then (s, false)
    else (CountCall(s, s.entries[key := e.(count := e.count + 1)], now), true)
  }

  function AllowPairStep(s: State, rawFirst: string, rawSecond: string, limit: int,
                         window: int, now: int): (State, bool) {
    if limit <= 0 then (s, true) else
    var first, second := NormalizeKey(rawFirst), NormalizeKey(rawSecond);
    if first == second then EqualPairStep(s, first, limit, window, now)
    else DistinctPairStep(s, first, second, limit, window, now)
  }

  function EqualPairStep(s: State, key: string, limit: int, window: int, now: int): (State, bool) {
    var t := DropExpired(s.entries, key, now);
    var e := Budget(s.entries, key, window, now);
    if e.count >= limit then (s.(entries := t), false) else
    var (t, roomy) := if key in t then (t, true) else MakeRoom(t, s.maxEntries, now, 1);
    if !roomy then (s.(entries := t), false)
    else (CountCall(s, t[key := e.(count := e.count + 1)], now), true)
  }

  function DistinctPairStep(s: State, first: string, second: string, limit: int, window: int, now: int): (State, bool) {
    var t := DropExpired(DropExpired(s.entries, first, now), second, now);
    var a, b := Budget(s.entries, first, window, now), Budget(s.entries, second, window, now);
    if a.count >= limit || b.count >= limit then (s.(entries := t), false) else
    var needed := (if first in t then 0 else 1) + (if second in t then 0 else 1);
    ChargeTwoStep(s.(entries := t), first, a, second, b, needed, now)
  }

  /** The tail of AllowPair: make room for the missing entries, then charge both budgets. */
  function ChargeTwoStep(s: State, first: string, a: Entry, second: string, b: Entry,
                         needed: nat, now: int): (State, bool) {
    var (t, roomy) := MakeRoom(s.entries, s.maxEntries, now, needed);
    if !roomy then (s.(entries := t), false)
    else (CountCall(s, ChargePair(t, first, a, second, b), now), true)
  }

  function ChargePair(t: Table, first: string, a: Entry, second: string, b: Entry): Table {
    t[first := a.(count := a.count + 1)][second := b.(count := b.count + 1)]
  }

  function Step(s: State, c: Call): (State, bool) {
    match c
    case Single(key, limit, window, now) => AllowStep(s, key, limit, window, now)
    case Pair(first, second, limit, window, now) => AllowPairStep(s, first, second, limit, window, now)
  }

  // ---------------------------------------------------------------- the class

  class Limiter {
    var entries: map<string, Entry>
    var calls: nat
    const maxEntries: nat

    function Abstract(): State
      reads this
    {
      State(entries, calls, maxEntries)
    }

    constructor (maxEntries: nat := DEFAULT_MAX_ENTRIES)
      ensures Abstract() == State(map[], 0, maxEntries)
    {
      entries := map[];
      calls := 0;
      this.maxEntries := maxEntries;
    }

    method Allow(key: string, limit: int, window: int, now: int) returns (ok: bool)
      modifies this
      ensures (Abstract(), ok) == AllowStep(old(Abstract()), key, limit, window, now)
    {
      if limit <= 0 {
        return true;
      }
      var key := NormalizeKey(key);
      var e, found := CurrentEntry(key, now, window);
      if !found {
        var roomy := EnsureCapacity(now, 1);
        if !roomy {
          return false;
        }
      }
      ok := ChargeOne(key, e, limit, now);
    }

    method ChargeOne(key: string, e: Entry, limit: int, now: int) returns (ok: bool)
      modifies this
      ensures (Abstract(), ok) == ChargeIfFits(old(Abstract()), key, e, limit, now)
    {
      if e.count >= limit {
        return false;
      }
      entries := entries[key := e.(count := e.count + 1)];
      AfterConsume(now);
      return true;
    }

    method AllowPair(first: string, second: string, limit: int, window: int, now: int) returns (ok: bool)
      modifies this
      ensures (Abstract(), ok) == AllowPairStep(old(Abstract()), first, second, limit, window, now)
    {
      if limit <= 0 {
        return true;
      }
      var first, second := NormalizeKey(first), NormalizeKey(second);
      if first == second {
        ok := AllowEqualPair(first, limit, window, now);
      } else {
        ok := AllowDistinctPair(first, second, limit, window, now);
      }
    }

    method AllowEqualPair(key: string, limit: int, window: int, now: int) returns (ok: bool)
      modifies this
      ensures (Abstract(), ok) == EqualPairStep(old(Abstract()), key, limit, window, now)
    {
      var e, found := CurrentEntry(key, now, window);
      if e.count >= limit {
        return false;
      }
      if !found {
        var roomy := EnsureCapacity(now, 1);
        if !roomy {
          return false;
        }
      }
      entries := entries[key := e.(count := e.count + 1)];
      AfterConsume(now);
      return true;
    }

    method AllowDistinctPair(first: string, second: string, limit: int, window: int, now: int) returns (ok: bool)
      requires first != second
      modifies this
      ensures (Abstract(), ok) == DistinctPairStep(old(Abstract()), first, second, limit, window, now)
    {
      var a, aFound := CurrentEntry(first, now, window);
      var b, bFound := CurrentEntry(second, now, window);
      ghost var t := entries;
      assert aFound <==> first in t;
      assert b == Budget(old(entries), second, window, now);
      if a.count >= limit || b.count >= limit {
        return false;
      }
      var needed := 0;
      if !aFound {
        needed := needed + 1;
      }
      if !bFound {
        needed := needed + 1;
      }
      ok := ChargeTwo(first, a, second, b, needed, now);
    }

    method ChargeTwo(first: string, a: Entry, second: string, b: Entry, needed: nat, now: int) returns (ok: bool)
      modifies this
      ensures (Abstract(), ok) == ChargeTwoStep(old(Abstract()), first, a, second, b, needed, now)
    {
      var roomy := EnsureCapacity(now, needed);
      if !roomy {
        return false;
      }
      entries := entries[first := a.(count := a.count + 1)];
      entries := entries[second := b.(count := b.count + 1)];
      AfterConsume(now);
      return true;
    }

    method CurrentEntry(key: string, now: int, window: int) returns (e: Entry, found: bool)
      modifies this`entries
      ensures entries == DropExpired(old(entries), key, now)
      ensures found <==> key in entries
      ensures e == Budget(old(entries), key, window, now)
    {
      found := key in entries;
      if found && now >= entries[key].resetAt {
        entries := entries - {key};
        found := false;
      }
      if found {
        e := entries[key];
      } else {
        e := Entry(now + window, 0);
      }
    }

    method EnsureCapacity(now: int, needed: nat) returns (roomy: bool)
      modifies this`entries
      ensures (entries, roomy) == MakeRoom(old(entries), maxEntries, now, needed)
    {
      if needed == 0 || |entries| + needed <= maxEntries {
        return true;
      }
      CleanupExpired(now);
      roomy := |entries| + needed <= maxEntries;
    }

    method AfterConsume(now: int)
      modifies this
      ensures Abstract() == CountCall(old(Abstract()), old(entries), now)
    {
      calls := calls + 1;
      if calls % SWEEP_EVERY == 0 {
        CleanupExpired(now);
      }
    }

    /** Visits the keys in an arbitrary order and deletes while iterating. */
    method CleanupExpired(now: int)
      modifies this`entries
      ensures entries == Live(old(entries), now)
    {
      var todo := entries.Keys;
      while todo != {}
        invariant todo <= entries.Keys
        invariant forall k :: k in entries <==> k in old(entries) && (k in todo || now < old(entries)[k].resetAt)
        invariant forall k :: k in entries ==> entries[k] == old(entries)[k]
        decreases |todo|
      {
        var k :| k in todo;
        todo := todo - {k};
        if now >= entries[k].resetAt {
          entries := entries - {k};
        }
      }
    }
  }
}
