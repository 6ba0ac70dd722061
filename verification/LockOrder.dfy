/** The registry and room locks of internal/room: any number of threads running any sequences of its
    operations over any rooms never deadlock, because every acquisition climbs from registry to room.

    The reader/writer locks are modelled at their least helpful: a thread that stands at a write
    acquisition already keeps every new reader out. */
module LockOrder {
  import RoomSections

  type RoomId = RoomSections.RoomId
  type ThreadId = nat

  datatype Lock = RegistryLock | RoomLock(room: RoomId)

  datatype Mode = Read | Write

  datatype Op = Acquire(lock: Lock, mode: Mode) | Release(lock: Lock)

  function Level(l: Lock): nat {
    if l.RegistryLock? then 0 else 1
  }

  /** A thread: the operations it has left, and what it holds. */
  datatype Thread = Thread(rest: seq<Op>, held: map<Lock, Mode>)

  type Threads = map<ThreadId, Thread>

  // ---------------------------------------------------------------- the operations of the source

  datatype Call =
    | Create(r: RoomId)
    | Find
    | AddToUnregistered
    | Add(r: RoomId)
    | Remove(r: RoomId)
    | ScheduleDestroy(r: RoomId)
    | DestroyUnregistered
    | Destroy(r: RoomId)
    | FanOut(r: RoomId)
    | ForEachPeer(r: RoomId)
    | PublicList(rooms: seq<RoomId>)
    | CountPeers(rooms: seq<RoomId>)
    | PublishUpdate(r: RoomId)

  /** entryOf and PeerCount on each room in turn. */
  function ReadEach(rooms: seq<RoomId>): seq<Op> {
    if rooms == [] then []
    else [Acquire(RoomLock(rooms[0]), Read), Release(RoomLock(rooms[0]))] + ReadEach(rooms[1..])
  }

  function Program(c: Call): seq<Op> {
    match c
    case Create(r) => [Acquire(RegistryLock, Write), Release(RegistryLock)] + RoomSection(r)
    case Find => [Acquire(RegistryLock, Read), Release(RegistryLock)]
    case AddToUnregistered => [Acquire(RegistryLock, Read), Release(RegistryLock)]
    case Add(r) =>
      [Acquire(RegistryLock, Read), Acquire(RoomLock(r), Write), Release(RoomLock(r)), Release(RegistryLock)]
    case Remove(r) => RoomSection(r) + RoomSection(r)
    case ScheduleDestroy(r) => RoomSection(r)
    case DestroyUnregistered => [Acquire(RegistryLock, Write), Release(RegistryLock)]
    case Destroy(r) =>
      [Acquire(RegistryLock, Write), Acquire(RoomLock(r), Write), Release(RoomLock(r)), Release(RegistryLock)]
    case FanOut(r) => ReadEach([r])
    case ForEachPeer(r) => ReadEach([r])
    case PublicList(rooms) => [Acquire(RegistryLock, Read), Release(RegistryLock)] + ReadEach(rooms)
    case CountPeers(rooms) => [Acquire(RegistryLock, Read)] + ReadEach(rooms) + [Release(RegistryLock)]
    case PublishUpdate(r) => [Acquire(RegistryLock, Read), Release(RegistryLock)] + ReadEach([r])
  }

  /** One write section of a room. */
  function RoomSection(r: RoomId): seq<Op> {
    [Acquire(RoomLock(r), Write), Release(RoomLock(r))]
  }

  /** What a thread does in its life: one call after another. */
  function Life(calls: seq<Call>): seq<Op> {
    if calls == [] then [] else Program(calls[0]) + Life(calls[1..])
  }

  // ---------------------------------------------------------------- the discipline

  /** From holding `held`, every acquisition is above everything held, and everything is released. */
  ghost predicate Disciplined(held: map<Lock, Mode>, rest: seq<Op>)
    decreases |rest|
  {
    if rest == [] then held == map[]
    else match rest[0]
      case Acquire(l, m) => (forall h :: h in held ==> Level(h) < Level(l)) && Disciplined(held[l := m], rest[1..])
      case Release(l) => l in held && Disciplined(held - {l}, rest[1..])
  }

  /** A stretch of operations that starts and ends holding exactly `held` can be put in front. */
  lemma WriteSectionInFront(held: map<Lock, Mode>, l: Lock, m: Mode, rest: seq<Op>)
    requires Disciplined(held, rest) && forall h :: h in held ==> Level(h) < Level(l)
    ensures Disciplined(held, [Acquire(l, m), Release(l)] + rest)
  {
    var ops := [Acquire(l, m), Release(l)] + rest;
    assert l !in held;
    assert held[l := m] - {l} == held;
    assert ops[1..] == [Release(l)] + rest;
    assert ([Release(l)] + rest)[1..] == rest;
    assert Disciplined(held[l := m], [Release(l)] + rest);
  }

  lemma {:induction false} ReadEachInFront(held: map<Lock, Mode>, rooms: seq<RoomId>, rest: seq<Op>)
    requires Disciplined(held, rest) && forall h :: h in held ==> h.RegistryLock?
    ensures Disciplined(held, ReadEach(rooms) + rest)
  {
    if rooms == [] {
      assert ReadEach(rooms) + rest == rest;
    } else {
      ReadEachInFront(held, rooms[1..], rest);
      WriteSectionInFront(held, RoomLock(rooms[0]), Read, ReadEach(rooms[1..]) + rest);
      assert ReadEach(rooms) + rest
          == [Acquire(RoomLock(rooms[0]), Read), Release(RoomLock(rooms[0]))] + (ReadEach(rooms[1..]) + rest);
    }
  }

  /** Operations on rooms nested inside the registry lock. */
  lemma NestedInFront(m: Mode, inner: seq<Op>, rest: seq<Op>)
    requires Disciplined(map[RegistryLock := m], inner + ([Release(RegistryLock)] + rest))
    ensures Disciplined(map[], [Acquire(RegistryLock, m)] + inner + [Release(RegistryLock)] + rest)
  {
    var ops := [Acquire(RegistryLock, m)] + inner + [Release(RegistryLock)] + rest;
    assert ops[1..] == inner + ([Release(RegistryLock)] + rest);
    assert map[][RegistryLock := m] == map[RegistryLock := m];
  }

  lemma ReleaseInFront(m: Mode, rest: seq<Op>)
    requires Disciplined(map[], rest)
    ensures Disciplined(map[RegistryLock := m], [Release(RegistryLock)] + rest)
  {
    assert ([Release(RegistryLock)] + rest)[1..] == rest;
    assert map[RegistryLock := m] - {RegistryLock} == map[];
  }

  lemma ProgramInFront(c: Call, rest: seq<Op>)
    requires Disciplined(map[], rest)
    ensures Disciplined(map[], Program(c) + rest)
  {
    match c
    case Create(r) => TwoSections(RegistryLock, r, rest);
    case Find => WriteSectionInFront(map[], RegistryLock, Read, rest);
    case AddToUnregistered => WriteSectionInFront(map[], RegistryLock, Read, rest);
    case Add(r) => NestedWrite(Read, r, rest);
    case Remove(r) => TwoSections(RoomLock(r), r, rest);
    case ScheduleDestroy(r) => WriteSectionInFront(map[], RoomLock(r), Write, rest);
    case DestroyUnregistered => WriteSectionInFront(map[], RegistryLock, Write, rest);
    case Destroy(r) => NestedWrite(Write, r, rest);
    case FanOut(r) => ReadEachInFront(map[], [r], rest);
    case ForEachPeer(r) => ReadEachInFront(map[], [r], rest);
    case PublicList(rooms) => ReadThenEach(rooms, rest);
    case CountPeers(rooms) => NestedReads(rooms, rest);
    case PublishUpdate(r) => ReadThenEach([r], rest);
  }

  lemma TwoSections(l: Lock, r: RoomId, rest: seq<Op>)
    requires Disciplined(map[], rest)
    ensures Disciplined(map[], [Acquire(l, Write), Release(l)] + RoomSection(r) + rest)
  {
    WriteSectionInFront(map[], RoomLock(r), Write, rest);
    WriteSectionInFront(map[], l, Write, RoomSection(r) + rest);
    assert [Acquire(l, Write), Release(l)] + RoomSection(r) + rest
        == [Acquire(l, Write), Release(l)] + (RoomSection(r) + rest);
  }

  lemma NestedReads(rooms: seq<RoomId>, rest: seq<Op>)
    requires Disciplined(map[], rest)
    ensures Disciplined(map[], [Acquire(RegistryLock, Read)] + ReadEach(rooms) + [Release(RegistryLock)] + rest)
  {
    ReleaseInFront(Read, rest);
    ReadEachInFront(map[RegistryLock := Read], rooms, [Release(RegistryLock)] + rest);
    NestedInFront(Read, ReadEach(rooms), rest);
  }

  lemma ReadThenEach(rooms: seq<RoomId>, rest: seq<Op>)
    requires Disciplined(map[], rest)
    ensures Disciplined(map[], [Acquire(RegistryLock, Read), Release(RegistryLock)] + ReadEach(rooms) + rest)
  {
    ReadEachInFront(map[], rooms, rest);
    WriteSectionInFront(map[], RegistryLock, Read, ReadEach(rooms) + rest);
    assert [Acquire(RegistryLock, Read), Release(RegistryLock)] + ReadEach(rooms) + rest
        == [Acquire(RegistryLock, Read), Release(RegistryLock)] + (ReadEach(rooms) + rest);
  }

  lemma NestedWrite(m: Mode, r: RoomId, rest: seq<Op>)
    requires Disciplined(map[], rest)
    ensures Disciplined(map[], [Acquire(RegistryLock, m), Acquire(RoomLock(r), Write),
                                Release(RoomLock(r)), Release(RegistryLock)] + rest)
  {
    ReleaseInFront(m, rest);
    WriteSectionInFront(map[RegistryLock := m], RoomLock(r), Write, [Release(RegistryLock)] + rest);
    NestedInFront(m, RoomSection(r), rest);
    assert [Acquire(RegistryLock, m), Acquire(RoomLock(r), Write), Release(RoomLock(r)), Release(RegistryLock)] + rest
        == [Acquire(RegistryLock, m)] + RoomSection(r) + [Release(RegistryLock)] + rest;
  }

  /** Whatever calls a thread makes, its life keeps the lock order. */
  lemma {:induction false} LifeIsDisciplined(calls: seq<Call>)
    ensures Disciplined(map[], Life(calls))
  {
    if calls != [] {
      LifeIsDisciplined(calls[1..]);
      ProgramInFront(calls[0], Life(calls[1..]));
    }
  }

  // ---------------------------------------------------------------- what is held where it matters

  function Holding(held: map<Lock, Mode>, o: Op): map<Lock, Mode> {
    if o.Acquire? then held[o.lock := o.mode] else held - {o.lock}
  }

  /** A thread that starts with `held` and follows the program holds exactly `locks` at some point. */
  ghost predicate ComesToHold(held: map<Lock, Mode>, ops: seq<Op>, locks: map<Lock, Mode>)
    decreases ops
  {
    held == locks || (ops != [] && ComesToHold(Holding(held, ops[0]), ops[1..], locks))
  }

  lemma FirstLock(ops: seq<Op>, l: Lock, m: Mode)
    requires ops != [] && ops[0] == Acquire(l, m)
    ensures ComesToHold(map[], ops, map[l := m])
  {
    assert ComesToHold(map[][l := m], ops[1..], map[l := m]);
  }

  lemma SecondLock(held: map<Lock, Mode>, ops: seq<Op>, l: Lock, m: Mode)
    requires |ops| >= 2 && ops[1] == Acquire(l, m) && held == Holding(map[], ops[0])
    ensures ComesToHold(map[], ops, held[l := m])
  {
    var locks := held[l := m];
    assert ComesToHold(locks, ops[1..][1..], locks);
    assert ComesToHold(held, ops[1..], locks);
  }

  /** Reading one room after another: each is locked once, over what was held before. */
  lemma {:induction false} EachIsRead(held: map<Lock, Mode>, rooms: seq<RoomId>, rest: seq<Op>, r: RoomId)
    requires r in rooms && held.Keys <= {RegistryLock}
    ensures ComesToHold(held, ReadEach(rooms) + rest, held[RoomLock(r) := Read])
    decreases rooms
  {
    var ops, l := ReadEach(rooms) + rest, RoomLock(rooms[0]);
    var locks, reading := held[RoomLock(r) := Read], held[l := Read];
    assert ops[0] == Acquire(l, Read) && ops[1..][0] == Release(l);
    if rooms[0] == r {
      assert ComesToHold(reading, ops[1..], locks);
    } else {
      EachIsRead(held, rooms[1..], rest, r);
      assert reading - {l} == held;
      assert ops[1..][1..] == ReadEach(rooms[1..]) + rest;
      assert ComesToHold(reading, ops[1..], locks);
    }
  }

  ghost predicate SometimeHolds(c: Call, locks: map<Lock, Mode>) {
    ComesToHold(map[], Program(c), locks)
  }

  lemma Singles(r: RoomId, rooms: seq<RoomId>)
    ensures SometimeHolds(Create(r), map[RegistryLock := Write])
    ensures SometimeHolds(Find, map[RegistryLock := Read])
    ensures SometimeHolds(Remove(r), map[RoomLock(r) := Write])
    ensures SometimeHolds(ScheduleDestroy(r), map[RoomLock(r) := Write])
    ensures SometimeHolds(FanOut(r), map[RoomLock(r) := Read])
    ensures SometimeHolds(ForEachPeer(r), map[RoomLock(r) := Read])
    ensures SometimeHolds(PublicList(rooms), map[RegistryLock := Read])
    ensures SometimeHolds(PublishUpdate(r), map[RegistryLock := Read])
  {
    FirstLock(Program(Create(r)), RegistryLock, Write);
    FirstLock(Program(Find), RegistryLock, Read);
    FirstLock(Program(Remove(r)), RoomLock(r), Write);
    FirstLock(Program(ScheduleDestroy(r)), RoomLock(r), Write);
    FirstLock(Program(FanOut(r)), RoomLock(r), Read);
    FirstLock(Program(ForEachPeer(r)), RoomLock(r), Read);
    FirstLock(Program(PublicList(rooms)), RegistryLock, Read);
    FirstLock(Program(PublishUpdate(r)), RegistryLock, Read);
  }

  lemma Doubles(r: RoomId)
    ensures SometimeHolds(Add(r), map[RegistryLock := Read][RoomLock(r) := Write])
    ensures SometimeHolds(Destroy(r), map[RegistryLock := Write][RoomLock(r) := Write])
  {
    SecondLock(map[RegistryLock := Read], Program(Add(r)), RoomLock(r), Write);
    SecondLock(map[RegistryLock := Write], Program(Destroy(r)), RoomLock(r), Write);
  }

  lemma ReadAfterRegistry(rooms: seq<RoomId>, r: RoomId)
    requires r in rooms
    ensures ComesToHold(map[], [Acquire(RegistryLock, Read), Release(RegistryLock)] + ReadEach(rooms),
                        map[RoomLock(r) := Read])
  {
    var ops := [Acquire(RegistryLock, Read), Release(RegistryLock)] + ReadEach(rooms);
    var locks := map[RoomLock(r) := Read];
    EachIsRead(map[], rooms, [], r);
    assert map[][RoomLock(r) := Read] == locks;
    assert ops[1..][1..] == ReadEach(rooms) + [];
    assert map[RegistryLock := Read] - {RegistryLock} == map[];
    assert ComesToHold(map[RegistryLock := Read], ops[1..], locks);
  }

  lemma ReadUnderRegistry(rooms: seq<RoomId>, r: RoomId)
    requires r in rooms
    ensures SometimeHolds(CountPeers(rooms), map[RegistryLock := Read][RoomLock(r) := Read])
  {
    var ops := Program(CountPeers(rooms));
    EachIsRead(map[RegistryLock := Read], rooms, [Release(RegistryLock)], r);
    assert ops[1..] == ReadEach(rooms) + [Release(RegistryLock)];
    assert Holding(map[], ops[0]) == map[RegistryLock := Read];
  }

  /** Each operation of the source holds, where it looks or changes, the locks that cover it: Add the registry and
      the room at once, destroy both for writing, counting each room under the registry. */
  lemma ProgramsHoldTheirLocks(r: RoomId, rooms: seq<RoomId>)
    ensures SometimeHolds(Create(r), map[RegistryLock := Write])
    ensures SometimeHolds(Find, map[RegistryLock := Read])
    ensures SometimeHolds(Add(r), map[RegistryLock := Read][RoomLock(r) := Write])
    ensures SometimeHolds(Remove(r), map[RoomLock(r) := Write])
    ensures SometimeHolds(ScheduleDestroy(r), map[RoomLock(r) := Write])
    ensures SometimeHolds(Destroy(r), map[RegistryLock := Write][RoomLock(r) := Write])
    ensures SometimeHolds(FanOut(r), map[RoomLock(r) := Read])
    ensures SometimeHolds(ForEachPeer(r), map[RoomLock(r) := Read])
    ensures SometimeHolds(PublicList(rooms), map[RegistryLock := Read])
    ensures r in rooms ==> SometimeHolds(PublicList(rooms), map[RoomLock(r) := Read])
    ensures r in rooms ==> SometimeHolds(CountPeers(rooms), map[RegistryLock := Read][RoomLock(r) := Read])
    ensures SometimeHolds(PublishUpdate(r), map[RegistryLock := Read])
    ensures SometimeHolds(PublishUpdate(r), map[RoomLock(r) := Read])
  {
    Singles(r, rooms);
    Doubles(r);
    ReadAfterRegistry([r], r);
    assert Program(PublishUpdate(r)) == Program(PublicList([r]));
    if r in rooms {
      ReadAfterRegistry(rooms, r);
      ReadUnderRegistry(rooms, r);
    }
  }

  // ---------------------------------------------------------------- steps

  ghost predicate Holds(ts: Threads, t: ThreadId, l: Lock) {
    t in ts && l in ts[t].held
  }

  ghost predicate StandsAt(ts: Threads, t: ThreadId, l: Lock, m: Mode) {
    t in ts && ts[t].rest != [] && ts[t].rest[0] == Acquire(l, m)
  }

  ghost predicate CanStep(ts: Threads, t: ThreadId) {
    && t in ts && ts[t].rest != []
    && match ts[t].rest[0]
       case Release(_) => true
       case Acquire(l, Write) => forall u :: !Holds(ts, u, l)
       case Acquire(l, Read) =>
         && (forall u :: Holds(ts, u, l) ==> ts[u].held[l] == Read)
         && (forall u :: !StandsAt(ts, u, l, Write))
  }

  function Step(ts: Threads, t: ThreadId): Threads
    requires t in ts && ts[t].rest != []
  {
    var th := ts[t];
    ts[t := match th.rest[0]
            case Release(l) => Thread(th.rest[1..], th.held - {l})
            case Acquire(l, m) => Thread(th.rest[1..], th.held[l := m])]
  }

  /** Every thread keeps the order, and a writer is alone. */
  ghost predicate Inv(ts: Threads) {
    && (forall t :: t in ts ==> Disciplined(ts[t].held, ts[t].rest))
    && (forall t, u, l :: Holds(ts, t, l) && Holds(ts, u, l) && ts[t].held[l] == Write ==> t == u)
  }

  lemma StepKeepsInv(ts: Threads, t: ThreadId)
    requires Inv(ts) && CanStep(ts, t)
    ensures Inv(Step(ts, t))
  {
    var ts' := Step(ts, t);
    assert Disciplined(ts[t].held, ts[t].rest);
    forall a, b, l | Holds(ts', a, l) && Holds(ts', b, l) && ts'[a].held[l] == Write ensures a == b {
      StaysExclusive(ts, t, a, b, l);
    }
  }

  lemma StaysExclusive(ts: Threads, t: ThreadId, a: ThreadId, b: ThreadId, l: Lock)
    requires Inv(ts) && CanStep(ts, t)
    requires Holds(Step(ts, t), a, l) && Holds(Step(ts, t), b, l) && Step(ts, t)[a].held[l] == Write
    ensures a == b
  {
    var op := ts[t].rest[0];
    if op.Acquire? && op.lock == l {
      assert a == t || Holds(ts, a, l);
      assert b == t || Holds(ts, b, l);
    } else {
      assert Holds(ts, a, l) && Holds(ts, b, l);
      assert ts[a].held[l] == Write;
    }
  }

  // ---------------------------------------------------------------- progress

  /** Whoever holds a room lock can release something: it has nothing left to climb to. */
  lemma RoomHolderCanStep(ts: Threads, u: ThreadId, r: RoomId)
    requires Inv(ts) && Holds(ts, u, RoomLock(r))
    ensures CanStep(ts, u)
  {
    assert Disciplined(ts[u].held, ts[u].rest);
  }

  /** A lock nobody holds can be taken by a waiting writer, or else by a waiting reader. */
  lemma FreeLockCanBeTaken(ts: Threads, t: ThreadId, l: Lock, m: Mode) returns (u: ThreadId)
    requires StandsAt(ts, t, l, m) && forall v :: !Holds(ts, v, l)
    ensures CanStep(ts, u)
  {
    if exists v :: StandsAt(ts, v, l, Write) {
      u :| StandsAt(ts, u, l, Write);
    } else {
      assert m == Read;
      u := t;
    }
  }

  lemma SomeoneAtRoomLock(ts: Threads, t: ThreadId, r: RoomId, m: Mode) returns (u: ThreadId)
    requires Inv(ts) && StandsAt(ts, t, RoomLock(r), m)
    ensures CanStep(ts, u)
  {
    if exists v :: Holds(ts, v, RoomLock(r)) {
      u :| Holds(ts, u, RoomLock(r));
      RoomHolderCanStep(ts, u, r);
    } else {
      u := FreeLockCanBeTaken(ts, t, RoomLock(r), m);
    }
  }

  /** As long as some thread has work left, some thread can take a step. */
  lemma SomeThreadCanStep(ts: Threads, t: ThreadId) returns (u: ThreadId)
    requires Inv(ts) && t in ts && ts[t].rest != []
    ensures CanStep(ts, u)
  {
    match ts[t].rest[0]
    case Release(_) => u := t;
    case Acquire(RoomLock(r), m) => u := SomeoneAtRoomLock(ts, t, r, m);
    case Acquire(RegistryLock, m) =>
      if exists v :: Holds(ts, v, RegistryLock) {
        var v :| Holds(ts, v, RegistryLock);
        assert Disciplined(ts[v].held, ts[v].rest);
        if ts[v].rest[0].Release? {
          u := v;
        } else {
          u := SomeoneAtRoomLock(ts, v, ts[v].rest[0].lock.room, ts[v].rest[0].mode);
        }
      } else {
        u := FreeLockCanBeTaken(ts, t, RegistryLock, m);
      }
  }

  // ---------------------------------------------------------------- every schedule

  /** The threads after a schedule, if every scheduled step was possible. */
  ghost predicate Reaches(ts: Threads, schedule: seq<ThreadId>, end: Threads) {
    if schedule == [] then end == ts
    else CanStep(ts, schedule[0]) && Reaches(Step(ts, schedule[0]), schedule[1..], end)
  }

  function Start(lives: map<ThreadId, seq<Call>>): Threads {
    map t | t in lives :: Thread(Life(lives[t]), map[])
  }

  lemma {:induction false} ScheduleKeepsInv(ts: Threads, schedule: seq<ThreadId>, end: Threads)
    requires Inv(ts) && Reaches(ts, schedule, end)
    ensures Inv(end)
    ensures end.Keys == ts.Keys
    decreases |schedule|
  {
    if schedule != [] {
      StepKeepsInv(ts, schedule[0]);
      ScheduleKeepsInv(Step(ts, schedule[0]), schedule[1..], end);
    }
  }

  /** Any threads making any calls, under any schedule: while somebody is unfinished somebody can
      step, and a lock held for writing has no other holder. */
  lemma NeverDeadlocked(lives: map<ThreadId, seq<Call>>, schedule: seq<ThreadId>, end: Threads, t: ThreadId)
    requires Reaches(Start(lives), schedule, end)
    requires t in end && end[t].rest != []
    ensures exists u :: CanStep(end, u)
    ensures forall a, b, l :: Holds(end, a, l) && Holds(end, b, l) && end[a].held[l] == Write ==> a == b
  {
    forall u | u in lives ensures Disciplined(map[], Life(lives[u])) {
      LifeIsDisciplined(lives[u]);
    }
    ScheduleKeepsInv(Start(lives), schedule, end);
    var u := SomeThreadCanStep(end, t);
  }
}
