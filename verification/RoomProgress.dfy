/** Why an empty room goes away: a measure that no step raises unless somebody joins, that some
    enabled step always lowers, and that reaches zero exactly when the room is destroyed. */
module RoomProgress {
  import opened Wrappers
  import opened RoomSections
  import opened RoomWorld
  import opened RoomRuns

  /** A thread whose very next step schedules room r's destroy. */
  predicate AboutToSchedule(s: Session, r: RoomId) {
    s.pc == Created(r) || s.pc == Scheduling(r)
  }

  ghost predicate SomeoneAboutToSchedule(w: World, r: RoomId) {
    exists p :: p in w.sessions && AboutToSchedule(w.sessions[p], r)
  }

  /** How far an empty room is from being destroyed. */
  ghost function Rank(w: World, r: RoomId): nat
    requires r in w.rooms
  {
    var s := w.rooms[r];
    if s.destroyed then 0
    else if s.armed && (r, s.generation) in w.callbacks then TimerRank(w, r)
    else if SomeoneAboutToSchedule(w, r) then 3 + ROOM_IDLE_NO_JOIN
    else 4 + ROOM_IDLE_NO_JOIN
  }

  ghost function TimerRank(w: World, r: RoomId): nat
    requires r in w.rooms && (r, w.rooms[r].generation) in w.callbacks
  {
    var c := w.callbacks[(r, w.rooms[r].generation)];
    if c.fired then 1 else if w.now < c.due then 2 + (c.due - w.now) else 2
  }

  /** The step puts a peer into room r. */
  ghost predicate Joins(w: World, a: Action, r: RoomId) {
    && a.AddPeer? && Enabled(w, a) && w.sessions[a.p].pc.room == r
    && Add(w.rooms[r], Registered(w, r), a.p).1.Joined?
  }

  /** Every timer is due within the longer delay of the time it is looked at. */
  ghost predicate DueSoon(w: World) {
    forall c :: c in w.callbacks ==> w.callbacks[c].due <= w.now + ROOM_IDLE_NO_JOIN
  }

  lemma KeepsDueSoon(cfg: Config, w: World, a: Action)
    requires DueSoon(w) && Enabled(w, a)
    ensures DueSoon(Next(cfg, w, a))
  {
  }

  // ---------------------------------------------------------------- no step raises it

  lemma RankBound(w: World, r: RoomId)
    requires r in w.rooms && DueSoon(w)
    ensures Rank(w, r) <= 4 + ROOM_IDLE_NO_JOIN
    ensures w.rooms[r].destroyed || (w.rooms[r].armed && (r, w.rooms[r].generation) in w.callbacks)
            ==> Rank(w, r) <= 2 + ROOM_IDLE_NO_JOIN
    ensures SomeoneAboutToSchedule(w, r) ==> Rank(w, r) <= 3 + ROOM_IDLE_NO_JOIN
  {
  }

  /** Unless somebody joins, an empty room's peers, generation and timer stay as they are, or the room
      is newly armed, or destroyed. */
  lemma EmptyRoomStep(cfg: Config, w: World, a: Action, r: RoomId)
    requires Enabled(w, a) && r in w.rooms && RoomOk(cfg, w.rooms[r])
    requires w.rooms[r].peers == {} && !Joins(w, a, r)
    ensures var w' := Next(cfg, w, a);
            && r in w'.rooms
            && (|| w'.rooms[r] == w.rooms[r]
                || (w'.rooms[r].destroyed && w'.rooms[r].peers == {})
                || (Unwatched(w.rooms[r]) && w'.rooms[r].armed && w'.rooms[r].peers == {} && !w'.rooms[r].destroyed))
  {
    if LeavesRoomsAlone(a) {
      OnlySessionsMove(cfg, w, a);
    } else if a.AddPeer? || a.RemovePeer? {
      MembersStay(cfg, w, a, r);
    }
  }

  lemma MembersStay(cfg: Config, w: World, a: Action, r: RoomId)
    requires Enabled(w, a) && r in w.rooms && (a.AddPeer? || a.RemovePeer?)
    requires w.rooms[r].peers == {} && !Joins(w, a, r)
    ensures r in Next(cfg, w, a).rooms && Next(cfg, w, a).rooms[r] == w.rooms[r]
  {
  }

  /** A pending callback never moves away: the clock only advances and a fired timer stays fired. */
  lemma CallbackGetsCloser(cfg: Config, w: World, a: Action, c: (RoomId, nat))
    requires Enabled(w, a) && c in w.callbacks && c in Next(cfg, w, a).callbacks && CallbackInv(w)
    ensures var w' := Next(cfg, w, a);
            && w'.now >= w.now && w'.callbacks[c].due == w.callbacks[c].due
            && (w.callbacks[c].fired ==> w'.callbacks[c].fired)
  {
    assert c == (c.0, c.1);
    CallbackStep(cfg, w, a, c.0, c.1);
    RoomStep(cfg, w, a, c.0);
  }

  /** While the room's state stays, its current callback only gets closer. */
  lemma TimerRankStep(cfg: Config, w: World, a: Action, r: RoomId)
    requires Enabled(w, a) && CallbackInv(w) && CallbackInv(Next(cfg, w, a)) && r in w.rooms
    requires r in Next(cfg, w, a).rooms && Next(cfg, w, a).rooms[r] == w.rooms[r] && w.rooms[r].armed
    ensures (r, w.rooms[r].generation) in Next(cfg, w, a).callbacks && (r, w.rooms[r].generation) in w.callbacks
    ensures TimerRank(Next(cfg, w, a), r) <= TimerRank(w, r)
  {
    CallbackGetsCloser(cfg, w, a, (r, w.rooms[r].generation));
  }

  lemma ScheduleArms(cfg: Config, w: World, a: Action, r: RoomId)
    requires Enabled(w, a) && r in w.rooms && Unwatched(w.rooms[r])
    requires (a.StartIdleTimer? || a.ScheduleEmpty?) && w.sessions[a.p].pc.room == r
    ensures r in Next(cfg, w, a).rooms && Next(cfg, w, a).rooms[r].armed
  {
  }

  /** While nobody arms the room, the thread that is about to schedule stays there. */
  lemma SchedulerStays(cfg: Config, w: World, a: Action, r: RoomId)
    requires Enabled(w, a) && r in w.rooms && Unwatched(w.rooms[r])
    requires r in Next(cfg, w, a).rooms && Next(cfg, w, a).rooms[r] == w.rooms[r]
    requires SomeoneAboutToSchedule(w, r)
    ensures SomeoneAboutToSchedule(Next(cfg, w, a), r)
  {
    var w' := Next(cfg, w, a);
    var p :| p in w.sessions && AboutToSchedule(w.sessions[p], r);
    if !Moves(a, p) {
      OthersStay(cfg, w, a, p);
    } else {
      ScheduleArms(cfg, w, a, r);
    }
    assert p in w'.sessions && AboutToSchedule(w'.sessions[p], r);
  }

  lemma RankNeverRises(cfg: Config, w: World, a: Action, r: RoomId)
    requires Inv(cfg, w) && DueSoon(w) && Enabled(w, a) && r in w.rooms
    requires w.rooms[r].peers == {} && !Joins(w, a, r)
    ensures r in Next(cfg, w, a).rooms && Next(cfg, w, a).rooms[r].peers == {}
    ensures Rank(Next(cfg, w, a), r) <= Rank(w, r)
  {
    var w' := Next(cfg, w, a);
    KeepsCore(cfg, w, a);
    KeepsDueSoon(cfg, w, a);
    assert RoomOk(cfg, w.rooms[r]);
    EmptyRoomStep(cfg, w, a, r);
    RankBound(w', r);
    if w'.rooms[r] == w.rooms[r] && !w.rooms[r].destroyed {
      if w.rooms[r].armed {
        TimerRankStep(cfg, w, a, r);
      } else if SomeoneAboutToSchedule(w, r) {
        SchedulerStays(cfg, w, a, r);
      }
    }
  }

  // ---------------------------------------------------------------- some step always lowers it

  /** The step that brings an empty room closer to its end. */
  ghost function Helpful(w: World, r: RoomId): Action
    requires r in w.rooms && NoLeakInv(w.rooms, w.sessions) && CallbackInv(w)
    requires !w.rooms[r].destroyed && w.rooms[r].peers == {}
  {
    var s := w.rooms[r];
    if s.armed then
      var c := w.callbacks[(r, s.generation)];
      if c.fired then RunDestroy(r, s.generation)
      else if w.now < c.due then Tick(c.due - w.now)
      else FireTimer(r, s.generation)
    else if SomeoneAboutToSchedule(w, r) then
      var p :| p in w.sessions && AboutToSchedule(w.sessions[p], r);
      if w.sessions[p].pc.Created? then StartIdleTimer(p) else ScheduleEmpty(p)
    else
      assert Unwatched(s);
      var p :| p in w.sessions && WillSchedule(w.sessions[p], r);
      ClearRoom(p)
  }

  lemma HelpfulArmed(cfg: Config, w: World, r: RoomId)
    requires Inv(cfg, w) && r in w.rooms
    requires !w.rooms[r].destroyed && w.rooms[r].peers == {} && w.rooms[r].armed
    ensures var a := Helpful(w, r);
            && Enabled(w, a) && !Joins(w, a, r)
            && r in Next(cfg, w, a).rooms && Rank(Next(cfg, w, a), r) < Rank(w, r)
  {
    assert Registered(w, r);
  }

  lemma HelpfulUnarmed(cfg: Config, w: World, r: RoomId)
    requires Inv(cfg, w) && DueSoon(w) && r in w.rooms
    requires Unwatched(w.rooms[r])
    ensures var a := Helpful(w, r);
            && Enabled(w, a) && !Joins(w, a, r)
            && r in Next(cfg, w, a).rooms && Rank(Next(cfg, w, a), r) < Rank(w, r)
  {
    var a := Helpful(w, r);
    assert SessionOk(w.rooms, w.sessions[a.p]);
    var w' := Next(cfg, w, a);
    KeepsDueSoon(cfg, w, a);
    RankBound(w', r);
    if SomeoneAboutToSchedule(w, r) {
      assert w'.rooms[r].armed && (r, w'.rooms[r].generation) in w'.callbacks;
    } else {
      assert a.p in w'.sessions && AboutToSchedule(w'.sessions[a.p], r);
    }
  }

  lemma RankCanFall(cfg: Config, w: World, r: RoomId)
    requires Inv(cfg, w) && DueSoon(w) && r in w.rooms
    requires !w.rooms[r].destroyed && w.rooms[r].peers == {}
    ensures var a := Helpful(w, r);
            && Enabled(w, a) && !Joins(w, a, r)
            && r in Next(cfg, w, a).rooms && Rank(Next(cfg, w, a), r) < Rank(w, r)
  {
    if w.rooms[r].armed {
      HelpfulArmed(cfg, w, r);
    } else {
      HelpfulUnarmed(cfg, w, r);
    }
  }

  // ---------------------------------------------------------------- so the room can always be reclaimed

  lemma {:induction false} RunsAreDueSoon(cfg: Config, acts: seq<Action>)
    requires IsRun(cfg, acts)
    ensures DueSoon(Exec(cfg, acts).value)
  {
    if acts != [] {
      var n := |acts| - 1;
      RunsAreDueSoon(cfg, acts[..n]);
      KeepsDueSoon(cfg, Exec(cfg, acts[..n]).value, acts[n]);
    }
  }

  lemma EndInv(cfg: Config, acts: seq<Action>)
    requires IsRun(cfg, acts)
    ensures Inv(cfg, Exec(cfg, acts).value) && DueSoon(Exec(cfg, acts).value)
  {
    RunsKeepInv(cfg, acts, |acts|);
    assert acts[..|acts|] == acts;
    RunsAreDueSoon(cfg, acts);
  }

  /** One helpful step more: the rank falls and the room is still empty. */
  lemma ExtendTowardsReclaim(cfg: Config, acts: seq<Action>, r: RoomId) returns (a: Action)
    requires IsRun(cfg, acts) && r in Exec(cfg, acts).value.rooms
    requires Exec(cfg, acts).value.rooms[r].peers == {} && !Exec(cfg, acts).value.rooms[r].destroyed
    ensures IsRun(cfg, acts + [a]) && r in Exec(cfg, acts + [a]).value.rooms
    ensures Exec(cfg, acts + [a]).value.rooms[r].peers == {}
    ensures Rank(Exec(cfg, acts + [a]).value, r) < Rank(Exec(cfg, acts).value, r)
  {
    var w := Exec(cfg, acts).value;
    EndInv(cfg, acts);
    RankCanFall(cfg, w, r);
    a := Helpful(w, r);
    assert (acts + [a])[..|acts|] == acts;
    RankNeverRises(cfg, w, a, r);
  }

  /** Room r is there and empty in every state of the run from the given one on. */
  ghost predicate EmptyFrom(cfg: Config, all: seq<Action>, start: nat, r: RoomId) {
    && IsRun(cfg, all)
    && forall k: nat :: start <= k <= |all| ==> EmptyAt(cfg, all, k, r)
  }

  ghost predicate EmptyAt(cfg: Config, all: seq<Action>, k: nat, r: RoomId)
    requires IsRun(cfg, all) && k <= |all|
  {
    r in StateAt(cfg, all, k).rooms && StateAt(cfg, all, k).rooms[r].peers == {}
  }

  /** From every reachable state, an empty room is destroyed by a continuation of the run of at most
      Rank steps, with the room empty all along. */
  lemma {:induction false} EmptyRoomIsReclaimed(cfg: Config, acts: seq<Action>, r: RoomId) returns (all: seq<Action>)
    requires IsRun(cfg, acts) && r in Exec(cfg, acts).value.rooms
    requires Exec(cfg, acts).value.rooms[r].peers == {}
    ensures acts <= all && |all| <= |acts| + Rank(Exec(cfg, acts).value, r)
    ensures EmptyFrom(cfg, all, |acts|, r)
    ensures r in Exec(cfg, all).value.rooms && Exec(cfg, all).value.rooms[r].destroyed
    decreases Rank(Exec(cfg, acts).value, r)
  {
    StateAtEnd(cfg, acts, acts);
    if Exec(cfg, acts).value.rooms[r].destroyed {
      all := acts;
    } else {
      var a := ExtendTowardsReclaim(cfg, acts, r);
      all := EmptyRoomIsReclaimed(cfg, acts + [a], r);
      assert acts == (acts + [a])[..|acts|] == all[..|acts|];
      StateAtEnd(cfg, acts, all);
      EmptyOneEarlier(cfg, all, |acts|, r);
    }
  }

  lemma EmptyOneEarlier(cfg: Config, all: seq<Action>, k: nat, r: RoomId)
    requires k <= |all| && EmptyFrom(cfg, all, k + 1, r) && EmptyAt(cfg, all, k, r)
    ensures EmptyFrom(cfg, all, k, r)
  {
  }

  lemma StateAtEnd(cfg: Config, acts: seq<Action>, all: seq<Action>)
    requires IsRun(cfg, acts) && IsRun(cfg, all) && acts <= all
    ensures StateAt(cfg, all, |acts|) == Exec(cfg, acts).value
  {
    assert all[..|acts|] == acts;
  }
}
