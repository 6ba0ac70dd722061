/** What single sessions and timers do over whole runs: how a peer came to the room it joins, that every
    session gets where it is going when nobody is in its way, and what becomes of a stopped timer. */
module RoomSessions {
  import opened Wrappers
  import opened RoomSections
  import opened RoomWorld
  import opened RoomRuns

  // ---------------------------------------------------------------- how a peer came to join

  /** The last step before state j that moved p's session. */
  lemma {:induction false} LastMove(cfg: Config, acts: seq<Action>, j: nat, p: PeerId) returns (i: nat)
    requires IsRun(cfg, acts) && j <= |acts| && p in StateAt(cfg, acts, j).sessions
    ensures i < j && Moves(acts[i], p) && forall k :: i < k < j ==> !Moves(acts[k], p)
    ensures p in StateAt(cfg, acts, i + 1).sessions
    ensures StateAt(cfg, acts, i + 1).sessions[p] == StateAt(cfg, acts, j).sessions[p]
  {
    if j == 0 {
      assert false;
    } else {
      StepAt(cfg, acts, j - 1);
      if Moves(acts[j - 1], p) {
        i := j - 1;
      } else {
        OthersStayOut(cfg, StateAt(cfg, acts, j - 1), acts[j - 1], p);
        i := LastMove(cfg, acts, j - 1, p);
      }
    }
  }

  /** A session that a step does not move was there before it, the same. */
  lemma OthersStayOut(cfg: Config, w: World, a: Action, p: PeerId)
    requires Enabled(w, a) && !Moves(a, p) && p in Next(cfg, w, a).sessions
    ensures p in w.sessions && Next(cfg, w, a).sessions[p] == w.sessions[p]
  {
  }

  /** Which steps lead where. */
  lemma BeforeJoining(cfg: Config, w: World, a: Action, p: PeerId)
    requires Enabled(w, a) && Moves(a, p) && p in Next(cfg, w, a).sessions
    ensures var pc := Next(cfg, w, a).sessions[p].pc;
            && (pc.Joining? ==>
                  && p in w.sessions
                  && ((a == StartIdleTimer(p) && w.sessions[p].pc == Created(pc.room))
                      || (a == PasswordAccepted(p) && w.sessions[p].pc == Found(pc.room))))
            && (pc.Created? ==> a.CreateRoom? && a.room == pc.room && Find(cfg, w, a.name) == None
                                && Find(cfg, Next(cfg, w, a), a.name) == Some(pc.room))
            && (pc.Found? ==> a.FindRoom? && Find(cfg, w, a.name) == Some(pc.room))
  {
  }

  /** Of p's steps strictly between i and j, m is the only one. */
  ghost predicate OnlyMove(acts: seq<Action>, i: nat, m: nat, j: nat, p: PeerId) {
    && i < m < j <= |acts| && Moves(acts[i], p) && Moves(acts[m], p)
    && forall k :: i < k < j && k != m ==> !Moves(acts[k], p)
  }

  /** The step by which p came to room r, and the one step it took since. */
  ghost predicate CameTo(cfg: Config, acts: seq<Action>, i: nat, m: nat, r: RoomId, p: PeerId)
    requires IsRun(cfg, acts) && i < |acts| && m < |acts|
  {
    || (acts[i].CreateRoom? && acts[i].room == r && acts[m] == StartIdleTimer(p)
        && Find(cfg, StateAt(cfg, acts, i), acts[i].name) == None
        && Find(cfg, StateAt(cfg, acts, i + 1), acts[i].name) == Some(r))
    || (acts[i].FindRoom? && acts[m] == PasswordAccepted(p)
        && Find(cfg, StateAt(cfg, acts, i), acts[i].name) == Some(r))
  }

  /** Whoever is about to join a room created that very room itself, or found it by its name and then had its
      password accepted; and did nothing else in between. */
  lemma JoinersWereAdmitted(cfg: Config, acts: seq<Action>, j: nat, p: PeerId) returns (i: nat, m: nat)
    requires IsRun(cfg, acts) && j < |acts| && acts[j] == AddPeer(p)
    ensures OnlyMove(acts, i, m, j, p)
    ensures p in StateAt(cfg, acts, j).sessions && StateAt(cfg, acts, j).sessions[p].pc.Joining?
    ensures CameTo(cfg, acts, i, m, StateAt(cfg, acts, j).sessions[p].pc.room, p)
  {
    StepAt(cfg, acts, j);
    m := LastMove(cfg, acts, j, p);
    StepAt(cfg, acts, m);
    BeforeJoining(cfg, StateAt(cfg, acts, m), acts[m], p);
    i := LastMove(cfg, acts, m, p);
    StepAt(cfg, acts, i);
    BeforeJoining(cfg, StateAt(cfg, acts, i), acts[i], p);
  }

  // ---------------------------------------------------------------- sessions get where they are going

  lemma OneMore(cfg: Config, acts: seq<Action>, a: Action)
    requires IsRun(cfg, acts) && Enabled(Exec(cfg, acts).value, a)
    ensures Exec(cfg, acts + [a]) == Some(Next(cfg, Exec(cfg, acts).value, a))
  {
    assert (acts + [a])[..|acts|] == acts;
  }

  lemma Reachable(cfg: Config, acts: seq<Action>)
    requires IsRun(cfg, acts)
    ensures Inv(cfg, Exec(cfg, acts).value)
  {
    RunsKeepInv(cfg, acts, |acts|);
    assert acts[..|acts|] == acts;
  }

  /** p is in room r, says so itself, and is at rest. */
  ghost predicate Inside(w: World, p: PeerId, r: RoomId) {
    && r in w.rooms && p in w.rooms[r].peers
    && p in w.sessions && w.sessions[p] == Session(Idle, Some(r))
  }

  /** p is in no room and at rest. */
  ghost predicate Outside(w: World, p: PeerId) {
    && p in w.sessions && w.sessions[p] == Session(Idle, None)
    && forall r :: r in w.rooms ==> p !in w.rooms[r].peers
  }

  lemma RestingOutside(cfg: Config, w: World, p: PeerId)
    requires Inv(cfg, w) && p in w.sessions && w.sessions[p] == Session(Idle, None)
    ensures Outside(w, p)
  {
  }

  /** Nobody else's membership changes. */
  ghost predicate OthersUntouched(w: World, w': World, p: PeerId) {
    && (forall r :: r in w.rooms ==> r in w'.rooms && w'.rooms[r].peers - {p} == w.rooms[r].peers - {p})
    && (forall q :: q != p && q in w.sessions ==> q in w'.sessions && w'.sessions[q] == w.sessions[q])
  }

  /** A session that connects is outside, and one outside can disconnect. */
  lemma ConnectAndDisconnect(cfg: Config, acts: seq<Action>, p: PeerId)
    requires IsRun(cfg, acts)
    ensures p !in Exec(cfg, acts).value.sessions ==>
              IsRun(cfg, acts + [Connect(p)]) && Outside(Exec(cfg, acts + [Connect(p)]).value, p)
    ensures Outside(Exec(cfg, acts).value, p) ==>
              IsRun(cfg, acts + [Disconnect(p)]) && p !in Exec(cfg, acts + [Disconnect(p)]).value.sessions
  {
    var w := Exec(cfg, acts).value;
    if p !in w.sessions {
      OneMore(cfg, acts, Connect(p));
      Reachable(cfg, acts + [Connect(p)]);
      RestingOutside(cfg, Exec(cfg, acts + [Connect(p)]).value, p);
    } else if Outside(w, p) {
      OneMore(cfg, acts, Disconnect(p));
    }
  }

  /** Find, and the password check passes; Add; setRoom. */
  function JoinSteps(p: PeerId, name: string): seq<Action> {
    [FindRoom(p, name)] + [PasswordAccepted(p)] + [AddPeer(p)] + [SetRoom(p)]
  }

  /** Undisturbed, a session outside that asks for a room that Find knows and that has space gets in. */
  lemma JoinsByName(cfg: Config, acts: seq<Action>, p: PeerId, name: string)
    requires IsRun(cfg, acts)
    requires var w := Exec(cfg, acts).value;
             && Outside(w, p) && Find(cfg, w, name).Some?
             && Find(cfg, w, name).value in w.rooms && |w.rooms[Find(cfg, w, name).value].peers| < cfg.maxPeers
    ensures var w := Exec(cfg, acts).value; var all := acts + JoinSteps(p, name);
            && IsRun(cfg, all) && Inside(Exec(cfg, all).value, p, Find(cfg, w, name).value)
            && OthersUntouched(w, Exec(cfg, all).value, p)
  {
    Reachable(cfg, acts);
    FoundIsLive(cfg, Exec(cfg, acts).value, name);
    FindsAndIsAccepted(cfg, acts, p, name);
    var b := acts + [FindRoom(p, name)] + [PasswordAccepted(p)];
    JoinsAndSettles(cfg, b, p, Find(cfg, Exec(cfg, acts).value, name).value);
    assert b + [AddPeer(p)] + [SetRoom(p)] == acts + JoinSteps(p, name);
    StillUntouched(Exec(cfg, acts).value, Exec(cfg, b).value, Exec(cfg, acts + JoinSteps(p, name)).value, p);
  }

  lemma StillUntouched(w: World, w1: World, w2: World, p: PeerId)
    requires p in w1.sessions && w1.rooms == w.rooms && w1.sessions == w.sessions[p := w1.sessions[p]]
    requires OthersUntouched(w1, w2, p)
    ensures OthersUntouched(w, w2, p)
  {
  }

  lemma FoundIsLive(cfg: Config, w: World, name: string)
    requires Inv(cfg, w) && Find(cfg, w, name).Some?
    ensures var r := Find(cfg, w, name).value;
            r in w.rooms && Registered(w, r) && !w.rooms[r].destroyed && w.rooms[r].maxPeers == cfg.maxPeers
  {
    assert RoomOk(cfg, w.rooms[Find(cfg, w, name).value]);
  }

  lemma FindsAndIsAccepted(cfg: Config, acts: seq<Action>, p: PeerId, name: string)
    requires IsRun(cfg, acts) && Outside(Exec(cfg, acts).value, p) && Find(cfg, Exec(cfg, acts).value, name).Some?
    ensures var w := Exec(cfg, acts).value;
            Exec(cfg, acts + [FindRoom(p, name)] + [PasswordAccepted(p)])
            == Some(w.(sessions := w.sessions[p := Session(Joining(Find(cfg, w, name).value), None)]))
  {
    var w := Exec(cfg, acts).value;
    OneMore(cfg, acts, FindRoom(p, name));
    OneMore(cfg, acts + [FindRoom(p, name)], PasswordAccepted(p));
    var w' := Exec(cfg, acts + [FindRoom(p, name)] + [PasswordAccepted(p)]).value;
    assert w'.sessions == w.sessions[p := w'.sessions[p]];
  }

  lemma JoinsAndSettles(cfg: Config, acts: seq<Action>, p: PeerId, r: RoomId)
    requires IsRun(cfg, acts)
    requires var w := Exec(cfg, acts).value;
             && p in w.sessions && w.sessions[p] == Session(Joining(r), None)
             && r in w.rooms && Registered(w, r) && !w.rooms[r].destroyed && |w.rooms[r].peers| < w.rooms[r].maxPeers
    ensures var w := Exec(cfg, acts).value; var all := acts + [AddPeer(p)] + [SetRoom(p)];
            && IsRun(cfg, all) && Inside(Exec(cfg, all).value, p, r) && OthersUntouched(w, Exec(cfg, all).value, p)
  {
    OneMore(cfg, acts, AddPeer(p));
    OneMore(cfg, acts + [AddPeer(p)], SetRoom(p));
  }

  /** With a wrong password it stays outside, and nothing changes. */
  lemma RejectedStaysOutside(cfg: Config, acts: seq<Action>, p: PeerId, name: string)
    requires IsRun(cfg, acts) && Outside(Exec(cfg, acts).value, p) && Find(cfg, Exec(cfg, acts).value, name).Some?
    ensures var all := acts + [FindRoom(p, name)] + [PasswordRejected(p)];
            IsRun(cfg, all) && Exec(cfg, all) == Exec(cfg, acts)
  {
    var w := Exec(cfg, acts).value;
    OneMore(cfg, acts, FindRoom(p, name));
    OneMore(cfg, acts + [FindRoom(p, name)], PasswordRejected(p));
    var w' := Exec(cfg, acts + [FindRoom(p, name)] + [PasswordRejected(p)]).value;
    assert w'.sessions == w.sessions;
  }

  /** A name that nobody has: nothing happens. */
  lemma UnknownNameStaysOutside(cfg: Config, acts: seq<Action>, p: PeerId, name: string)
    requires IsRun(cfg, acts) && Outside(Exec(cfg, acts).value, p) && Find(cfg, Exec(cfg, acts).value, name).None?
    ensures IsRun(cfg, acts + [FindRoom(p, name)]) && Exec(cfg, acts + [FindRoom(p, name)]) == Exec(cfg, acts)
  {
    OneMore(cfg, acts, FindRoom(p, name));
  }

  /** A create under no name, under a taken one, or with the registry full: nothing happens. */
  lemma RefusedCreateStaysOutside(cfg: Config, acts: seq<Action>, p: PeerId, name: string, r: RoomId)
    requires IsRun(cfg, acts) && Outside(Exec(cfg, acts).value, p) && r !in Exec(cfg, acts).value.rooms
    requires var w := Exec(cfg, acts).value; name == "" || Find(cfg, w, name).Some? || |w.registry| >= cfg.maxRooms
    ensures Exec(cfg, acts + [CreateRoom(p, name, r)]) == Exec(cfg, acts)
  {
    OneMore(cfg, acts, CreateRoom(p, name, r));
  }

  /** A join that is refused leaves the session outside, and every room as it was. */
  lemma RefusedStaysOutside(cfg: Config, acts: seq<Action>, p: PeerId)
    requires IsRun(cfg, acts)
    requires var w := Exec(cfg, acts).value; p in w.sessions && w.sessions[p].pc.Joining?
    ensures var w := Exec(cfg, acts).value; var all := acts + [AddPeer(p)];
            && IsRun(cfg, all)
            && var w' := Exec(cfg, all).value; var r := w.sessions[p].pc.room;
            && r in w.rooms
            && (w.rooms[r].destroyed || |w.rooms[r].peers| == cfg.maxPeers ==> Outside(w', p) && w'.rooms == w.rooms)
            && (!w.rooms[r].destroyed && |w.rooms[r].peers| < cfg.maxPeers ==> p in w'.rooms[r].peers)
  {
    Reachable(cfg, acts);
    var w := Exec(cfg, acts).value;
    assert SessionOk(w.rooms, w.sessions[p]);
    AddOutcome(cfg, w, w.sessions[p].pc.room, p);
    OneMore(cfg, acts, AddPeer(p));
    Reachable(cfg, acts + [AddPeer(p)]);
    var w' := Exec(cfg, acts + [AddPeer(p)]).value;
    if w'.sessions[p] == Session(Idle, None) {
      RestingOutside(cfg, w', p);
    }
  }

  /** Undisturbed, a session outside that creates a room under a free name starts its idle timer and is its first
      member. */
  lemma CreatesAndJoins(cfg: Config, acts: seq<Action>, p: PeerId, name: string, r: RoomId)
    requires IsRun(cfg, acts) && cfg.maxPeers >= 1
    requires var w := Exec(cfg, acts).value;
             && Outside(w, p) && r !in w.rooms
             && name != "" && Find(cfg, w, name) == None && |w.registry| < cfg.maxRooms
    ensures var w := Exec(cfg, acts).value;
            var created := acts + [CreateRoom(p, name, r)] + [StartIdleTimer(p)];
            var all := created + [AddPeer(p)] + [SetRoom(p)];
            && IsRun(cfg, created) && IsRun(cfg, all)
            && var w1 := Exec(cfg, created).value;
            && r in w1.rooms && w1.rooms[r].name == name && w1.rooms[r].armed
            && (r, w1.rooms[r].generation) in w1.callbacks
            && w1.callbacks[(r, w1.rooms[r].generation)] == Callback(w.now + ROOM_IDLE_NO_JOIN, false)
            && Inside(Exec(cfg, all).value, p, r) && Exec(cfg, all).value.rooms[r].peers == {p}
            && OthersUntouched(w, Exec(cfg, all).value, p)
  {
    CreatesAndSchedules(cfg, acts, p, name, r);
    var b := acts + [CreateRoom(p, name, r)] + [StartIdleTimer(p)];
    JoinsAndSettles(cfg, b, p, r);
    OnlyMember(cfg, b, p, r);
  }

  lemma CreatesAndSchedules(cfg: Config, acts: seq<Action>, p: PeerId, name: string, r: RoomId)
    requires IsRun(cfg, acts)
    requires var w := Exec(cfg, acts).value;
             && Outside(w, p) && r !in w.rooms
             && name != "" && Find(cfg, w, name) == None && |w.registry| < cfg.maxRooms
    ensures var w := Exec(cfg, acts).value;
            var created := acts + [CreateRoom(p, name, r)] + [StartIdleTimer(p)];
            && IsRun(cfg, created)
            && var w' := Exec(cfg, created).value;
            && r in w'.rooms
            && w'.rooms[r] == NewRoom(name, cfg.lower(name), cfg.maxPeers).(armed := true, generation := 1)
            && Registered(w', r) && OthersUntouched(w, w', p)
            && p in w'.sessions && w'.sessions[p] == Session(Joining(r), None)
            && (r, 1) in w'.callbacks && w'.callbacks[(r, 1)] == Callback(w.now + ROOM_IDLE_NO_JOIN, false)
  {
    Creates(cfg, acts, p, name, r);
    StartsTimer(cfg, acts + [CreateRoom(p, name, r)], p, r);
  }

  lemma StartsTimer(cfg: Config, acts: seq<Action>, p: PeerId, r: RoomId)
    requires IsRun(cfg, acts)
    requires var w := Exec(cfg, acts).value;
             && p in w.sessions && w.sessions[p] == Session(Created(r), None)
             && r in w.rooms && Unwatched(w.rooms[r]) && w.rooms[r].generation == 0
    ensures var w := Exec(cfg, acts).value;
            Exec(cfg, acts + [StartIdleTimer(p)])
            == Some(w.(rooms := w.rooms[r := w.rooms[r].(armed := true, generation := 1)],
                       sessions := w.sessions[p := Session(Joining(r), None)],
                       callbacks := w.callbacks[(r, 1) := Callback(w.now + ROOM_IDLE_NO_JOIN, false)]))
  {
    StartsTimerNext(cfg, Exec(cfg, acts).value, p, r);
    OneMore(cfg, acts, StartIdleTimer(p));
  }

  lemma StartsTimerNext(cfg: Config, w: World, p: PeerId, r: RoomId)
    requires p in w.sessions && w.sessions[p] == Session(Created(r), None)
    requires r in w.rooms && Unwatched(w.rooms[r]) && w.rooms[r].generation == 0
    ensures Enabled(w, StartIdleTimer(p))
    ensures Next(cfg, w, StartIdleTimer(p))
            == w.(rooms := w.rooms[r := w.rooms[r].(armed := true, generation := 1)],
                  sessions := w.sessions[p := Session(Joining(r), None)],
                  callbacks := w.callbacks[(r, 1) := Callback(w.now + ROOM_IDLE_NO_JOIN, false)])
  {
    assert Schedule(w.rooms[r]) == (w.rooms[r].(armed := true, generation := 1), Some(1));
  }

  lemma Creates(cfg: Config, acts: seq<Action>, p: PeerId, name: string, r: RoomId)
    requires IsRun(cfg, acts)
    requires var w := Exec(cfg, acts).value;
             && Outside(w, p) && r !in w.rooms
             && name != "" && Find(cfg, w, name) == None && |w.registry| < cfg.maxRooms
    ensures var w := Exec(cfg, acts).value;
            Exec(cfg, acts + [CreateRoom(p, name, r)])
            == Some(w.(registry := w.registry[cfg.lower(name) := r],
                       rooms := w.rooms[r := NewRoom(name, cfg.lower(name), cfg.maxPeers)],
                       sessions := w.sessions[p := Session(Created(r), None)]))
  {
    OneMore(cfg, acts, CreateRoom(p, name, r));
  }

  lemma OnlyMember(cfg: Config, acts: seq<Action>, p: PeerId, r: RoomId)
    requires IsRun(cfg, acts)
    requires var w := Exec(cfg, acts).value; r in w.rooms && w.rooms[r].peers == {}
    requires var all := acts + [AddPeer(p)] + [SetRoom(p)];
             && IsRun(cfg, all) && Inside(Exec(cfg, all).value, p, r)
             && OthersUntouched(Exec(cfg, acts).value, Exec(cfg, all).value, p)
    ensures Exec(cfg, acts + [AddPeer(p)] + [SetRoom(p)]).value.rooms[r].peers == {p}
  {
    var peers := Exec(cfg, acts + [AddPeer(p)] + [SetRoom(p)]).value.rooms[r].peers;
    assert peers - {p} == {} - {p} == {};
    assert peers == (peers - {p}) + {p};
  }

  /** Leave: read the room, Remove, clear the pointer. */
  function LeaveSteps(p: PeerId): seq<Action> {
    [BeginLeave(p)] + [RemovePeer(p)] + [ClearRoom(p)]
  }

  /** Undisturbed, a session inside a room that leaves is outside; the last one out starts the room's timer. */
  lemma Leaves(cfg: Config, acts: seq<Action>, p: PeerId, r: RoomId) returns (all: seq<Action>)
    requires IsRun(cfg, acts) && Inside(Exec(cfg, acts).value, p, r)
    ensures IsRun(cfg, all) && Outside(Exec(cfg, all).value, p)
    ensures OthersUntouched(Exec(cfg, acts).value, Exec(cfg, all).value, p)
    ensures var w, w' := Exec(cfg, acts).value, Exec(cfg, all).value;
            var last := w.rooms[r].peers == {p};
            && all == acts + LeaveSteps(p) + (if last then [ScheduleEmpty(p)] else [])
            && r in w'.rooms
            && (last ==> && w'.rooms[r].armed && (r, w'.rooms[r].generation) in w'.callbacks
                         && w'.callbacks[(r, w'.rooms[r].generation)] == Callback(w.now + ROOM_EMPTY_DESTROY, false))
            && (!last ==> w'.rooms[r] == w.rooms[r].(peers := w.rooms[r].peers - {p}))
  {
    var w := Exec(cfg, acts).value;
    InsideIsLive(cfg, acts, p, r);
    StepsOut(cfg, acts, p, r);
    all := acts + LeaveSteps(p);
    if w.rooms[r].peers == {p} {
      EmptiedIsScheduled(cfg, all, p, r);
      all := all + [ScheduleEmpty(p)];
    } else {
      assert all + [] == all;
    }
    RestsOutside(cfg, all, p);
  }

  lemma RestsOutside(cfg: Config, acts: seq<Action>, p: PeerId)
    requires IsRun(cfg, acts)
    requires p in Exec(cfg, acts).value.sessions && Exec(cfg, acts).value.sessions[p] == Session(Idle, None)
    ensures Outside(Exec(cfg, acts).value, p)
  {
    Reachable(cfg, acts);
    RestingOutside(cfg, Exec(cfg, acts).value, p);
  }

  lemma InsideIsLive(cfg: Config, acts: seq<Action>, p: PeerId, r: RoomId)
    requires IsRun(cfg, acts) && Inside(Exec(cfg, acts).value, p, r)
    ensures !Exec(cfg, acts).value.rooms[r].destroyed && !Exec(cfg, acts).value.rooms[r].armed
  {
    Reachable(cfg, acts);
    assert RoomOk(cfg, Exec(cfg, acts).value.rooms[r]);
  }

  lemma StepsOut(cfg: Config, acts: seq<Action>, p: PeerId, r: RoomId)
    requires IsRun(cfg, acts) && Inside(Exec(cfg, acts).value, p, r)
    ensures var w := Exec(cfg, acts).value;
            Exec(cfg, acts + LeaveSteps(p))
            == Some(w.(rooms := w.rooms[r := w.rooms[r].(peers := w.rooms[r].peers - {p})],
                       sessions := w.sessions[
                         p := Session(if w.rooms[r].peers == {p} then Scheduling(r) else Idle, None)]))
  {
    var w := Exec(cfg, acts).value;
    OneMore(cfg, acts, BeginLeave(p));
    OneMore(cfg, acts + [BeginLeave(p)], RemovePeer(p));
    OneMore(cfg, acts + [BeginLeave(p)] + [RemovePeer(p)], ClearRoom(p));
    assert acts + [BeginLeave(p)] + [RemovePeer(p)] + [ClearRoom(p)] == acts + LeaveSteps(p);
    LastOne(w.rooms[r].peers, p);
    var w' := Exec(cfg, acts + LeaveSteps(p)).value;
    assert w'.sessions == w.sessions[p := w'.sessions[p]];
  }

  lemma LastOne(peers: set<PeerId>, p: PeerId)
    requires p in peers
    ensures peers - {p} == {} <==> peers == {p}
  {
    assert peers == (peers - {p}) + {p};
  }

  lemma EmptiedIsScheduled(cfg: Config, acts: seq<Action>, p: PeerId, r: RoomId)
    requires IsRun(cfg, acts)
    requires var w := Exec(cfg, acts).value;
             p in w.sessions && w.sessions[p] == Session(Scheduling(r), None) && r in w.rooms && Unwatched(w.rooms[r])
    ensures var w := Exec(cfg, acts).value; var all := acts + [ScheduleEmpty(p)];
            && IsRun(cfg, all)
            && var w' := Exec(cfg, all).value;
            && w'.sessions == w.sessions[p := Session(Idle, None)]
            && w'.rooms == w.rooms[r := w.rooms[r].(armed := true, generation := w.rooms[r].generation + 1)]
            && w'.callbacks
               == w.callbacks[(r, w.rooms[r].generation + 1) := Callback(w.now + ROOM_EMPTY_DESTROY, false)]
  {
    OneMore(cfg, acts, ScheduleEmpty(p));
  }

  // ---------------------------------------------------------------- stopped timers

  /** A timer that has not fired is its room's current one: stopping it removes it. */
  ghost predicate UnfiredIsCurrent(w: World) {
    forall c :: c in w.callbacks && !w.callbacks[c].fired ==>
      c.0 in w.rooms && w.rooms[c.0].armed && w.rooms[c.0].generation == c.1
  }

  lemma KeepsUnfiredCurrent(cfg: Config, w: World, a: Action)
    requires Enabled(w, a) && CallbackInv(w) && UnfiredIsCurrent(w)
    ensures UnfiredIsCurrent(Next(cfg, w, a))
  {
    if LeavesRoomsAlone(a) {
      OnlySessionsMove(cfg, w, a);
    } else if a.RunDestroy? {
      DestroyKeepsUnfired(w, a.r, a.generation);
    } else if a.AddPeer? {
      AddKeepsUnfired(w, a.p, w.sessions[a.p].pc.room);
    } else if a.StartIdleTimer? {
      ScheduleKeepsUnfired(w, w.sessions[a.p].pc.room, ROOM_IDLE_NO_JOIN);
    } else if a.ScheduleEmpty? {
      ScheduleKeepsUnfired(w, w.sessions[a.p].pc.room, ROOM_EMPTY_DESTROY);
    }
  }

  lemma ScheduleKeepsUnfired(w: World, r: RoomId, delay: nat)
    requires CallbackInv(w) && UnfiredIsCurrent(w) && r in w.rooms
    ensures UnfiredIsCurrent(ScheduleIn(w, r, delay))
  {
  }

  lemma DestroyKeepsUnfired(w: World, r: RoomId, g: nat)
    requires CallbackInv(w) && UnfiredIsCurrent(w) && r in w.rooms && (r, g) in w.callbacks && w.callbacks[(r, g)].fired
    ensures UnfiredIsCurrent(DestroyIn(w, r, g))
  {
  }

  lemma AddKeepsUnfired(w: World, p: PeerId, r: RoomId)
    requires CallbackInv(w) && UnfiredIsCurrent(w) && p in w.sessions && r in w.rooms
    ensures UnfiredIsCurrent(AddIn(w, p, r))
  {
    var w' := AddIn(w, p, r);
    forall c | c in w'.callbacks && !w'.callbacks[c].fired
      ensures c.0 in w'.rooms && w'.rooms[c.0].armed && w'.rooms[c.0].generation == c.1
    {
      assert c in w.callbacks && w.callbacks[c] == w'.callbacks[c];
      assert c == (c.0, c.1);
    }
  }

  lemma {:induction false} RunsKeepUnfiredCurrent(cfg: Config, acts: seq<Action>, k: nat)
    requires IsRun(cfg, acts) && k <= |acts|
    ensures UnfiredIsCurrent(StateAt(cfg, acts, k))
  {
    if k > 0 {
      RunsKeepUnfiredCurrent(cfg, acts, k - 1);
      CallbacksOk(cfg, acts, k - 1);
      StepAt(cfg, acts, k - 1);
      KeepsUnfiredCurrent(cfg, StateAt(cfg, acts, k - 1), acts[k - 1]);
    }
  }

  /** A join before the timer fires stops it for good: right after it no callback of the room is pending but those
      that had fired already and were waiting for the locks. */
  lemma JoinStopsTheTimer(cfg: Config, acts: seq<Action>, k: nat, p: PeerId, g: nat)
    requires IsRun(cfg, acts) && k < |acts| && acts[k] == AddPeer(p)
    requires p in StateAt(cfg, acts, k).sessions && StateAt(cfg, acts, k).sessions[p].pc.Joining?
    requires var r := StateAt(cfg, acts, k).sessions[p].pc.room;
             r in StateAt(cfg, acts, k + 1).rooms && p in StateAt(cfg, acts, k + 1).rooms[r].peers
    ensures var r := StateAt(cfg, acts, k).sessions[p].pc.room;
            (r, g) in StateAt(cfg, acts, k + 1).callbacks ==>
              (r, g) in StateAt(cfg, acts, k).callbacks && StateAt(cfg, acts, k).callbacks[(r, g)].fired
  {
    var r := StateAt(cfg, acts, k).sessions[p].pc.room;
    RunsKeepUnfiredCurrent(cfg, acts, k + 1);
    MemberMeansUnarmed(cfg, acts, k + 1, p, r);
    assert (r, g).0 == r;
    StepAt(cfg, acts, k);
    AddAddsNoCallback(StateAt(cfg, acts, k), p, r, (r, g));
  }

  lemma MemberMeansUnarmed(cfg: Config, acts: seq<Action>, k: nat, p: PeerId, r: RoomId)
    requires IsRun(cfg, acts) && k <= |acts| && r in StateAt(cfg, acts, k).rooms
    requires p in StateAt(cfg, acts, k).rooms[r].peers
    ensures !StateAt(cfg, acts, k).rooms[r].armed
  {
    RunsKeepInv(cfg, acts, k);
    assert RoomOk(cfg, StateAt(cfg, acts, k).rooms[r]);
  }

  lemma AddAddsNoCallback(w: World, p: PeerId, r: RoomId, c: (RoomId, nat))
    requires p in w.sessions && r in w.rooms
    ensures var w' := AddIn(w, p, r); c in w'.callbacks ==> c in w.callbacks && w'.callbacks[c] == w.callbacks[c]
  {
  }

  // ---------------------------------------------------------------- callbacks run once

  lemma RunConsumes(cfg: Config, acts: seq<Action>, i: nat, r: RoomId, g: nat)
    requires IsRun(cfg, acts) && i < |acts| && acts[i] == RunDestroy(r, g)
    ensures r in StateAt(cfg, acts, i + 1).rooms && g <= StateAt(cfg, acts, i + 1).rooms[r].generation
    ensures (r, g) !in StateAt(cfg, acts, i + 1).callbacks
  {
    StepAt(cfg, acts, i);
    CallbacksOk(cfg, acts, i);
    assert (r, g).0 == r && (r, g).1 == g;
  }

  /** Each timer's callback runs at most once. */
  lemma {:induction false} CallbackRunsOnce(cfg: Config, acts: seq<Action>, i: nat, j: nat, r: RoomId, g: nat)
    requires IsRun(cfg, acts) && i < j <= |acts| && acts[i] == RunDestroy(r, g)
    ensures (r, g) !in StateAt(cfg, acts, j).callbacks
    ensures j < |acts| ==> acts[j] != RunDestroy(r, g)
    decreases j
  {
    RunConsumes(cfg, acts, i, r, g);
    if j > i + 1 {
      CallbackRunsOnce(cfg, acts, i, j - 1, r, g);
      RoomHistory(cfg, acts, i + 1, j - 1, r);
      RoomHistory(cfg, acts, i + 1, j, r);
      if (r, g) in StateAt(cfg, acts, j).callbacks {
        ArmedBefore(cfg, acts, j - 1, r, g);
        NewGeneration(cfg, acts, j - 1, r, g);
      }
    }
    if j < |acts| {
      StepAt(cfg, acts, j);
    }
  }

  /** A timer is armed with a generation above all before it. */
  lemma NewGeneration(cfg: Config, acts: seq<Action>, k: nat, r: RoomId, g: nat)
    requires IsRun(cfg, acts) && k < |acts| && r in StateAt(cfg, acts, k).rooms
    requires Arms(StateAt(cfg, acts, k), acts[k], StateAt(cfg, acts, k + 1), r, g)
    ensures StateAt(cfg, acts, k).rooms[r].generation < g
  {
    StepAt(cfg, acts, k);
    CallbacksOk(cfg, acts, k);
  }
}
