/** Every interleaving of the room lifecycle. Each step is one critical section, or one of the gaps
    between them: sessions carry a program counter, timers carry a due time, and a timer that has
    fired is a callback waiting for the locks. Rooms are identified apart from their names, since a
    name can be used again after its room is gone. */
module RoomWorld {
  import opened Wrappers
  import opened RoomSections

  const ROOM_EMPTY_DESTROY: nat := 30_000_000_000   // nanoseconds
  const ROOM_IDLE_NO_JOIN: nat := 60_000_000_000

  /** Where a session's thread is. A thread at a room holds the pointer it will use next. */
  datatype Pc =
    | Idle
    | Created(room: RoomId)                 // Create left its lock; startIdleDestroyTimer is next
    | Found(room: RoomId)                   // Find returned; the password check is next
    | Joining(room: RoomId)                 // Room.Add is next
    | Added(room: RoomId)                   // Add left its locks; setRoom(r) is next
    | Leaving(room: RoomId)                 // cleanupPeer read the current room; Remove is next
    | Removed(room: RoomId, empty: bool)    // Remove left its lock; setRoom(nil) is next
    | Scheduling(room: RoomId)              // scheduleEmptyDestroy is next

  /** `current` is the peer's atomic room pointer. */
  datatype Session = Session(pc: Pc, current: Option<RoomId>)

  datatype Callback = Callback(due: nat, fired: bool)

  datatype World = World(
    now: nat,
    registry: map<string, RoomId>,
    rooms: map<RoomId, RoomState>,                 // every room ever created
    sessions: map<PeerId, Session>,
    callbacks: map<(RoomId, nat), Callback>)       // keyed by room and generation

  datatype Action =
    | Tick(elapsed: nat)
    | Connect(p: PeerId)
    | Disconnect(p: PeerId)
    | CreateRoom(p: PeerId, name: string, room: RoomId)
    | StartIdleTimer(p: PeerId)
    | FindRoom(p: PeerId, name: string)
    | PasswordAccepted(p: PeerId)
    | PasswordRejected(p: PeerId)
    | AddPeer(p: PeerId)
    | SetRoom(p: PeerId)
    | BeginLeave(p: PeerId)
    | RemovePeer(p: PeerId)
    | ClearRoom(p: PeerId)
    | ScheduleEmpty(p: PeerId)
    | FireTimer(r: RoomId, generation: nat)
    | RunDestroy(r: RoomId, generation: nat)

  const EMPTY_WORLD := World(0, map[], map[], map[], map[])

  predicate Registered(w: World, r: RoomId)
    requires r in w.rooms
  {
    w.rooms[r].key in w.registry && w.registry[w.rooms[r].key] == r
  }

  /** Registry.Find. */
  function Find(cfg: Config, w: World, name: string): Option<RoomId> {
    var key := cfg.lower(name);
    if key in w.registry then Some(w.registry[key]) else None
  }

  // ---------------------------------------------------------------- steps

  predicate At(w: World, p: PeerId) {
    p in w.sessions
  }

  ghost predicate Enabled(w: World, a: Action) {
    match a
    case Tick(_) => true
    case Connect(p) => p !in w.sessions
    case Disconnect(p) => At(w, p) && w.sessions[p] == Session(Idle, None)
    case CreateRoom(p, _, r) => At(w, p) && w.sessions[p] == Session(Idle, None) && r !in w.rooms
    case StartIdleTimer(p) => At(w, p) && w.sessions[p].pc.Created? && w.sessions[p].pc.room in w.rooms
    case FindRoom(p, _) => At(w, p) && w.sessions[p] == Session(Idle, None)
    case PasswordAccepted(p) => At(w, p) && w.sessions[p].pc.Found?
    case PasswordRejected(p) => At(w, p) && w.sessions[p].pc.Found?
    case AddPeer(p) => At(w, p) && w.sessions[p].pc.Joining? && w.sessions[p].pc.room in w.rooms
    case SetRoom(p) => At(w, p) && w.sessions[p].pc.Added?
    case BeginLeave(p) => At(w, p) && w.sessions[p].pc.Idle? && w.sessions[p].current.Some?
    case RemovePeer(p) => At(w, p) && w.sessions[p].pc.Leaving? && w.sessions[p].pc.room in w.rooms
    case ClearRoom(p) => At(w, p) && w.sessions[p].pc.Removed?
    case ScheduleEmpty(p) => At(w, p) && w.sessions[p].pc.Scheduling? && w.sessions[p].pc.room in w.rooms
    case FireTimer(r, g) => (r, g) in w.callbacks && !w.callbacks[(r, g)].fired && w.callbacks[(r, g)].due <= w.now
    case RunDestroy(r, g) => (r, g) in w.callbacks && w.callbacks[(r, g)].fired && r in w.rooms
  }

  function Goto(w: World, p: PeerId, pc: Pc): World
    requires p in w.sessions
  {
    w.(sessions := w.sessions[p := w.sessions[p].(pc := pc)])
  }

  function SetCurrent(w: World, p: PeerId, current: Option<RoomId>): World
    requires p in w.sessions
  {
    w.(sessions := w.sessions[p := w.sessions[p].(current := current)])
  }

  /** Registry.Create: the name must be new up to case and the registry below its cap. */
  function Create(cfg: Config, w: World, p: PeerId, name: string, r: RoomId): World
    requires p in w.sessions
  {
    var key := cfg.lower(name);
    if name == "" || key in w.registry || |w.registry| >= cfg.maxRooms then w
    else Goto(w.(registry := w.registry[key := r],
                rooms := w.rooms[r := NewRoom(name, key, cfg.maxPeers)]), p, Created(r))
  }

  /** scheduleDestroyIfEmpty with the given delay. */
  function ScheduleIn(w: World, r: RoomId, delay: nat): World
    requires r in w.rooms
  {
    var (s, armed) := Schedule(w.rooms[r]);
    w.(rooms := w.rooms[r := s],
       callbacks := match armed
                    case None => w.callbacks
                    case Some(g) => w.callbacks[(r, g) := Callback(w.now + delay, false)])
  }

  /** Timer.Stop: a timer that has not fired never will; a fired callback is out of reach. */
  function StopTimer(callbacks: map<(RoomId, nat), Callback>, r: RoomId,
                     cancelled: Option<nat>): map<(RoomId, nat), Callback> {
    match cancelled
    case None => callbacks
    case Some(g) => if (r, g) in callbacks && !callbacks[(r, g)].fired then callbacks - {(r, g)} else callbacks
  }

  function AddIn(w: World, p: PeerId, r: RoomId): World
    requires p in w.sessions && r in w.rooms
  {
    var (s, result) := Add(w.rooms[r], Registered(w, r), p);
    if result.Joined? then
      Goto(w.(rooms := w.rooms[r := s], callbacks := StopTimer(w.callbacks, r, Cancelled(w.rooms[r]))), p, Added(r))
    else
      Goto(w, p, Idle)
  }

  function RemoveIn(w: World, p: PeerId, r: RoomId): World
    requires p in w.sessions && r in w.rooms
  {
    var (s, found, empty) := Remove(w.rooms[r], p);
    if found then Goto(w.(rooms := w.rooms[r := s]), p, Removed(r, empty)) else Goto(w, p, Idle)
  }

  function DestroyIn(w: World, r: RoomId, g: nat): World
    requires r in w.rooms
  {
    var (s, done) := Destroy(w.rooms[r], Registered(w, r), g);
    var w' := w.(callbacks := w.callbacks - {(r, g)});
    if done then w'.(rooms := w.rooms[r := s], registry := w.registry - {s.key}) else w'
  }

  function Next(cfg: Config, w: World, a: Action): World
    requires Enabled(w, a)
  {
    match a
    case Tick(elapsed) => w.(now := w.now + elapsed)
    case Connect(p) => w.(sessions := w.sessions[p := Session(Idle, None)])
    case Disconnect(p) => w.(sessions := w.sessions - {p})
    case CreateRoom(p, name, r) => Create(cfg, w, p, name, r)
    case StartIdleTimer(p) =>
      var r := w.sessions[p].pc.room;
      Goto(ScheduleIn(w, r, ROOM_IDLE_NO_JOIN), p, Joining(r))
    case FindRoom(p, name) =>
      (match Find(cfg, w, name)
       case Some(r) => Goto(w, p, Found(r))
       case None => w)
    case PasswordAccepted(p) => Goto(w, p, Joining(w.sessions[p].pc.room))
    case PasswordRejected(p) => Goto(w, p, Idle)
    case AddPeer(p) => AddIn(w, p, w.sessions[p].pc.room)
    case SetRoom(p) => SetCurrent(Goto(w, p, Idle), p, Some(w.sessions[p].pc.room))
    case BeginLeave(p) => Goto(w, p, Leaving(w.sessions[p].current.value))
    case RemovePeer(p) => RemoveIn(w, p, w.sessions[p].pc.room)
    case ClearRoom(p) =>
      var pc := w.sessions[p].pc;
      SetCurrent(Goto(w, p, if pc.empty then Scheduling(pc.room) else Idle), p, None)
    case ScheduleEmpty(p) => Goto(ScheduleIn(w, w.sessions[p].pc.room, ROOM_EMPTY_DESTROY), p, Idle)
    case FireTimer(r, g) => w.(callbacks := w.callbacks[(r, g) := w.callbacks[(r, g)].(fired := true)])
    case RunDestroy(r, g) => DestroyIn(w, r, g)
  }

  // ---------------------------------------------------------------- the invariant

  /** The registry holds exactly the rooms that are not destroyed, each under its own key. */
  ghost predicate RegistryInv(cfg: Config, w: World) {
    && (forall k :: k in w.registry ==>
          && w.registry[k] in w.rooms
          && w.rooms[w.registry[k]].key == k
          && !w.rooms[w.registry[k]].destroyed)
    && (forall r :: r in w.rooms && !w.rooms[r].destroyed ==> Registered(w, r))
    && |w.registry| <= cfg.maxRooms
  }

  ghost predicate RoomOk(cfg: Config, s: RoomState) {
    && s.key == cfg.lower(s.name)
    && s.maxPeers == cfg.maxPeers
    && |s.peers| <= s.maxPeers
    && (s.armed ==> s.peers == {} && !s.destroyed)
    && (s.destroyed ==> s.peers == {})
  }

  ghost predicate RoomsInv(cfg: Config, w: World) {
    forall r :: r in w.rooms ==> RoomOk(cfg, w.rooms[r])
  }

  /** Only the callback of an armed room's current generation is current; every other one is stale. */
  ghost predicate CallbackInv(w: World) {
    && (forall c :: c in w.callbacks ==>
          && c.0 in w.rooms
          && c.1 <= w.rooms[c.0].generation
          && (c.1 == w.rooms[c.0].generation ==> w.rooms[c.0].armed)
          && (w.callbacks[c].fired ==> w.callbacks[c].due <= w.now))
    && (forall r :: r in w.rooms && w.rooms[r].armed ==> (r, w.rooms[r].generation) in w.callbacks)
  }

  /** What holds of registry, rooms and timers, whatever the sessions are doing. */
  ghost predicate CoreInv(cfg: Config, w: World) {
    RegistryInv(cfg, w) && RoomsInv(cfg, w) && CallbackInv(w)
  }

  /** The room whose map holds the session's peer, read off the session alone. */
  function MemberOf(s: Session): Option<RoomId> {
    match s.pc
    case Added(r) => Some(r)
    case Removed(_, _) => None
    case _ => s.current
  }

  /** The room pointer agrees with the program counter, and every room in sight exists. */
  ghost predicate SessionOk(rooms: map<RoomId, RoomState>, s: Session) {
    && (s.current.Some? ==> s.current.value in rooms)
    && (!s.pc.Idle? ==> s.pc.room in rooms)
    && (s.pc.Created? || s.pc.Found? || s.pc.Joining? || s.pc.Added? || s.pc.Scheduling? ==> s.current == None)
    && (s.pc.Leaving? || s.pc.Removed? ==> s.current == Some(s.pc.room))
  }

  ghost predicate MembershipInv(rooms: map<RoomId, RoomState>, sessions: map<PeerId, Session>) {
    && (forall p :: p in sessions ==> SessionOk(rooms, sessions[p]))
    && (forall r, p :: r in rooms ==>
          (p in rooms[r].peers <==> p in sessions && MemberOf(sessions[p]) == Some(r)))
  }

  /** The thread of session s has yet to schedule a destroy of room r. */
  predicate WillSchedule(s: Session, r: RoomId) {
    s.pc == Created(r) || s.pc == Removed(r, true) || s.pc == Scheduling(r)
  }

  ghost predicate SomeoneWillSchedule(sessions: map<PeerId, Session>, r: RoomId) {
    exists p :: p in sessions && WillSchedule(sessions[p], r)
  }

  /** A live room that nobody is in and no timer watches. */
  predicate Unwatched(s: RoomState) {
    !s.destroyed && s.peers == {} && !s.armed
  }

  ghost predicate NoLeakInv(rooms: map<RoomId, RoomState>, sessions: map<PeerId, Session>) {
    forall r :: r in rooms && Unwatched(rooms[r]) ==> SomeoneWillSchedule(sessions, r)
  }

  ghost predicate Inv(cfg: Config, w: World) {
    && CoreInv(cfg, w)
    && MembershipInv(w.rooms, w.sessions)
    && NoLeakInv(w.rooms, w.sessions)
  }

  lemma InitiallyInv(cfg: Config)
    ensures Inv(cfg, EMPTY_WORLD)
  {
  }

  // ---------------------------------------------------------------- every step keeps it

  /** The steps that change no room, timer or registry entry: they move one session, or the clock. */
  predicate LeavesRoomsAlone(a: Action) {
    match a
    case Connect(_) => true
    case Disconnect(_) => true
    case FindRoom(_, _) => true
    case PasswordAccepted(_) => true
    case PasswordRejected(_) => true
    case SetRoom(_) => true
    case BeginLeave(_) => true
    case ClearRoom(_) => true
    case Tick(_) => true
    case _ => false
  }

  lemma OnlySessionsMove(cfg: Config, w: World, a: Action)
    requires Enabled(w, a) && LeavesRoomsAlone(a)
    ensures var w' := Next(cfg, w, a);
            w'.registry == w.registry && w'.rooms == w.rooms && w'.callbacks == w.callbacks && w'.now >= w.now
  {
  }

  /** The step moves p's session. */
  predicate Moves(a: Action, p: PeerId) {
    !a.Tick? && !a.FireTimer? && !a.RunDestroy? && a.p == p
  }

  lemma OthersStay(cfg: Config, w: World, a: Action, p: PeerId)
    requires Enabled(w, a) && p in w.sessions && !Moves(a, p)
    ensures p in Next(cfg, w, a).sessions && Next(cfg, w, a).sessions[p] == w.sessions[p]
  {
  }

  /** Sessions do not matter to the core. */
  lemma CoreFrame(cfg: Config, w: World, w': World)
    requires CoreInv(cfg, w)
    requires w'.registry == w.registry && w'.rooms == w.rooms && w'.callbacks == w.callbacks && w'.now >= w.now
    ensures CoreInv(cfg, w')
  {
    assert forall r :: r in w.rooms ==> Registered(w, r) == Registered(w', r);
  }

  lemma UpdateKeepsRooms(cfg: Config, w: World, r: RoomId, s: RoomState, w': World)
    requires RoomsInv(cfg, w) && RoomOk(cfg, s) && w'.rooms == w.rooms[r := s]
    ensures RoomsInv(cfg, w')
  {
  }

  /** Replacing one room's state, when its key and destroyed flag stay. */
  lemma UpdateKeepsRegistry(cfg: Config, w: World, r: RoomId, s: RoomState, w': World)
    requires RegistryInv(cfg, w) && r in w.rooms
    requires s.key == w.rooms[r].key && s.destroyed == w.rooms[r].destroyed
    requires w'.registry == w.registry && w'.rooms == w.rooms[r := s]
    ensures RegistryInv(cfg, w')
  {
    forall q | q in w'.rooms && !w'.rooms[q].destroyed ensures Registered(w', q) {
      assert Registered(w, q);
    }
  }

  /** One room and its own callbacks change; the callbacks of other rooms stay. */
  lemma CallbacksAfter(w: World, r: RoomId, s: RoomState, w': World)
    requires CallbackInv(w) && w'.rooms == w.rooms[r := s] && w'.now == w.now
    requires forall c :: c in w'.callbacks && c.0 != r ==> c in w.callbacks && w'.callbacks[c] == w.callbacks[c]
    requires forall c :: c in w.callbacks && c.0 != r ==> c in w'.callbacks
    requires forall c :: c in w'.callbacks && c.0 == r ==>
               && c.1 <= s.generation && (c.1 == s.generation ==> s.armed)
               && (w'.callbacks[c].fired ==> w'.callbacks[c].due <= w'.now)
    requires s.armed ==> (r, s.generation) in w'.callbacks
    ensures CallbackInv(w')
  {
  }

  lemma CreateKeepsCore(cfg: Config, w: World, name: string, r: RoomId, w': World)
    requires CoreInv(cfg, w) && r !in w.rooms
    requires name != "" && cfg.lower(name) !in w.registry && |w.registry| < cfg.maxRooms
    requires w'.registry == w.registry[cfg.lower(name) := r]
    requires w'.rooms == w.rooms[r := NewRoom(name, cfg.lower(name), cfg.maxPeers)]
    requires w'.callbacks == w.callbacks && w'.now == w.now
    ensures CoreInv(cfg, w')
  {
    var s := NewRoom(name, cfg.lower(name), cfg.maxPeers);
    assert RoomOk(cfg, s);
    UpdateKeepsRooms(cfg, w, r, s, w');
    CallbacksAfter(w, r, s, w');
    CreateKeepsRegistry(cfg, w, s, r, w');
  }

  lemma CreateKeepsRegistry(cfg: Config, w: World, s: RoomState, r: RoomId, w': World)
    requires RegistryInv(cfg, w) && r !in w.rooms && !s.destroyed
    requires s.key !in w.registry && |w.registry| < cfg.maxRooms
    requires w'.registry == w.registry[s.key := r] && w'.rooms == w.rooms[r := s]
    ensures RegistryInv(cfg, w')
  {
    forall q | q in w'.rooms && !w'.rooms[q].destroyed ensures Registered(w', q) {
      if q != r {
        assert Registered(w, q);
      }
    }
  }

  lemma ScheduleKeepsCore(cfg: Config, w: World, r: RoomId, delay: nat)
    requires CoreInv(cfg, w) && r in w.rooms
    ensures CoreInv(cfg, ScheduleIn(w, r, delay))
  {
    var s, w' := Schedule(w.rooms[r]).0, ScheduleIn(w, r, delay);
    UpdateKeepsRegistry(cfg, w, r, s, w');
    assert RoomOk(cfg, s);
    UpdateKeepsRooms(cfg, w, r, s, w');
    CallbacksAfter(w, r, s, w');
  }

  lemma SizeAfterAdd<T>(a: set<T>, x: T)
    ensures |a + {x}| <= |a| + 1
  {
    if x in a {
      assert a + {x} == a;
    }
  }

  lemma AddKeepsCore(cfg: Config, w: World, p: PeerId, r: RoomId, w': World)
    requires CoreInv(cfg, w) && r in w.rooms
    requires Add(w.rooms[r], Registered(w, r), p).1.Joined?
    requires w'.rooms == w.rooms[r := Add(w.rooms[r], Registered(w, r), p).0]
    requires w'.callbacks == StopTimer(w.callbacks, r, Cancelled(w.rooms[r]))
    requires w'.registry == w.registry && w'.now == w.now
    ensures CoreInv(cfg, w')
  {
    var s := Add(w.rooms[r], Registered(w, r), p).0;
    UpdateKeepsRegistry(cfg, w, r, s, w');
    SizeAfterAdd(w.rooms[r].peers, p);
    assert RoomOk(cfg, w.rooms[r]);
    assert RoomOk(cfg, s);
    UpdateKeepsRooms(cfg, w, r, s, w');
    CallbacksAfter(w, r, s, w');
  }

  lemma SizeAfterRemove<T>(a: set<T>, x: T)
    ensures |a - {x}| <= |a|
  {
    if x !in a {
      assert a - {x} == a;
    }
  }

  lemma RemoveKeepsCore(cfg: Config, w: World, p: PeerId, r: RoomId, w': World)
    requires CoreInv(cfg, w) && r in w.rooms
    requires w'.rooms == w.rooms[r := Remove(w.rooms[r], p).0]
    requires w'.callbacks == w.callbacks && w'.registry == w.registry && w'.now == w.now
    ensures CoreInv(cfg, w')
  {
    var s := Remove(w.rooms[r], p).0;
    UpdateKeepsRegistry(cfg, w, r, s, w');
    SizeAfterRemove(w.rooms[r].peers, p);
    assert RoomOk(cfg, w.rooms[r]);
    assert RoomOk(cfg, s);
    UpdateKeepsRooms(cfg, w, r, s, w');
    CallbacksAfter(w, r, s, w');
  }

  lemma DestroyKeepsCore(cfg: Config, w: World, r: RoomId, g: nat)
    requires CoreInv(cfg, w) && r in w.rooms
    ensures CoreInv(cfg, DestroyIn(w, r, g))
  {
    var w' := DestroyIn(w, r, g);
    assert RoomOk(cfg, w.rooms[r]);
    if Destroy(w.rooms[r], Registered(w, r), g).1 {
      var s := Destroy(w.rooms[r], Registered(w, r), g).0;
      DestroyKeepsRegistry(cfg, w, r, g);
      UpdateKeepsRooms(cfg, w, r, s, w');
      CallbacksAfter(w, r, s, w');
    } else {
      if w.rooms[r].armed {
        assert Registered(w, r);
      }
      CallbackOnly(cfg, w, w');
    }
  }

  lemma DestroyKeepsRegistry(cfg: Config, w: World, r: RoomId, g: nat)
    requires RegistryInv(cfg, w) && r in w.rooms
    requires Destroy(w.rooms[r], Registered(w, r), g).1
    ensures RegistryInv(cfg, DestroyIn(w, r, g))
  {
    var w' := DestroyIn(w, r, g);
    SizeAfterRemove(w.registry.Keys, w.rooms[r].key);
    assert w'.registry.Keys == w.registry.Keys - {w.rooms[r].key};
    assert |w'.registry| == |w'.registry.Keys|;
    forall q | q in w'.rooms && !w'.rooms[q].destroyed ensures Registered(w', q) {
      assert Registered(w, q);
    }
  }

  /** Firing a timer, and dropping a callback that is not an armed room's current one. */
  lemma CallbackOnly(cfg: Config, w: World, w': World)
    requires CoreInv(cfg, w)
    requires w'.registry == w.registry && w'.rooms == w.rooms && w'.now == w.now
    requires forall c :: c in w'.callbacks ==>
               c in w.callbacks && (w'.callbacks[c].fired ==> w'.callbacks[c].due <= w.now)
    requires forall r :: r in w.rooms && w.rooms[r].armed ==> (r, w.rooms[r].generation) in w'.callbacks
    ensures CoreInv(cfg, w')
  {
    assert forall r :: r in w.rooms ==> Registered(w, r) == Registered(w', r);
  }

  lemma ScheduleStepKeepsCore(cfg: Config, w: World, p: PeerId, r: RoomId, delay: nat, pc: Pc)
    requires CoreInv(cfg, w) && p in w.sessions && r in w.rooms
    ensures CoreInv(cfg, Goto(ScheduleIn(w, r, delay), p, pc))
  {
    ScheduleKeepsCore(cfg, w, r, delay);
    CoreFrame(cfg, ScheduleIn(w, r, delay), Goto(ScheduleIn(w, r, delay), p, pc));
  }

  lemma AddStepKeepsCore(cfg: Config, w: World, p: PeerId, r: RoomId)
    requires CoreInv(cfg, w) && p in w.sessions && r in w.rooms
    ensures CoreInv(cfg, AddIn(w, p, r))
  {
    if Add(w.rooms[r], Registered(w, r), p).1.Joined? {
      AddKeepsCore(cfg, w, p, r, AddIn(w, p, r));
    } else {
      CoreFrame(cfg, w, AddIn(w, p, r));
    }
  }

  lemma RemoveStepKeepsCore(cfg: Config, w: World, p: PeerId, r: RoomId)
    requires CoreInv(cfg, w) && p in w.sessions && r in w.rooms
    ensures CoreInv(cfg, RemoveIn(w, p, r))
  {
    if p in w.rooms[r].peers {
      RemoveKeepsCore(cfg, w, p, r, RemoveIn(w, p, r));
    } else {
      CoreFrame(cfg, w, RemoveIn(w, p, r));
    }
  }

  lemma KeepsCore(cfg: Config, w: World, a: Action)
    requires Inv(cfg, w) && Enabled(w, a)
    ensures CoreInv(cfg, Next(cfg, w, a))
  {
    if LeavesRoomsAlone(a) {
      OnlySessionsMove(cfg, w, a);
      CoreFrame(cfg, w, Next(cfg, w, a));
    } else {
      LockedStepKeepsCore(cfg, w, a);
    }
  }

  lemma LockedStepKeepsCore(cfg: Config, w: World, a: Action)
    requires CoreInv(cfg, w) && Enabled(w, a) && !LeavesRoomsAlone(a)
    ensures CoreInv(cfg, Next(cfg, w, a))
  {
    var w' := Next(cfg, w, a);
    match a
    case CreateRoom(p, name, r) =>
      if name != "" && cfg.lower(name) !in w.registry && |w.registry| < cfg.maxRooms {
        CreateKeepsCore(cfg, w, name, r, w');
      }
    case StartIdleTimer(p) =>
      ScheduleStepKeepsCore(cfg, w, p, w.sessions[p].pc.room, ROOM_IDLE_NO_JOIN, Joining(w.sessions[p].pc.room));
    case ScheduleEmpty(p) =>
      ScheduleStepKeepsCore(cfg, w, p, w.sessions[p].pc.room, ROOM_EMPTY_DESTROY, Idle);
    case AddPeer(p) => AddStepKeepsCore(cfg, w, p, w.sessions[p].pc.room);
    case RemovePeer(p) => RemoveStepKeepsCore(cfg, w, p, w.sessions[p].pc.room);
    case RunDestroy(r, g) => DestroyKeepsCore(cfg, w, r, g);
    case FireTimer(r, g) => CallbackOnly(cfg, w, w');
  }

  /** One session moves, and its peer enters or leaves rooms as its new state says; nobody else does. */
  lemma MembershipAfter(rooms: map<RoomId, RoomState>, sessions: map<PeerId, Session>,
                        rooms': map<RoomId, RoomState>, p: PeerId, s: Session)
    requires MembershipInv(rooms, sessions)
    requires rooms.Keys <= rooms'.Keys && SessionOk(rooms', s)
    requires forall r :: r in rooms' && r !in rooms ==> rooms'[r].peers == {}
    requires forall r :: r in rooms ==> rooms'[r].peers - {p} == rooms[r].peers - {p}
    requires forall r :: r in rooms' ==> (p in rooms'[r].peers <==> MemberOf(s) == Some(r))
    ensures MembershipInv(rooms', sessions[p := s])
  {
    var sessions' := sessions[p := s];
    forall r, q | r in rooms'
      ensures q in rooms'[r].peers <==> q in sessions' && MemberOf(sessions'[q]) == Some(r)
    {
      if q != p {
        if r in rooms {
          assert q in rooms'[r].peers - {p} <==> q in rooms[r].peers - {p};
        } else if q in sessions {
          assert SessionOk(rooms, sessions[q]);
        }
      }
    }
  }

  /** Rooms keep their peers; the registry, timers and flags may change. */
  lemma MembershipFrame(rooms: map<RoomId, RoomState>, rooms': map<RoomId, RoomState>, sessions: map<PeerId, Session>)
    requires MembershipInv(rooms, sessions)
    requires rooms'.Keys == rooms.Keys && forall r :: r in rooms ==> rooms'[r].peers == rooms[r].peers
    ensures MembershipInv(rooms', sessions)
  {
  }

  lemma AddKeepsMembership(w: World, p: PeerId, r: RoomId)
    requires MembershipInv(w.rooms, w.sessions) && p in w.sessions && r in w.rooms
    requires w.sessions[p].pc == Joining(r)
    ensures MembershipInv(AddIn(w, p, r).rooms, AddIn(w, p, r).sessions)
  {
    var w' := AddIn(w, p, r);
    assert SessionOk(w.rooms, w.sessions[p]);
    MembershipAfter(w.rooms, w.sessions, w'.rooms, p, w'.sessions[p]);
  }

  lemma RemoveKeepsMembership(w: World, p: PeerId, r: RoomId)
    requires MembershipInv(w.rooms, w.sessions) && p in w.sessions && r in w.rooms
    requires w.sessions[p].pc == Leaving(r)
    ensures MembershipInv(RemoveIn(w, p, r).rooms, RemoveIn(w, p, r).sessions)
  {
    var w' := RemoveIn(w, p, r);
    assert SessionOk(w.rooms, w.sessions[p]);
    assert p in w.rooms[r].peers;
    MembershipAfter(w.rooms, w.sessions, w'.rooms, p, w'.sessions[p]);
  }

  /** A session moves without entering or leaving any room's map. */
  lemma QuietMove(w: World, rooms': map<RoomId, RoomState>, p: PeerId, s: Session)
    requires MembershipInv(w.rooms, w.sessions) && p in w.sessions
    requires w.rooms.Keys <= rooms'.Keys && SessionOk(rooms', s)
    requires forall r :: r in rooms' && r !in w.rooms ==> rooms'[r].peers == {}
    requires forall r :: r in w.rooms ==> rooms'[r].peers == w.rooms[r].peers
    requires MemberOf(s) == MemberOf(w.sessions[p])
    ensures MembershipInv(rooms', w.sessions[p := s])
  {
    assert SessionOk(w.rooms, w.sessions[p]);
    assert MemberOf(s).Some? ==> MemberOf(s).value in w.rooms;
    MembershipAfter(w.rooms, w.sessions, rooms', p, s);
  }

  lemma ConnectKeepsMembership(w: World, p: PeerId)
    requires MembershipInv(w.rooms, w.sessions) && p !in w.sessions
    ensures MembershipInv(w.rooms, w.sessions[p := Session(Idle, None)])
  {
    MembershipAfter(w.rooms, w.sessions, w.rooms, p, Session(Idle, None));
  }

  lemma DisconnectKeepsMembership(w: World, p: PeerId)
    requires MembershipInv(w.rooms, w.sessions) && p in w.sessions && w.sessions[p] == Session(Idle, None)
    ensures MembershipInv(w.rooms, w.sessions - {p})
  {
  }

  lemma KeepsMembership(cfg: Config, w: World, a: Action)
    requires RegistryInv(cfg, w) && MembershipInv(w.rooms, w.sessions) && Enabled(w, a)
    ensures MembershipInv(Next(cfg, w, a).rooms, Next(cfg, w, a).sessions)
  {
    match a
    case Tick(_) =>
    case FireTimer(_, _) =>
    case RunDestroy(r, g) => MembershipFrame(w.rooms, DestroyIn(w, r, g).rooms, w.sessions);
    case Disconnect(p) => DisconnectKeepsMembership(w, p);
    case Connect(p) => ConnectKeepsMembership(w, p);
    case AddPeer(p) => AddKeepsMembership(w, p, w.sessions[p].pc.room);
    case RemovePeer(p) => RemoveKeepsMembership(w, p, w.sessions[p].pc.room);
    case _ => OtherMoves(cfg, w, a);
  }

  /** A session moves and at most one room is created or scheduled. */
  lemma OtherMoves(cfg: Config, w: World, a: Action)
    requires RegistryInv(cfg, w) && MembershipInv(w.rooms, w.sessions) && Enabled(w, a)
    requires !a.Tick? && !a.FireTimer? && !a.RunDestroy? && !a.Disconnect?
             && !a.Connect? && !a.AddPeer? && !a.RemovePeer?
    ensures MembershipInv(Next(cfg, w, a).rooms, Next(cfg, w, a).sessions)
  {
    var w' := Next(cfg, w, a);
    if a.CreateRoom? || a.StartIdleTimer? || a.ScheduleEmpty? {
      assert SessionOk(w.rooms, w.sessions[a.p]);
      ScheduledSession(cfg, w, a);
      QuietMove(w, w'.rooms, a.p, w'.sessions[a.p]);
    } else {
      PointerMoves(cfg, w, a);
    }
  }

  lemma ScheduledSession(cfg: Config, w: World, a: Action)
    requires RegistryInv(cfg, w) && Enabled(w, a) && (a.CreateRoom? || a.StartIdleTimer? || a.ScheduleEmpty?)
    requires SessionOk(w.rooms, w.sessions[a.p])
    ensures var w' := Next(cfg, w, a);
            && w'.sessions == w.sessions[a.p := w'.sessions[a.p]]
            && w.rooms.Keys <= w'.rooms.Keys
            && (forall r :: r in w'.rooms && r !in w.rooms ==> w'.rooms[r].peers == {})
            && (forall r :: r in w.rooms ==> w'.rooms[r].peers == w.rooms[r].peers)
            && SessionOk(w'.rooms, w'.sessions[a.p]) && MemberOf(w'.sessions[a.p]) == MemberOf(w.sessions[a.p])
  {
  }

  /** A session moves and no room changes. */
  lemma PointerMoves(cfg: Config, w: World, a: Action)
    requires RegistryInv(cfg, w) && MembershipInv(w.rooms, w.sessions) && Enabled(w, a)
    requires a.FindRoom? || a.PasswordAccepted? || a.PasswordRejected? || a.SetRoom? || a.BeginLeave? || a.ClearRoom?
    ensures MembershipInv(Next(cfg, w, a).rooms, Next(cfg, w, a).sessions)
  {
    var w' := Next(cfg, w, a);
    assert SessionOk(w.rooms, w.sessions[a.p]);
    MovedSession(cfg, w, a);
    QuietMove(w, w.rooms, a.p, w'.sessions[a.p]);
  }

  lemma MovedSession(cfg: Config, w: World, a: Action)
    requires RegistryInv(cfg, w) && Enabled(w, a)
    requires a.FindRoom? || a.PasswordAccepted? || a.PasswordRejected? || a.SetRoom? || a.BeginLeave? || a.ClearRoom?
    requires SessionOk(w.rooms, w.sessions[a.p])
    ensures var w' := Next(cfg, w, a);
            && w'.rooms == w.rooms
            && w'.sessions == w.sessions[a.p := w'.sessions[a.p]]
            && SessionOk(w.rooms, w'.sessions[a.p]) && MemberOf(w'.sessions[a.p]) == MemberOf(w.sessions[a.p])
  {
  }

  /** One session moves: every unwatched room is either its to schedule now, or was unwatched before
      and somebody else's to schedule. */
  lemma NoLeakAfter(rooms: map<RoomId, RoomState>, sessions: map<PeerId, Session>,
                    rooms': map<RoomId, RoomState>, p: PeerId, s: Session)
    requires NoLeakInv(rooms, sessions)
    requires forall r :: r in rooms' && Unwatched(rooms'[r]) ==>
               || WillSchedule(s, r)
               || (r in rooms && Unwatched(rooms[r]) && (p in sessions ==> !WillSchedule(sessions[p], r)))
    ensures NoLeakInv(rooms', sessions[p := s])
  {
    forall r | r in rooms' && Unwatched(rooms'[r]) ensures SomeoneWillSchedule(sessions[p := s], r) {
      if WillSchedule(s, r) {
        assert p in sessions[p := s];
      } else {
        var q :| q in sessions && WillSchedule(sessions[q], r);
        assert sessions[p := s][q] == sessions[q];
      }
    }
  }

  lemma KeepsNoLeak(cfg: Config, w: World, a: Action)
    requires NoLeakInv(w.rooms, w.sessions) && Enabled(w, a)
    ensures NoLeakInv(Next(cfg, w, a).rooms, Next(cfg, w, a).sessions)
  {
    var w' := Next(cfg, w, a);
    match a
    case Tick(_) =>
    case FireTimer(_, _) =>
    case RunDestroy(r, g) => assert forall q :: q in w'.rooms && Unwatched(w'.rooms[q]) ==> Unwatched(w.rooms[q]);
    case Disconnect(p) =>
      forall r | r in w'.rooms && Unwatched(w'.rooms[r]) ensures SomeoneWillSchedule(w'.sessions, r) {
        var q :| q in w.sessions && WillSchedule(w.sessions[q], r);
        assert q in w'.sessions;
      }
    case _ => SessionNoLeak(cfg, w, a);
  }

  /** No room changes and the session keeps what it has yet to schedule. */
  lemma MoveNoLeak(w: World, p: PeerId, s: Session)
    requires NoLeakInv(w.rooms, w.sessions)
    requires p in w.sessions ==> forall r :: WillSchedule(w.sessions[p], r) ==> WillSchedule(s, r)
    ensures NoLeakInv(w.rooms, w.sessions[p := s])
  {
    NoLeakAfter(w.rooms, w.sessions, w.rooms, p, s);
  }

  lemma ScheduleNoLeak(w: World, p: PeerId, r: RoomId, delay: nat, s: Session)
    requires NoLeakInv(w.rooms, w.sessions) && p in w.sessions && r in w.rooms
    requires w.sessions[p].pc == Created(r) || w.sessions[p].pc == Scheduling(r)
    ensures NoLeakInv(ScheduleIn(w, r, delay).rooms, w.sessions[p := s])
  {
    NoLeakAfter(w.rooms, w.sessions, ScheduleIn(w, r, delay).rooms, p, s);
  }

  lemma CreateNoLeak(cfg: Config, w: World, p: PeerId, name: string, r: RoomId)
    requires NoLeakInv(w.rooms, w.sessions) && p in w.sessions && w.sessions[p].pc.Idle? && r !in w.rooms
    ensures NoLeakInv(Create(cfg, w, p, name, r).rooms, Create(cfg, w, p, name, r).sessions)
  {
    var w' := Create(cfg, w, p, name, r);
    if w' != w {
      NoLeakAfter(w.rooms, w.sessions, w'.rooms, p, w'.sessions[p]);
    }
  }

  lemma AddNoLeak(w: World, p: PeerId, r: RoomId)
    requires NoLeakInv(w.rooms, w.sessions) && p in w.sessions && r in w.rooms && w.sessions[p].pc == Joining(r)
    ensures NoLeakInv(AddIn(w, p, r).rooms, AddIn(w, p, r).sessions)
  {
    var w' := AddIn(w, p, r);
    if Add(w.rooms[r], Registered(w, r), p).1.Joined? {
      assert p in w'.rooms[r].peers;
    }
    NoLeakAfter(w.rooms, w.sessions, w'.rooms, p, w'.sessions[p]);
  }

  lemma RemoveNoLeak(w: World, p: PeerId, r: RoomId)
    requires NoLeakInv(w.rooms, w.sessions) && p in w.sessions && r in w.rooms && w.sessions[p].pc == Leaving(r)
    ensures NoLeakInv(RemoveIn(w, p, r).rooms, RemoveIn(w, p, r).sessions)
  {
    var w' := RemoveIn(w, p, r);
    NoLeakAfter(w.rooms, w.sessions, w'.rooms, p, w'.sessions[p]);
  }

  lemma SessionNoLeak(cfg: Config, w: World, a: Action)
    requires NoLeakInv(w.rooms, w.sessions) && Enabled(w, a)
    requires !a.Tick? && !a.FireTimer? && !a.RunDestroy? && !a.Disconnect?
    ensures NoLeakInv(Next(cfg, w, a).rooms, Next(cfg, w, a).sessions)
  {
    var w' := Next(cfg, w, a);
    if a.CreateRoom? {
      CreateNoLeak(cfg, w, a.p, a.name, a.room);
    } else if a.StartIdleTimer? {
      ScheduleNoLeak(w, a.p, w.sessions[a.p].pc.room, ROOM_IDLE_NO_JOIN, w'.sessions[a.p]);
    } else if a.ScheduleEmpty? {
      ScheduleNoLeak(w, a.p, w.sessions[a.p].pc.room, ROOM_EMPTY_DESTROY, w'.sessions[a.p]);
    } else if a.AddPeer? {
      AddNoLeak(w, a.p, w.sessions[a.p].pc.room);
    } else if a.RemovePeer? {
      RemoveNoLeak(w, a.p, w.sessions[a.p].pc.room);
    } else {
      assert w'.sessions == w.sessions[a.p := w'.sessions[a.p]];
      MoveNoLeak(w, a.p, w'.sessions[a.p]);
    }
  }

  lemma KeepsInv(cfg: Config, w: World, a: Action)
    requires Inv(cfg, w) && Enabled(w, a)
    ensures Inv(cfg, Next(cfg, w, a))
  {
    KeepsCore(cfg, w, a);
    KeepsMembership(cfg, w, a);
    KeepsNoLeak(cfg, w, a);
  }
}
