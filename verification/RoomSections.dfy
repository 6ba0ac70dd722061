/** The critical sections of internal/room, each as a function from the room's state before the locks
    are taken to its state after they are released. The objects in RoomObjects perform them; the
    machine in RoomWorld interleaves them. */
module RoomSections {
  import opened Wrappers

  type PeerId = nat
  type RoomId = nat

  /** The registry's limits; `lower` stands for Unicode lower-casing. */
  datatype Config = Config(maxRooms: nat, maxPeers: nat, lower: string -> string)

  /** A room's mutable state. `armed` is destroyTimer != nil. `key` is the lower-cased name. */
  datatype RoomState = RoomState(
    name: string, key: string, maxPeers: nat,
    peers: set<PeerId>, armed: bool, generation: nat, destroyed: bool)

  datatype AddResult = Joined(others: set<PeerId>) | RoomNotFound | RoomFull

  function NewRoom(name: string, key: string, maxPeers: nat): RoomState {
    RoomState(name, key, maxPeers, {}, false, 0, false)
  }

  /** Room.Add. `registered` is whether the registry's entry for the room's key is this very room. */
  function Add(s: RoomState, registered: bool, p: PeerId): (RoomState, AddResult) {
    if !registered then (s, RoomNotFound)
    else if s.destroyed then (s, RoomNotFound)
    else if |s.peers| >= s.maxPeers then (s, RoomFull)
    else (s.(peers := s.peers + {p},
             armed := false,
             generation := if s.armed then s.generation + 1 else s.generation),
          Joined(s.peers - {p}))
  }

  /** The generation whose timer a successful Add stops, if one is armed. */
  function Cancelled(s: RoomState): Option<nat> {
    if s.armed then Some(s.generation) else None
  }

  /** Room.Remove: whether the peer was there, and whether its removal emptied the room. */
  function Remove(s: RoomState, p: PeerId): (RoomState, bool, bool) {
    if p !in s.peers then (s, false, false)
    else (s.(peers := s.peers - {p}), true, s.peers - {p} == {})
  }

  /** Room.scheduleDestroyIfEmpty: the generation of the timer it starts, if it starts one. */
  function Schedule(s: RoomState): (RoomState, Option<nat>) {
    if s.destroyed || s.peers != {} || s.armed then (s, None)
    else (s.(armed := true, generation := s.generation + 1), Some(s.generation + 1))
  }

  /** Registry.destroy, run by the timer of the given generation: whether it takes effect. */
  function Destroy(s: RoomState, registered: bool, generation: nat): (RoomState, bool) {
    if !registered then (s, false)
    else if s.destroyed || !s.armed || s.generation != generation || s.peers != {} then (s, false)
    else (s.(destroyed := true, armed := false, generation := s.generation + 1), true)
  }
}
