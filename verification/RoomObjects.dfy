/** The objects of internal/room. Each method is the source's, run by one thread without interference;
    its critical section is the corresponding function of RoomSections, which RoomWorld interleaves. */
module RoomObjects {
  import opened Wrappers
  import RoomSections
  import FanOut

  type PeerId = RoomSections.PeerId

  class Peer {
    const id: PeerId
    var muted: bool
    var subscribed: Option<set<PeerId>>
    var currentRoom: Room?

    constructor (id: PeerId)
      ensures this.id == id && !muted && subscribed == None && currentRoom == null
    {
      this.id := id;
      muted := false;
      subscribed := None;
      currentRoom := null;
    }

    function Profile(): FanOut.Member
      reads this
    {
      FanOut.Member(muted, subscribed)
    }

    /** A nil subscription map means every source. */
    method IsSubscribed(source: PeerId) returns (yes: bool)
      ensures yes <==> FanOut.Hears(Profile(), source)
    {
      if subscribed.None? {
        return true;
      }
      yes := source in subscribed.value;
    }

    method SetSubscribed(ids: Option<seq<PeerId>>)
      modifies this`subscribed
      ensures forall source :: FanOut.Hears(Profile(), source) <==> ids.None? || source in ids.value
    {
      if ids.None? {
        subscribed := None;
        return;
      }
      var m: set<PeerId> := {};
      for i := 0 to |ids.value|
        invariant forall q :: q in m <==> q in ids.value[..i]
      {
        m := m + {ids.value[i]};
      }
      assert ids.value[..|ids.value|] == ids.value;
      subscribed := Some(m);
    }
  }

  class Room {
    const name: string
    const key: string
    const isPublic: bool
    const maxPeers: nat
    const registry: Registry
    var peers: map<PeerId, Peer>
    var armed: bool          // destroyTimer != nil
    var generation: nat
    var destroyed: bool

    constructor (name: string, key: string, isPublic: bool, maxPeers: nat, registry: Registry)
      ensures State() == RoomSections.NewRoom(name, key, maxPeers)
      ensures this.registry == registry && this.isPublic == isPublic && peers == map[]
    {
      this.name, this.key, this.isPublic, this.maxPeers, this.registry := name, key, isPublic, maxPeers, registry;
      peers := map[];
      armed, generation, destroyed := false, 0, false;
    }

    function State(): RoomSections.RoomState
      reads this
    {
      RoomSections.RoomState(name, key, maxPeers, peers.Keys, armed, generation, destroyed)
    }

    predicate Registered()
      reads registry
    {
      key in registry.rooms && registry.rooms[key] == this
    }

    /** What a fan-out sees of the room. */
    function Members(): map<PeerId, FanOut.Member>
      reads this, peers.Values
    {
      map q | q in peers :: peers[q].Profile()
    }

    /** Adds p and returns the ids of the others, for the room_joined reply. */
    method Add(p: Peer) returns (result: RoomSections.AddResult)
      modifies this, p
      ensures (State(), result) == RoomSections.Add(old(State()), old(Registered()), p.id)
      ensures result.Joined? ==> peers == old(peers)[p.id := p] && p.currentRoom == this
      ensures !result.Joined? ==> unchanged(this) && unchanged(p)
      ensures p.Profile() == old(p.Profile())
    {
      if !(key in registry.rooms && registry.rooms[key] == this) {
        return RoomSections.RoomNotFound;
      }
      if destroyed {
        return RoomSections.RoomNotFound;
      }
      assert |peers.Keys| == |peers|;
      if |peers| >= maxPeers {
        return RoomSections.RoomFull;
      }
      peers := peers[p.id := p];
      if armed {
        armed := false;
        generation := generation + 1;
      }
      assert peers.Keys == old(peers).Keys + {p.id};
      var others := OthersThan(p.id);
      assert others == old(peers).Keys - {p.id};
      p.currentRoom := this;
      result := RoomSections.Joined(others);
    }

    /** The snapshot loop: every member but one. */
    method OthersThan(id: PeerId) returns (others: set<PeerId>)
      ensures others == peers.Keys - {id}
    {
      others := {};
      var todo := peers.Keys;
      while todo != {}
        invariant todo <= peers.Keys && others == peers.Keys - todo - {id}
        decreases |todo|
      {
        var q :| q in todo;
        todo := todo - {q};
        if q != id {
          others := others + {q};
        }
      }
    }

    /** Removes a peer; the last one out schedules the room's destruction. Returns the generation of the
        timer it started, if it started one. */
    method Remove(id: PeerId) returns (started: Option<nat>)
      modifies this, if id in peers then {peers[id]} else {}
      ensures var (s, found, empty) := RoomSections.Remove(old(State()), id);
              && (found && empty ==> (State(), started) == RoomSections.Schedule(s))
              && (!(found && empty) ==> State() == s && started == None)
              && (found ==> old(peers[id]).currentRoom == null)
      ensures peers == old(peers) - {id}
    {
      started := None;
      if id !in peers {
        return;
      }
      var p := peers[id];
      peers := peers - {id};
      var empty := |peers| == 0;
      assert |peers.Keys| == |peers|;
      p.currentRoom := null;
      if empty {
        started := ScheduleDestroyIfEmpty();
      }
    }

    method ScheduleDestroyIfEmpty() returns (started: Option<nat>)
      modifies this`armed, this`generation
      ensures (State(), started) == RoomSections.Schedule(old(State()))
    {
      assert |peers.Keys| == |peers|;
      if destroyed || |peers| != 0 || armed {
        return None;
      }
      generation := generation + 1;
      armed := true;
      started := Some(generation);
    }

    /** The snapshot loop of fanOut: the peers the frame will be sent to, each once. */
    method FanOutTargets(source: PeerId) returns (targets: seq<Peer>)
      requires forall q :: q in peers ==> peers[q].id == q
      ensures (set p | p in targets :: p.id) == FanOut.Recipients(Members(), source)
      ensures forall i, j :: 0 <= i < j < |targets| ==> targets[i].id != targets[j].id
      ensures forall p :: p in targets ==> p.id in peers && peers[p.id] == p
    {
      targets := [];
      if source !in peers || peers[source].muted {
        return;
      }
      var todo := peers.Keys;
      while todo != {}
        invariant todo <= peers.Keys
        invariant forall p :: p in targets ==> p.id in peers - todo && peers[p.id] == p
        invariant forall i, j :: 0 <= i < j < |targets| ==> targets[i].id != targets[j].id
        invariant forall q :: q in peers - todo ==>
                    (peers[q] in targets <==> q != source && FanOut.Hears(peers[q].Profile(), source))
        decreases |todo|
      {
        var q :| q in todo;
        var p := peers[q];
        if q != source {
          var hears := p.IsSubscribed(source);
          if hears {
            targets := targets + [p];
          }
        }
        todo := todo - {q};
      }
      forall q ensures q in (set p | p in targets :: p.id) <==> q in FanOut.Recipients(Members(), source) {
        if q in peers {
          assert q in peers - todo;
          assert peers[q] in targets ==> peers[q].id in (set p | p in targets :: p.id);
        }
      }
    }
  }

  datatype CreateError = EmptyName | RoomNameTaken | ServerFull

  class Registry {
    const maxRooms: nat
    const maxPeersPerRoom: nat
    const lower: string -> string
    var rooms: map<string, Room>

    constructor (maxRooms: nat, maxPeersPerRoom: nat, lower: string -> string)
      ensures rooms == map[] && this.maxRooms == maxRooms &&
              this.maxPeersPerRoom == maxPeersPerRoom && this.lower == lower
    {
      this.maxRooms, this.maxPeersPerRoom, this.lower := maxRooms, maxPeersPerRoom, lower;
      rooms := map[];
    }

    /** Fails without effect for an empty or taken name or a full registry, in that order; otherwise publishes
        a new room and starts its idle timer. */
    method Create(name: string, isPublic: bool) returns (r: Result<Room, CreateError>)
      modifies this
      ensures r.Ok? <==> name != "" && lower(name) !in old(rooms) && |old(rooms)| < maxRooms
      ensures r == Err(EmptyName) <==> name == ""
      ensures r == Err(RoomNameTaken) <==> name != "" && lower(name) in old(rooms)
      ensures r.Err? ==> rooms == old(rooms)
      ensures r.Ok? ==>
                && fresh(r.value) && r.value.registry == this && r.value.isPublic == isPublic
                && rooms == old(rooms)[lower(name) := r.value]
                && r.value.State()
                   == RoomSections.Schedule(RoomSections.NewRoom(name, lower(name), maxPeersPerRoom)).0
    {
      if name == "" {
        return Err(EmptyName);
      }
      var key := lower(name);
      if key in rooms {
        return Err(RoomNameTaken);
      }
      if |rooms| >= maxRooms {
        return Err(ServerFull);
      }
      var room := new Room(name, key, isPublic, maxPeersPerRoom, this);
      rooms := rooms[key := room];
      var _ := room.ScheduleDestroyIfEmpty();
      r := Ok(room);
    }

    method Find(name: string) returns (room: Room?)
      ensures room == if lower(name) in rooms then rooms[lower(name)] else null
    {
      var key := lower(name);
      room := if key in rooms then rooms[key] else null;
    }

    /** The timer callback of the given generation. */
    method Destroy(room: Room, generation: nat) returns (done: bool)
      requires room.registry == this
      modifies this, room
      ensures (room.State(), done) == RoomSections.Destroy(old(room.State()), old(room.Registered()), generation)
      ensures rooms == if done then old(rooms) - {room.key} else old(rooms)
      ensures room.peers == old(room.peers)
    {
      if room.key !in rooms || rooms[room.key] != room {
        return false;
      }
      assert |room.peers.Keys| == |room.peers|;
      if room.destroyed || !room.armed || room.generation != generation || |room.peers| != 0 {
        return false;
      }
      room.destroyed := true;
      room.armed := false;
      room.generation := room.generation + 1;
      rooms := rooms - {room.key};
      done := true;
    }

    /** Total peers over all rooms, read under the registry lock. */
    method CountPeers() returns (n: nat)
      ensures n == SumPeers(rooms.Keys)
    {
      n := 0;
      var todo := rooms.Keys;
      while todo != {}
        invariant todo <= rooms.Keys
        invariant n + SumPeers(todo) == SumPeers(rooms.Keys)
        decreases |todo|
      {
        var key :| key in todo;
        SumWithout(todo, key);
        n := n + |rooms[key].peers|;
        todo := todo - {key};
      }
    }

    ghost function SumPeers(keys: set<string>): nat
      requires keys <= rooms.Keys
      reads this, rooms.Values
    {
      if keys == {} then 0
      else
        var key :| key in keys;
        |rooms[key].peers| + SumPeers(keys - {key})
    }

    /** The sum does not depend on the order of the rooms. */
    lemma SumWithout(keys: set<string>, key: string)
      requires keys <= rooms.Keys && key in keys
      ensures SumPeers(keys) == |rooms[key].peers| + SumPeers(keys - {key})
    {
      var first :| first in keys && SumPeers(keys) == |rooms[first].peers| + SumPeers(keys - {first});
      if first != key {
        SumWithout(keys - {first}, key);
        SumWithout(keys - {key}, first);
        assert keys - {first} - {key} == keys - {key} - {first};
      }
    }
  }
}
