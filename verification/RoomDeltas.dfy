/** The public room list and the deltas that announce its changes. Each operation runs to completion
    together with its publications (the callbacks run after the locks are released, so an interleaving
    of two operations may publish in another order than it acted). */
module RoomDeltas {
  import opened Wrappers
  import opened RoomSections

  datatype Entry = Entry(name: string, peerCount: nat, maxPeers: nat)

  datatype Delta = Added(entry: Entry) | Removed(name: string) | Updated(entry: Entry)

  datatype Catalog = Catalog(registry: map<string, RoomId>, rooms: map<RoomId, RoomState>, publicRooms: set<RoomId>)

  const EMPTY_CATALOG := Catalog(map[], map[], {})

  datatype Op =
    | CreateOp(name: string, isPublic: bool, room: RoomId)
    | JoinOp(name: string, p: PeerId)
    | LeaveOp(r: RoomId, p: PeerId)
    | ExpireOp(r: RoomId, generation: nat)

  function EntryOf(s: RoomState): Entry {
    Entry(s.name, |s.peers|, s.maxPeers)
  }

  predicate Registered(c: Catalog, r: RoomId)
    requires r in c.rooms
  {
    c.rooms[r].key in c.registry && c.registry[c.rooms[r].key] == r
  }

  /** What room_list_result would report: the registered public rooms. */
  function PublicList(c: Catalog): set<Entry>
    requires forall k :: k in c.registry ==> c.registry[k] in c.rooms
  {
    set k | k in c.registry && c.registry[k] in c.publicRooms :: EntryOf(c.rooms[c.registry[k]])
  }

  /** PublishUpdate: only for public rooms. */
  function PublishUpdate(c: Catalog, r: RoomId): seq<Delta>
    requires r in c.rooms
  {
    if r in c.publicRooms then [Updated(EntryOf(c.rooms[r]))] else []
  }

  predicate Possible(c: Catalog, op: Op) {
    match op
    case CreateOp(_, _, r) => r !in c.rooms && r !in c.publicRooms
    case JoinOp(_, _) => true
    case LeaveOp(r, p) => r in c.rooms && p in c.rooms[r].peers
    case ExpireOp(r, _) => r in c.rooms
  }

  /** One complete operation: the new catalog and the deltas it publishes. */
  function Perform(cfg: Config, c: Catalog, op: Op): (Catalog, seq<Delta>)
    requires Possible(c, op)
    requires forall k :: k in c.registry ==> c.registry[k] in c.rooms
  {
    match op
    case CreateOp(name, isPublic, r) =>
      var key := cfg.lower(name);
      if name == "" || key in c.registry || |c.registry| >= cfg.maxRooms then (c, []) else
      var s := Schedule(NewRoom(name, key, cfg.maxPeers)).0;
      (Catalog(c.registry[key := r], c.rooms[r := s], if isPublic then c.publicRooms + {r} else c.publicRooms),
       if isPublic then [Added(EntryOf(s))] else [])
    case JoinOp(name, p) =>
      var key := cfg.lower(name);
      if key !in c.registry then (c, []) else
      var r := c.registry[key];
      var (s, result) := Add(c.rooms[r], Registered(c, r), p);
      if !result.Joined? then (c, []) else
      var c' := c.(rooms := c.rooms[r := s]);
      (c', PublishUpdate(c', r))
    case LeaveOp(r, p) =>
      var (s, _, empty) := Remove(c.rooms[r], p);
      var c' := c.(rooms := c.rooms[r := if empty then Schedule(s).0 else s]);
      (c', PublishUpdate(c', r))
    case ExpireOp(r, g) =>
      var (s, done) := Destroy(c.rooms[r], Registered(c, r), g);
      if !done then (c, []) else
      (c.(registry := c.registry - {s.key}, rooms := c.rooms[r := s]),
       if r in c.publicRooms then [Removed(s.name)] else [])
  }

  // ---------------------------------------------------------------- a client replaying deltas

  predicate Lists(list: set<Entry>, name: string) {
    exists e :: e in list && e.name == name
  }

  /** Additions are of new names, updates and removals of listed ones: nothing else for a client to
      decide. */
  predicate Applicable(list: set<Entry>, d: Delta) {
    match d
    case Added(e) => !Lists(list, e.name)
    case Removed(name) => Lists(list, name)
    case Updated(e) => Lists(list, e.name)
  }

  function Without(list: set<Entry>, name: string): set<Entry> {
    set e | e in list && e.name != name
  }

  function Replay(list: set<Entry>, d: Delta): set<Entry> {
    match d
    case Added(e) => list + {e}
    case Removed(name) => Without(list, name)
    case Updated(e) => Without(list, e.name) + {e}
  }

  function ReplayAll(list: set<Entry>, ds: seq<Delta>): set<Entry> {
    if ds == [] then list else Replay(ReplayAll(list, ds[..|ds| - 1]), ds[|ds| - 1])
  }

  predicate AllApplicable(list: set<Entry>, ds: seq<Delta>) {
    ds == [] || (AllApplicable(list, ds[..|ds| - 1]) && Applicable(ReplayAll(list, ds[..|ds| - 1]), ds[|ds| - 1]))
  }

  // ---------------------------------------------------------------- the invariant

  ghost predicate Inv(cfg: Config, c: Catalog) {
    && (forall k :: k in c.registry ==>
          && c.registry[k] in c.rooms
          && c.rooms[c.registry[k]].key == k
          && !c.rooms[c.registry[k]].destroyed)
    && (forall r :: r in c.rooms && !c.rooms[r].destroyed ==> Registered(c, r))
    && (forall r :: r in c.rooms ==> c.rooms[r].key == cfg.lower(c.rooms[r].name))
    && (forall r :: r in c.rooms && c.rooms[r].destroyed ==> c.rooms[r].peers == {})
  }

  /** One room's state changes under an unchanged registry. */
  lemma UpdateKeepsInv(cfg: Config, c: Catalog, r: RoomId, s: RoomState)
    requires Inv(cfg, c) && r in c.rooms
    requires s.key == c.rooms[r].key && s.name == c.rooms[r].name && s.destroyed == c.rooms[r].destroyed
    requires s.destroyed ==> s.peers == {}
    ensures Inv(cfg, c.(rooms := c.rooms[r := s]))
  {
    var c' := c.(rooms := c.rooms[r := s]);
    forall q | q in c'.rooms && !c'.rooms[q].destroyed ensures Registered(c', q) {
      assert Registered(c, q);
    }
  }

  lemma CreateKeepsInv(cfg: Config, c: Catalog, r: RoomId, s: RoomState, publicRooms: set<RoomId>)
    requires Inv(cfg, c) && r !in c.rooms && !s.destroyed
    requires s.key == cfg.lower(s.name) && s.key !in c.registry
    ensures Inv(cfg, Catalog(c.registry[s.key := r], c.rooms[r := s], publicRooms))
  {
    var c' := Catalog(c.registry[s.key := r], c.rooms[r := s], publicRooms);
    forall q | q in c'.rooms && !c'.rooms[q].destroyed ensures Registered(c', q) {
      assert q != r ==> Registered(c, q);
    }
  }

  lemma ExpiryKeepsInv(cfg: Config, c: Catalog, r: RoomId, s: RoomState)
    requires Inv(cfg, c) && r in c.rooms && Registered(c, r)
    requires s.key == c.rooms[r].key && s.name == c.rooms[r].name && s.destroyed && s.peers == {}
    ensures Inv(cfg, c.(registry := c.registry - {s.key}, rooms := c.rooms[r := s]))
  {
    var c' := c.(registry := c.registry - {s.key}, rooms := c.rooms[r := s]);
    forall q | q in c'.rooms && !c'.rooms[q].destroyed ensures Registered(c', q) {
      assert Registered(c, q);
    }
  }

  /** A name is listed exactly when a public room of that name is registered. */
  lemma ListedNames(cfg: Config, c: Catalog, r: RoomId)
    requires Inv(cfg, c) && r in c.rooms && Registered(c, r)
    ensures Lists(PublicList(c), c.rooms[r].name) <==> r in c.publicRooms
    ensures r in c.publicRooms ==> EntryOf(c.rooms[r]) in PublicList(c)
    ensures forall e :: e in PublicList(c) && e.name == c.rooms[r].name ==>
              e == EntryOf(c.rooms[r]) && r in c.publicRooms
  {
    var list := PublicList(c);
    if r in c.publicRooms {
      var k := c.rooms[r].key;
      assert c.registry[k] == r;
      assert EntryOf(c.rooms[r]) in list;
    }
    forall e | e in list && e.name == c.rooms[r].name ensures e == EntryOf(c.rooms[r]) && r in c.publicRooms {
      var k :| k in c.registry && c.registry[k] in c.publicRooms && e == EntryOf(c.rooms[c.registry[k]]);
      assert k == cfg.lower(e.name) == c.rooms[r].key;
    }
  }

  /** One registered room changes its state but not its name. */
  lemma ListAfterUpdate(cfg: Config, c: Catalog, r: RoomId, s: RoomState)
    requires Inv(cfg, c) && r in c.rooms && Registered(c, r) && s.name == c.rooms[r].name
    ensures var c' := c.(rooms := c.rooms[r := s]);
            PublicList(c') ==
                              if r in c.publicRooms then Without(PublicList(c), s.name) + {EntryOf(s)}
                              else PublicList(c)
  {
    var c' := c.(rooms := c.rooms[r := s]);
    ListedNames(cfg, c, r);
    var expected := if r in c.publicRooms then Without(PublicList(c), s.name) + {EntryOf(s)} else PublicList(c);
    forall e | e in PublicList(c') ensures e in expected {
      var k :| k in c'.registry && c'.registry[k] in c'.publicRooms && e == EntryOf(c'.rooms[c'.registry[k]]);
      if c.registry[k] != r {
        assert e in PublicList(c);
        assert k == cfg.lower(e.name);
      }
    }
    forall e | e in expected ensures e in PublicList(c') {
      if e == EntryOf(s) && r in c.publicRooms {
        assert c'.registry[c.rooms[r].key] == r;
      } else {
        var k :| k in c.registry && c.registry[k] in c.publicRooms && e == EntryOf(c.rooms[c.registry[k]]);
        assert c'.registry[k] == c.registry[k];
      }
    }
  }

  lemma ListAfterCreate(cfg: Config, c: Catalog, r: RoomId, s: RoomState, isPublic: bool)
    requires Inv(cfg, c) && r !in c.rooms && r !in c.publicRooms
    requires s.key == cfg.lower(s.name) && s.key !in c.registry
    ensures var c' := Catalog(c.registry[s.key := r], c.rooms[r := s],
                             if isPublic then c.publicRooms + {r} else c.publicRooms);
            PublicList(c') == if isPublic then PublicList(c) + {EntryOf(s)} else PublicList(c)
    ensures !Lists(PublicList(c), s.name)
  {
    var c' := Catalog(c.registry[s.key := r], c.rooms[r := s], if isPublic then c.publicRooms + {r} else c.publicRooms);
    forall e | e in PublicList(c) ensures e in PublicList(c') && e.name != s.name {
      var k :| k in c.registry && c.registry[k] in c.publicRooms && e == EntryOf(c.rooms[c.registry[k]]);
      assert c'.registry[k] == c.registry[k];
    }
    if isPublic {
      assert c'.registry[s.key] == r;
      assert EntryOf(s) in PublicList(c');
    }
  }

  lemma ListAfterExpiry(cfg: Config, c: Catalog, r: RoomId, s: RoomState)
    requires Inv(cfg, c) && r in c.rooms && Registered(c, r) && s.name == c.rooms[r].name && s.key == c.rooms[r].key
    ensures var c' := c.(registry := c.registry - {s.key}, rooms := c.rooms[r := s]);
            PublicList(c') == if r in c.publicRooms then Without(PublicList(c), s.name) else PublicList(c)
  {
    var c' := c.(registry := c.registry - {s.key}, rooms := c.rooms[r := s]);
    ListedNames(cfg, c, r);
    var expected := if r in c.publicRooms then Without(PublicList(c), s.name) else PublicList(c);
    forall e | e in PublicList(c') ensures e in expected {
      var k :| k in c'.registry && c'.registry[k] in c'.publicRooms && e == EntryOf(c'.rooms[c'.registry[k]]);
      assert c.registry[k] != r;
      assert e in PublicList(c);
      assert k == cfg.lower(e.name);
    }
    forall e | e in expected ensures e in PublicList(c') {
      var k :| k in c.registry && c.registry[k] in c.publicRooms && e == EntryOf(c.rooms[c.registry[k]]);
      assert k in c'.registry;
    }
  }

  /** The operation's deltas turn the list of c into the list of c'. */
  ghost predicate Announces(cfg: Config, c: Catalog, c': Catalog, ds: seq<Delta>)
    requires Inv(cfg, c) && Inv(cfg, c')
  {
    if ds == [] then PublicList(c') == PublicList(c)
    else |ds| == 1 && Applicable(PublicList(c), ds[0]) && Replay(PublicList(c), ds[0]) == PublicList(c')
  }

  lemma CreateAnnounces(cfg: Config, c: Catalog, op: Op)
    requires Inv(cfg, c) && Possible(c, op) && op.CreateOp?
    ensures var (c', ds) := Perform(cfg, c, op); Inv(cfg, c') && Announces(cfg, c, c', ds)
  {
    var key := cfg.lower(op.name);
    var s := Schedule(NewRoom(op.name, key, cfg.maxPeers)).0;
    if op.name != "" && key !in c.registry && |c.registry| < cfg.maxRooms {
      CreateKeepsInv(cfg, c, op.room, s, if op.isPublic then c.publicRooms + {op.room} else c.publicRooms);
      ListAfterCreate(cfg, c, op.room, s, op.isPublic);
    }
  }

  lemma JoinAnnounces(cfg: Config, c: Catalog, op: Op)
    requires Inv(cfg, c) && Possible(c, op) && op.JoinOp?
    ensures var (c', ds) := Perform(cfg, c, op); Inv(cfg, c') && Announces(cfg, c, c', ds)
  {
    var key := cfg.lower(op.name);
    if key in c.registry {
      var r := c.registry[key];
      var (s, result) := Add(c.rooms[r], Registered(c, r), op.p);
      if result.Joined? {
        UpdateKeepsInv(cfg, c, r, s);
        ListedNames(cfg, c, r);
        ListAfterUpdate(cfg, c, r, s);
      }
    }
  }

  lemma LeaveAnnounces(cfg: Config, c: Catalog, op: Op)
    requires Inv(cfg, c) && Possible(c, op) && op.LeaveOp?
    ensures var (c', ds) := Perform(cfg, c, op); Inv(cfg, c') && Announces(cfg, c, c', ds)
  {
    var r := op.r;
    var s := Perform(cfg, c, op).0.rooms[r];
    assert Registered(c, r);
    UpdateKeepsInv(cfg, c, r, s);
    ListedNames(cfg, c, r);
    ListAfterUpdate(cfg, c, r, s);
  }

  lemma ExpireAnnounces(cfg: Config, c: Catalog, op: Op)
    requires Inv(cfg, c) && Possible(c, op) && op.ExpireOp?
    ensures var (c', ds) := Perform(cfg, c, op); Inv(cfg, c') && Announces(cfg, c, c', ds)
  {
    var (s, done) := Destroy(c.rooms[op.r], Registered(c, op.r), op.generation);
    if done {
      ExpiryKeepsInv(cfg, c, op.r, s);
      ListedNames(cfg, c, op.r);
      ListAfterExpiry(cfg, c, op.r, s);
    }
  }

  lemma PerformAnnounces(cfg: Config, c: Catalog, op: Op)
    requires Inv(cfg, c) && Possible(c, op)
    ensures var (c', ds) := Perform(cfg, c, op); Inv(cfg, c') && Announces(cfg, c, c', ds)
  {
    match op
    case CreateOp(_, _, _) => CreateAnnounces(cfg, c, op);
    case JoinOp(_, _) => JoinAnnounces(cfg, c, op);
    case LeaveOp(_, _) => LeaveAnnounces(cfg, c, op);
    case ExpireOp(_, _) => ExpireAnnounces(cfg, c, op);
  }

  // ---------------------------------------------------------------- what each operation does

  /** Every room but r is as it was, and so is who is public. */
  ghost predicate OnlyRoomChanges(c: Catalog, c': Catalog, r: RoomId) {
    && (forall q :: q != r ==> (q in c'.rooms <==> q in c.rooms) && (q in c.rooms ==> c'.rooms[q] == c.rooms[q]))
    && (forall q :: q != r ==> (q in c'.publicRooms <==> q in c.publicRooms))
  }

  /** A create succeeds exactly for a name that is not empty and that nobody has, up to case, below the limit; then
      there is an empty room under it, announced as such if it is public. */
  lemma CreateDoes(cfg: Config, c: Catalog, name: string, isPublic: bool, r: RoomId)
    requires Inv(cfg, c) && Possible(c, CreateOp(name, isPublic, r))
    ensures var (c', ds) := Perform(cfg, c, CreateOp(name, isPublic, r));
            var succeeds := && name != "" && |c.registry| < cfg.maxRooms
                            && forall q :: q in c.rooms && !c.rooms[q].destroyed ==>
                                 cfg.lower(c.rooms[q].name) != cfg.lower(name);
            && (!succeeds ==> c' == c && ds == [])
            && (succeeds ==>
                  && r in c'.rooms && Registered(c', r) && OnlyRoomChanges(c, c', r)
                  && c'.rooms[r].name == name && c'.rooms[r].peers == {} && c'.rooms[r].maxPeers == cfg.maxPeers
                  && (r in c'.publicRooms <==> isPublic)
                  && ds == if isPublic then [Added(Entry(name, 0, cfg.maxPeers))] else [])
  {
    forall q | q in c.rooms && !c.rooms[q].destroyed && cfg.lower(c.rooms[q].name) == cfg.lower(name)
      ensures cfg.lower(name) in c.registry
    {
      assert Registered(c, q);
    }
    KeyIsLive(cfg, c, cfg.lower(name));
  }

  /** A join succeeds exactly for the name of a room with space; then the peer is in that room, and the room's new
      size is announced if it is public. */
  lemma JoinDoes(cfg: Config, c: Catalog, name: string, p: PeerId, r: RoomId)
    requires Inv(cfg, c) && r in c.rooms && !c.rooms[r].destroyed && cfg.lower(c.rooms[r].name) == cfg.lower(name)
    ensures var (c', ds) := Perform(cfg, c, JoinOp(name, p));
            var (s, s') := (c.rooms[r], c'.rooms[r]);
            && c'.registry == c.registry && c'.publicRooms == c.publicRooms && OnlyRoomChanges(c, c', r)
            && (|s.peers| >= s.maxPeers ==> c' == c && ds == [])
            && (|s.peers| < s.maxPeers ==>
                  && s'.peers == s.peers + {p} && s'.name == s.name && s'.maxPeers == s.maxPeers && !s'.destroyed
                  && ds == if r in c.publicRooms then [Updated(Entry(s.name, |s.peers + {p}|, s.maxPeers))] else [])
  {
    assert Registered(c, r);
  }

  /** The name of no room. */
  lemma JoinOfNothing(cfg: Config, c: Catalog, name: string, p: PeerId)
    requires Inv(cfg, c)
    requires forall q :: q in c.rooms && !c.rooms[q].destroyed ==> cfg.lower(c.rooms[q].name) != cfg.lower(name)
    ensures Perform(cfg, c, JoinOp(name, p)) == (c, [])
  {
    KeyIsLive(cfg, c, cfg.lower(name));
  }

  lemma KeyIsLive(cfg: Config, c: Catalog, key: string)
    requires Inv(cfg, c)
    ensures key in c.registry ==>
              && c.registry[key] in c.rooms && !c.rooms[c.registry[key]].destroyed
              && cfg.lower(c.rooms[c.registry[key]].name) == key
  {
  }

  /** After a leave the peer is out of its room, which has one peer less, and a public room's new size is
      announced. */
  lemma LeaveDoes(cfg: Config, c: Catalog, r: RoomId, p: PeerId)
    requires Inv(cfg, c) && Possible(c, LeaveOp(r, p))
    ensures var (c', ds) := Perform(cfg, c, LeaveOp(r, p));
            var (s, s') := (c.rooms[r], c'.rooms[r]);
            && c'.registry == c.registry && c'.publicRooms == c.publicRooms && OnlyRoomChanges(c, c', r)
            && s'.peers == s.peers - {p} && |s'.peers| == |s.peers| - 1
            && s'.name == s.name && s'.maxPeers == s.maxPeers && s'.destroyed == s.destroyed
            && (s'.peers == {} ==> s'.armed)
            && ds == if r in c.publicRooms then [Updated(Entry(s.name, |s.peers| - 1, s.maxPeers))] else []
  {
  }

  /** A timer's callback takes effect exactly on a live, empty room whose armed timer it is; then the name is free
      and a public room's removal is announced. */
  lemma ExpireDoes(cfg: Config, c: Catalog, r: RoomId, g: nat)
    requires Inv(cfg, c) && Possible(c, ExpireOp(r, g))
    ensures var (c', ds) := Perform(cfg, c, ExpireOp(r, g));
            var s := c.rooms[r];
            var effect := !s.destroyed && s.armed && s.generation == g && s.peers == {};
            && (!effect ==> c' == c && ds == [])
            && (effect ==>
                  && c'.registry == c.registry - {s.key} && c'.rooms[r].destroyed && c'.rooms[r].peers == {}
                  && OnlyRoomChanges(c, c', r) && c'.publicRooms == c.publicRooms
                  && ds == if r in c.publicRooms then [Removed(s.name)] else [])
  {
    if !c.rooms[r].destroyed {
      assert Registered(c, r);
    }
  }

  // ---------------------------------------------------------------- histories

  /** The catalog after a history, with everything published along the way. */
  ghost function History(cfg: Config, ops: seq<Op>): Option<(Catalog, seq<Delta>)> {
    if ops == [] then Some((EMPTY_CATALOG, []))
    else
      var n := |ops| - 1;
      match History(cfg, ops[..n])
      case None => None
      case Some((c, ds)) =>
        if Possible(c, ops[n]) && forall k :: k in c.registry ==> c.registry[k] in c.rooms
        then var (c', more) := Perform(cfg, c, ops[n]); Some((c', ds + more))
        else None
  }

  lemma ReplayAppend(list: set<Entry>, ds: seq<Delta>, d: Delta)
    ensures ReplayAll(list, ds + [d]) == Replay(ReplayAll(list, ds), d)
    ensures AllApplicable(list, ds + [d]) <==> AllApplicable(list, ds) && Applicable(ReplayAll(list, ds), d)
  {
    assert (ds + [d])[..|ds|] == ds;
  }

  /** For every history of complete operations, a client that starts from the empty list and replays
      every delta ends with exactly the public list, and every delta it met made sense to it. */
  lemma {:induction false} DeltasReplayPublicList(cfg: Config, ops: seq<Op>)
    requires History(cfg, ops).Some?
    ensures var (c, ds) := History(cfg, ops).value;
            && Inv(cfg, c)
            && AllApplicable({}, ds) && ReplayAll({}, ds) == PublicList(c)
  {
    if ops != [] {
      var n := |ops| - 1;
      DeltasReplayPublicList(cfg, ops[..n]);
      var (c, ds) := History(cfg, ops[..n]).value;
      PerformAnnounces(cfg, c, ops[n]);
      var (c', more) := Perform(cfg, c, ops[n]);
      if more == [] {
        assert ds + more == ds;
      } else {
        assert more == [more[0]];
        ReplayAppend({}, ds, more[0]);
      }
    }
  }
}
