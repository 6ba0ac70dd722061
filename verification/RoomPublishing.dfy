/** The public list under interleaving. An operation changes the catalog under the locks and publishes after
    it has let go of them: it reads the room's entry, and then calls the listener (internal/room/registry.go).
    Threads may be between any two of these. */
module RoomPublishing {
  import opened Wrappers
  import opened RoomSections
  import opened RoomDeltas

  type ThreadId = nat

  /** What a thread has yet to do: read the room's entry and publish it, or publish what it has. */
  datatype Debt = ToRead(r: RoomId, isNew: bool) | ToSend(d: Delta)

  datatype State = State(c: Catalog, debts: map<ThreadId, Debt>, sent: seq<Delta>)

  datatype Action =
    | Act(t: ThreadId, op: Op)
    | Read(t: ThreadId)
    | Send(t: ThreadId)

  const INITIAL := State(EMPTY_CATALOG, map[], [])

  function NameOf(d: Delta): string {
    match d
    case Added(e) => e.name
    case Removed(name) => name
    case Updated(e) => e.name
  }

  /** What the delta says is listed under its name. */
  function Says(d: Delta): set<Entry> {
    match d
    case Added(e) => {e}
    case Removed(_) => {}
    case Updated(e) => {e}
  }

  predicate Enabled(s: State, a: Action) {
    match a
    case Act(t, op) =>
      t !in s.debts && Possible(s.c, op) && forall k :: k in s.c.registry ==> s.c.registry[k] in s.c.rooms
    case Read(t) => t in s.debts && s.debts[t].ToRead? && s.debts[t].r in s.c.rooms
    case Send(t) => t in s.debts && s.debts[t].ToSend?
  }

  /** The room whose entry the operation will read. */
  function RoomOf(cfg: Config, c: Catalog, op: Op): Option<RoomId> {
    match op
    case CreateOp(_, _, r) => Some(r)
    case JoinOp(name, _) => if cfg.lower(name) in c.registry then Some(c.registry[cfg.lower(name)]) else None
    case LeaveOp(r, _) => Some(r)
    case ExpireOp(_, _) => None
  }

  /** What the operation owes when it has something to publish. */
  function DebtOf(cfg: Config, c: Catalog, op: Op, d: Delta): Debt {
    match RoomOf(cfg, c, op)
    case Some(r) => ToRead(r, d.Added?)
    case None => ToSend(d)
  }

  function Next(cfg: Config, s: State, a: Action): State
    requires Enabled(s, a)
  {
    match a
    case Act(t, op) =>
      var (c, ds) := Perform(cfg, s.c, op);
      s.(c := c, debts := if ds == [] then s.debts else s.debts[t := DebtOf(cfg, s.c, op, ds[0])])
    case Read(t) =>
      var e := EntryOf(s.c.rooms[s.debts[t].r]);
      s.(debts := s.debts[t := ToSend(if s.debts[t].isNew then Added(e) else Updated(e))])
    case Send(t) => s.(debts := s.debts - {t}, sent := s.sent + [s.debts[t].d])
  }

  // ---------------------------------------------------------------- a client that takes what it hears

  /** The last delta about a name decides. */
  function Hear(list: set<Entry>, d: Delta): set<Entry> {
    Without(list, NameOf(d)) + Says(d)
  }

  function HearAll(ds: seq<Delta>): set<Entry> {
    if ds == [] then {} else Hear(HearAll(ds[..|ds| - 1]), ds[|ds| - 1])
  }

  function At(list: set<Entry>, name: string): set<Entry> {
    set e | e in list && e.name == name
  }

  lemma HearAt(list: set<Entry>, d: Delta, name: string)
    ensures At(Hear(list, d), name) == if name == NameOf(d) then Says(d) else At(list, name)
  {
  }

  lemma ReplayAt(list: set<Entry>, d: Delta, name: string)
    requires Applicable(list, d)
    ensures At(Replay(list, d), name) == if name == NameOf(d) then Says(d) else At(list, name)
  {
  }

  lemma SameEverywhere(a: set<Entry>, b: set<Entry>)
    requires forall name :: At(a, name) == At(b, name)
    ensures a == b
  {
    forall e ensures e in a <==> e in b {
      assert e in a <==> e in At(a, e.name);
      assert e in b <==> e in At(b, e.name);
    }
  }

  /** What the last delta about the name says, if there was one. */
  function LastWord(ds: seq<Delta>, name: string): set<Entry> {
    if ds == [] then {}
    else if NameOf(ds[|ds| - 1]) == name then Says(ds[|ds| - 1])
    else LastWord(ds[..|ds| - 1], name)
  }

  lemma {:induction false} HearsLastWord(ds: seq<Delta>, name: string)
    ensures At(HearAll(ds), name) == LastWord(ds, name)
  {
    if ds != [] {
      var n := |ds| - 1;
      HearsLastWord(ds[..n], name);
      HearAt(HearAll(ds[..n]), ds[n], name);
    }
  }

  /** In whatever order deltas were published: the client has the public list if and only if the last delta
      about each name says what is listed under it. */
  lemma ClientAgreesExactly(ds: seq<Delta>, list: set<Entry>)
    ensures HearAll(ds) == list <==> forall name :: LastWord(ds, name) == At(list, name)
  {
    if HearAll(ds) == list {
      forall name ensures LastWord(ds, name) == At(list, name) {
        HearsLastWord(ds, name);
      }
    }
    if forall name :: LastWord(ds, name) == At(list, name) {
      forall name ensures At(HearAll(ds), name) == At(list, name) {
        HearsLastWord(ds, name);
      }
      SameEverywhere(HearAll(ds), list);
    }
  }

  // ---------------------------------------------------------------- one publication at a time for each name

  function Owed(c: Catalog, debt: Debt): string
    requires debt.ToRead? ==> debt.r in c.rooms
  {
    match debt
    case ToRead(r, _) => c.rooms[r].name
    case ToSend(d) => NameOf(d)
  }

  ghost predicate DebtOk(c: Catalog, debt: Debt)
    requires forall k :: k in c.registry ==> c.registry[k] in c.rooms
  {
    match debt
    case ToRead(r, _) => r in c.rooms && Registered(c, r) && r in c.publicRooms
    case ToSend(d) => Says(d) == At(PublicList(c), NameOf(d))
  }

  /** Some thread has yet to publish about the name. */
  ghost predicate Pending(s: State, name: string) {
    exists t :: t in s.debts && (s.debts[t].ToRead? ==> s.debts[t].r in s.c.rooms) && Owed(s.c, s.debts[t]) == name
  }

  /** The operation has nothing to publish, or nobody has yet to publish about that name. */
  ghost predicate Serial(cfg: Config, s: State, a: Action)
    requires Enabled(s, a)
  {
    a.Act? ==> var ds := Perform(cfg, s.c, a.op).1; ds == [] || !Pending(s, NameOf(ds[0]))
  }

  ghost predicate PublishingInv(cfg: Config, s: State) {
    && Inv(cfg, s.c)
    && (forall t :: t in s.debts ==> DebtOk(s.c, s.debts[t]))
    && (forall t, u :: t in s.debts && u in s.debts && Owed(s.c, s.debts[t]) == Owed(s.c, s.debts[u]) ==> t == u)
    && (forall name :: !Pending(s, name) ==> At(HearAll(s.sent), name) == At(PublicList(s.c), name))
  }

  /** An operation changes the list under the name it publishes about, to what it publishes, and under no
      other. */
  lemma PerformAt(cfg: Config, c: Catalog, op: Op, name: string)
    requires Inv(cfg, c) && Possible(c, op)
    ensures var (c', ds) := Perform(cfg, c, op);
            && Inv(cfg, c') && |ds| <= 1
            && At(PublicList(c'), name)
               == if ds != [] && name == NameOf(ds[0]) then Says(ds[0]) else At(PublicList(c), name)
  {
    PerformAnnounces(cfg, c, op);
    var (c', ds) := Perform(cfg, c, op);
    if ds != [] {
      ReplayAt(PublicList(c), ds[0], name);
    }
  }

  /** A listed room stays listed until its removal is announced. */
  lemma StaysListed(cfg: Config, c: Catalog, op: Op, r: RoomId)
    requires Inv(cfg, c) && Possible(c, op) && r in c.rooms && Registered(c, r) && r in c.publicRooms
    ensures var (c', ds) := Perform(cfg, c, op);
            || (r in c'.rooms && Registered(c', r) && r in c'.publicRooms && c'.rooms[r].name == c.rooms[r].name)
            || ds == [Removed(c.rooms[r].name)]
  {
  }

  /** The room whose entry will be read is listed under the name of the delta. */
  lemma ReadsListedRoom(cfg: Config, c: Catalog, op: Op)
    requires Inv(cfg, c) && Possible(c, op) && Perform(cfg, c, op).1 != []
    ensures var (c', ds) := Perform(cfg, c, op);
            match RoomOf(cfg, c, op)
            case Some(r) =>
              && r in c'.rooms && Registered(c', r) && r in c'.publicRooms && c'.rooms[r].name == NameOf(ds[0])
            case None => true
  {
    if op.LeaveOp? {
      assert !c.rooms[op.r].destroyed;
      assert Registered(c, op.r);
    }
  }

  lemma DebtSurvives(cfg: Config, s: State, op: Op, debt: Debt)
    requires PublishingInv(cfg, s) && Possible(s.c, op) && DebtOk(s.c, debt)
    requires var ds := Perform(cfg, s.c, op).1; ds == [] || Owed(s.c, debt) != NameOf(ds[0])
    ensures var c' := Perform(cfg, s.c, op).0;
            Inv(cfg, c') && DebtOk(c', debt) && Owed(c', debt) == Owed(s.c, debt)
  {
    PerformAt(cfg, s.c, op, Owed(s.c, debt));
    if debt.ToRead? {
      StaysListed(cfg, s.c, op, debt.r);
    }
  }

  lemma NewDebtOk(cfg: Config, s: State, op: Op)
    requires PublishingInv(cfg, s) && Possible(s.c, op) && Perform(cfg, s.c, op).1 != []
    ensures var (c', ds) := Perform(cfg, s.c, op);
            var debt := DebtOf(cfg, s.c, op, ds[0]);
            Inv(cfg, c') && DebtOk(c', debt) && Owed(c', debt) == NameOf(ds[0])
  {
    var ds := Perform(cfg, s.c, op).1;
    PerformAt(cfg, s.c, op, NameOf(ds[0]));
    ReadsListedRoom(cfg, s.c, op);
  }

  lemma PendingHas(s: State, t: ThreadId)
    requires t in s.debts && (s.debts[t].ToRead? ==> s.debts[t].r in s.c.rooms)
    ensures Pending(s, Owed(s.c, s.debts[t]))
  {
  }

  /** Whoever has yet to publish about the name still has. */
  lemma StillPending(s: State, s': State, name: string)
    requires forall u :: u in s.debts && (s.debts[u].ToRead? ==> s.debts[u].r in s.c.rooms)
                         && Owed(s.c, s.debts[u]) == name ==>
               && u in s'.debts && (s'.debts[u].ToRead? ==> s'.debts[u].r in s'.c.rooms)
               && Owed(s'.c, s'.debts[u]) == name
    ensures Pending(s, name) ==> Pending(s', name)
  {
  }

  lemma ActKeepsDebts(cfg: Config, s: State, t: ThreadId, op: Op)
    requires PublishingInv(cfg, s) && Enabled(s, Act(t, op)) && Serial(cfg, s, Act(t, op))
    ensures var s' := Next(cfg, s, Act(t, op)); var ds := Perform(cfg, s.c, op).1;
            && Inv(cfg, s'.c)
            && (forall u :: u in s.debts ==> u in s'.debts && s'.debts[u] == s.debts[u] && DebtOk(s'.c, s'.debts[u])
                                             && Owed(s'.c, s'.debts[u]) == Owed(s.c, s.debts[u]))
            && (ds != [] ==> t in s'.debts && DebtOk(s'.c, s'.debts[t]) && Owed(s'.c, s'.debts[t]) == NameOf(ds[0]))
  {
    PerformAt(cfg, s.c, op, "");
    forall u | u in s.debts
      ensures DebtOk(Perform(cfg, s.c, op).0, s.debts[u])
           && Owed(Perform(cfg, s.c, op).0, s.debts[u]) == Owed(s.c, s.debts[u])
    {
      PendingHas(s, u);
      DebtSurvives(cfg, s, op, s.debts[u]);
    }
    if Perform(cfg, s.c, op).1 != [] {
      NewDebtOk(cfg, s, op);
    }
  }

  lemma ActKeepsInv(cfg: Config, s: State, t: ThreadId, op: Op)
    requires PublishingInv(cfg, s) && Enabled(s, Act(t, op)) && Serial(cfg, s, Act(t, op))
    ensures PublishingInv(cfg, Next(cfg, s, Act(t, op)))
  {
    var s' := Next(cfg, s, Act(t, op));
    ActKeepsDebts(cfg, s, t, op);
    forall u | u in s.debts ensures Pending(s, Owed(s.c, s.debts[u])) {
      PendingHas(s, u);
    }
    forall name | !Pending(s', name) ensures At(HearAll(s'.sent), name) == At(PublicList(s'.c), name) {
      PerformAt(cfg, s.c, op, name);
      StillPending(s, s', name);
      NoNewWord(cfg, s, t, op, name);
    }
  }

  /** A name nobody has yet to publish about afterwards is not the one the operation publishes about. */
  lemma NoNewWord(cfg: Config, s: State, t: ThreadId, op: Op, name: string)
    requires PublishingInv(cfg, s) && Enabled(s, Act(t, op)) && Serial(cfg, s, Act(t, op))
    requires !Pending(Next(cfg, s, Act(t, op)), name)
    ensures var ds := Perform(cfg, s.c, op).1; ds == [] || NameOf(ds[0]) != name
  {
    ActKeepsDebts(cfg, s, t, op);
    if Perform(cfg, s.c, op).1 != [] {
      PendingHas(Next(cfg, s, Act(t, op)), t);
    }
  }

  lemma ReadKeepsInv(cfg: Config, s: State, t: ThreadId)
    requires PublishingInv(cfg, s) && Enabled(s, Read(t))
    ensures PublishingInv(cfg, Next(cfg, s, Read(t)))
  {
    var s' := Next(cfg, s, Read(t));
    var r := s.debts[t].r;
    assert DebtOk(s.c, s.debts[t]);
    ListedNames(cfg, s.c, r);
    assert At(PublicList(s.c), s.c.rooms[r].name) == {EntryOf(s.c.rooms[r])};
    assert Owed(s'.c, s'.debts[t]) == Owed(s.c, s.debts[t]);
    forall name ensures Pending(s, name) ==> Pending(s', name) {
      StillPending(s, s', name);
    }
  }

  lemma SendKeepsInv(cfg: Config, s: State, t: ThreadId)
    requires PublishingInv(cfg, s) && Enabled(s, Send(t))
    ensures PublishingInv(cfg, Next(cfg, s, Send(t)))
  {
    var s', d := Next(cfg, s, Send(t)), s.debts[t].d;
    assert DebtOk(s.c, s.debts[t]);
    assert s'.sent[..|s.sent|] == s.sent;
    forall name | !Pending(s', name) ensures At(HearAll(s'.sent), name) == At(PublicList(s'.c), name) {
      HearAt(HearAll(s.sent), d, name);
      if name != NameOf(d) {
        StillPending(s, s', name);
      }
    }
  }

  // ---------------------------------------------------------------- runs

  ghost function Exec(cfg: Config, acts: seq<Action>): Option<State> {
    if acts == [] then Some(INITIAL)
    else
      var n := |acts| - 1;
      match Exec(cfg, acts[..n])
      case None => None
      case Some(s) => if Enabled(s, acts[n]) then Some(Next(cfg, s, acts[n])) else None
  }

  /** No operation on a public room begins before the one before it on that room's name has published. */
  ghost predicate SerialRun(cfg: Config, acts: seq<Action>)
    requires Exec(cfg, acts).Some?
  {
    acts == [] ||
      var n := |acts| - 1;
      SerialRun(cfg, acts[..n]) && Serial(cfg, Exec(cfg, acts[..n]).value, acts[n])
  }

  lemma {:induction false} SerialRunsKeepInv(cfg: Config, acts: seq<Action>)
    requires Exec(cfg, acts).Some? && SerialRun(cfg, acts)
    ensures PublishingInv(cfg, Exec(cfg, acts).value)
  {
    if acts == [] {
      assert PublicList(EMPTY_CATALOG) == {};
    } else {
      var n := |acts| - 1;
      SerialRunsKeepInv(cfg, acts[..n]);
      var s := Exec(cfg, acts[..n]).value;
      match acts[n]
      case Act(t, op) => ActKeepsInv(cfg, s, t, op);
      case Read(t) => ReadKeepsInv(cfg, s, t);
      case Send(t) => SendKeepsInv(cfg, s, t);
    }
  }

  /** Operations on different names may overlap in any way: as long as those on one name do not, the client has,
      under every name that nobody has yet to publish about, exactly what is listed; and the whole list when
      nobody has. */
  lemma {:induction false} SerialPublishingAgrees(cfg: Config, acts: seq<Action>, name: string)
    requires Exec(cfg, acts).Some? && SerialRun(cfg, acts)
    ensures var s := Exec(cfg, acts).value;
            && (forall k :: k in s.c.registry ==> s.c.registry[k] in s.c.rooms)
            && (!Pending(s, name) ==> At(HearAll(s.sent), name) == At(PublicList(s.c), name))
            && (s.debts == map[] ==> HearAll(s.sent) == PublicList(s.c))
  {
    SerialRunsKeepInv(cfg, acts);
    var s := Exec(cfg, acts).value;
    if s.debts == map[] {
      assert forall n :: !Pending(s, n);
      SameEverywhere(HearAll(s.sent), PublicList(s.c));
    }
  }

  // ---------------------------------------------------------------- everything is published in the end

  /** Rooms are never forgotten, so an entry that is owed can be read. */
  ghost predicate RoomsInSight(s: State) {
    forall t :: t in s.debts && s.debts[t].ToRead? ==> s.debts[t].r in s.c.rooms
  }

  lemma KeepsRoomsInSight(cfg: Config, s: State, a: Action)
    requires Enabled(s, a) && RoomsInSight(s)
    ensures RoomsInSight(Next(cfg, s, a))
  {
    if a.Act? {
      PerformForgetsNoRoom(cfg, s.c, a.op);
    }
  }

  lemma PerformForgetsNoRoom(cfg: Config, c: Catalog, op: Op)
    requires Possible(c, op) && forall k :: k in c.registry ==> c.registry[k] in c.rooms
    ensures var (c', ds) := Perform(cfg, c, op);
            && c.rooms.Keys <= c'.rooms.Keys
            && (ds != [] && RoomOf(cfg, c, op).Some? ==> RoomOf(cfg, c, op).value in c'.rooms)
  {
  }

  lemma {:induction false} RunsKeepRoomsInSight(cfg: Config, acts: seq<Action>)
    requires Exec(cfg, acts).Some?
    ensures RoomsInSight(Exec(cfg, acts).value)
  {
    if acts != [] {
      var n := |acts| - 1;
      RunsKeepRoomsInSight(cfg, acts[..n]);
      KeepsRoomsInSight(cfg, Exec(cfg, acts[..n]).value, acts[n]);
    }
  }

  /** In every reachable state: who owes a publication can make it, by its own steps, and what it then publishes is
      the room's entry as it reads it. */
  lemma {:induction false} DebtsCanBePaid(cfg: Config, acts: seq<Action>, t: ThreadId) returns (all: seq<Action>)
    requires Exec(cfg, acts).Some? && t in Exec(cfg, acts).value.debts
    ensures RoomsInSight(Exec(cfg, acts).value) && Exec(cfg, all).Some? && acts <= all
    ensures var s, s' := Exec(cfg, acts).value, Exec(cfg, all).value;
            && s'.c == s.c && s'.debts == s.debts - {t}
            && s'.sent == s.sent + [match s.debts[t]
                                    case ToSend(d) => d
                                    case ToRead(r, isNew) =>
                                      if isNew then Added(EntryOf(s.c.rooms[r])) else Updated(EntryOf(s.c.rooms[r]))]
  {
    var s := Exec(cfg, acts).value;
    RunsKeepRoomsInSight(cfg, acts);
    if s.debts[t].ToRead? {
      all := ReadAndSend(cfg, acts, s, t);
      assert acts <= all;
    } else {
      all := Extend(cfg, acts, s, Send(t), Next(cfg, s, Send(t)));
    }
  }

  // ---------------------------------------------------------------- two publications that overtake each other

  /** One more step of a run. */
  lemma Extend(cfg: Config, acts: seq<Action>, s: State, a: Action, s': State) returns (all: seq<Action>)
    requires Exec(cfg, acts) == Some(s) && Enabled(s, a) && Next(cfg, s, a) == s'
    ensures Exec(cfg, all) == Some(s') && acts <= all
  {
    all := acts + [a];
    assert all[..|acts|] == acts;
  }

  /** The catalog of one public room with these peers. */
  function OneRoom(cfg: Config, name: string, peers: set<PeerId>, armed: bool, generation: nat): Catalog {
    Catalog(map[cfg.lower(name) := 0],
            map[0 := RoomState(name, cfg.lower(name), cfg.maxPeers, peers, armed, generation, false)], {0})
  }

  lemma CreateOneRoom(cfg: Config, name: string)
    requires name != "" && cfg.maxRooms >= 1
    ensures Perform(cfg, EMPTY_CATALOG, CreateOp(name, true, 0))
         == (OneRoom(cfg, name, {}, true, 1), [Added(Entry(name, 0, cfg.maxPeers))])
  {
  }

  lemma JoinOneRoom(cfg: Config, name: string, peers: set<PeerId>, armed: bool, generation: nat, p: PeerId)
    requires |peers| < cfg.maxPeers
    ensures Perform(cfg, OneRoom(cfg, name, peers, armed, generation), JoinOp(name, p))
         == (OneRoom(cfg, name, peers + {p}, false, if armed then generation + 1 else generation),
             [Updated(Entry(name, |peers + {p}|, cfg.maxPeers))])
  {
    var c := OneRoom(cfg, name, peers, armed, generation);
    var c' := OneRoom(cfg, name, peers + {p}, false, if armed then generation + 1 else generation);
    assert c.rooms[0 := c'.rooms[0]] == c'.rooms;
  }

  /** A run up to the point where a public room has been created and announced. */
  lemma Announced(cfg: Config, name: string) returns (acts: seq<Action>)
    requires name != "" && cfg.maxRooms >= 1
    ensures Exec(cfg, acts)
         == Some(State(OneRoom(cfg, name, {}, true, 1), map[], [Added(Entry(name, 0, cfg.maxPeers))]))
  {
    var c, d := OneRoom(cfg, name, {}, true, 1), Added(Entry(name, 0, cfg.maxPeers));
    CreateOneRoom(cfg, name);
    acts := Extend(cfg, [], INITIAL, Act(0, CreateOp(name, true, 0)), State(c, map[0 := ToRead(0, true)], []));
    acts := ReadAndSend(cfg, acts, State(c, map[0 := ToRead(0, true)], []), 0);
    assert map[0 := ToSend(d)] - {0} == map[];
    assert [] + [d] == [d];
  }

  lemma ReadAndSend(cfg: Config, acts: seq<Action>, s: State, t: ThreadId) returns (all: seq<Action>)
    requires Exec(cfg, acts) == Some(s) && Enabled(s, Read(t))
    ensures acts <= all
    ensures var e := EntryOf(s.c.rooms[s.debts[t].r]);
            Exec(cfg, all) == Some(s.(debts := s.debts - {t},
                                      sent := s.sent + [if s.debts[t].isNew then Added(e) else Updated(e)]))
  {
    var s1 := Next(cfg, s, Read(t));
    all := Extend(cfg, acts, s, Read(t), s1);
    all := Extend(cfg, all, s1, Send(t), Next(cfg, s1, Send(t)));
    assert s1.debts - {t} == s.debts - {t};
  }

  /** Then two peers join, each by a thread that reads its entry at once. */
  lemma JoinAndRead(cfg: Config, name: string, acts: seq<Action>, s: State, peers: set<PeerId>, armed: bool,
                    generation: nat, p: PeerId) returns (all: seq<Action>)
    requires Exec(cfg, acts) == Some(s) && s.c == OneRoom(cfg, name, peers, armed, generation)
    requires |peers| < cfg.maxPeers && p !in s.debts && generation == (if armed then 1 else 2)
    ensures Exec(cfg, all) == Some(AfterJoin(cfg, name, s, peers + {p}, p))
  {
    JoinOneRoom(cfg, name, peers, armed, generation, p);
    var s1 := Next(cfg, s, Act(p, JoinOp(name, p)));
    all := Extend(cfg, acts, s, Act(p, JoinOp(name, p)), s1);
    assert s1.debts == s.debts[p := ToRead(0, false)];
    var s2 := Next(cfg, s1, Read(p));
    all := Extend(cfg, all, s1, Read(p), s2);
    assert s2.debts == s.debts[p := s2.debts[p]];
  }

  /** A run in which two joins publish in the other order than they read: everything has been published, two
      peers are in the room, and the client's list says one. */
  lemma StaleCount(cfg: Config, name: string) returns (acts: seq<Action>)
    requires name != "" && cfg.maxRooms >= 1 && cfg.maxPeers >= 2
    ensures Exec(cfg, acts).Some?
    ensures var s := Exec(cfg, acts).value;
            && (forall k :: k in s.c.registry ==> s.c.registry[k] in s.c.rooms)
            && s.debts == map[]
            && PublicList(s.c) == {Entry(name, 2, cfg.maxPeers)}
            && HearAll(s.sent) == {Entry(name, 1, cfg.maxPeers)}
  {
    var before := BothRead(cfg, name);
    var c := OneRoom(cfg, name, {1, 2}, false, 2);
    var added := Added(Entry(name, 0, cfg.maxPeers));
    var one, two := Updated(Entry(name, 1, cfg.maxPeers)), Updated(Entry(name, 2, cfg.maxPeers));
    acts := SecondFirst(cfg, before, c, [added], one, two);
    OnlyEntry(cfg, name, {1, 2}, false, 2);
    assert |{1, 2}| == 2;
    HeardAlone(added, two, Entry(name, 1, cfg.maxPeers));
  }

  lemma BothRead(cfg: Config, name: string) returns (acts: seq<Action>)
    requires name != "" && cfg.maxRooms >= 1 && cfg.maxPeers >= 2
    ensures Exec(cfg, acts)
         == Some(State(OneRoom(cfg, name, {1, 2}, false, 2),
                       map[1 := ToSend(Updated(Entry(name, 1, cfg.maxPeers))),
                           2 := ToSend(Updated(Entry(name, 2, cfg.maxPeers)))],
                       [Added(Entry(name, 0, cfg.maxPeers))]))
  {
    acts := OneRead(cfg, name);
    var s1 := AfterJoin(cfg, name, JustAnnounced(cfg, name), {1}, 1);
    assert {1} + {2} == {1, 2};
    acts := JoinAndRead(cfg, name, acts, s1, {1}, false, 2, 2);
  }

  function JustAnnounced(cfg: Config, name: string): State {
    State(OneRoom(cfg, name, {}, true, 1), map[], [Added(Entry(name, 0, cfg.maxPeers))])
  }

  lemma OneRead(cfg: Config, name: string) returns (acts: seq<Action>)
    requires name != "" && cfg.maxRooms >= 1 && cfg.maxPeers >= 2
    ensures Exec(cfg, acts) == Some(AfterJoin(cfg, name, JustAnnounced(cfg, name), {1}, 1))
  {
    acts := Announced(cfg, name);
    assert {} + {1} == {1};
    acts := JoinAndRead(cfg, name, acts, JustAnnounced(cfg, name), {}, true, 1, 1);
  }

  /** Peer p has joined as the last of these peers, and its thread has read the entry. */
  function AfterJoin(cfg: Config, name: string, s: State, peers: set<PeerId>, p: PeerId): State {
    State(OneRoom(cfg, name, peers, false, 2),
          s.debts[p := ToSend(Updated(Entry(name, |peers|, cfg.maxPeers)))], s.sent)
  }

  lemma SecondFirst(cfg: Config, acts: seq<Action>, c: Catalog, sent: seq<Delta>, one: Delta, two: Delta)
    returns (all: seq<Action>)
    requires Exec(cfg, acts) == Some(State(c, map[1 := ToSend(one), 2 := ToSend(two)], sent))
    ensures Exec(cfg, all) == Some(State(c, map[], sent + [two] + [one]))
  {
    var s1, s2 := State(c, map[1 := ToSend(one)], sent + [two]), State(c, map[], sent + [two] + [one]);
    assert map[1 := ToSend(one), 2 := ToSend(two)] - {2} == s1.debts;
    all := Extend(cfg, acts, State(c, map[1 := ToSend(one), 2 := ToSend(two)], sent), Send(2), s1);
    assert s1.debts - {1} == map[];
    all := Extend(cfg, all, s1, Send(1), s2);
  }

  lemma HeardAlone(first: Delta, second: Delta, e: Entry)
    requires NameOf(first) == e.name && NameOf(second) == e.name
    ensures HearAll([first] + [second] + [Updated(e)]) == {e}
  {
    Heard(first, second, Updated(e), e.name);
  }

  lemma Heard(first: Delta, second: Delta, third: Delta, name: string)
    requires NameOf(first) == name && NameOf(second) == name && NameOf(third) == name
    requires forall e :: e in Says(first) || e in Says(second) ==> e.name == name
    ensures HearAll([first] + [second] + [third]) == Says(third)
  {
    HearMore([], first, name);
    HearMore([first], second, name);
    HearMore([first] + [second], third, name);
    assert [] + [first] == [first];
  }

  /** On a list of entries of one name, a delta about it is all that is left. */
  lemma HearMore(ds: seq<Delta>, d: Delta, name: string)
    requires NameOf(d) == name && forall e :: e in HearAll(ds) ==> e.name == name
    ensures HearAll(ds + [d]) == Says(d)
  {
    assert (ds + [d])[..|ds|] == ds;
    assert Without(HearAll(ds), name) == {};
  }

  lemma OnlyEntry(cfg: Config, name: string, peers: set<PeerId>, armed: bool, generation: nat)
    ensures PublicList(OneRoom(cfg, name, peers, armed, generation)) == {Entry(name, |peers|, cfg.maxPeers)}
  {
    var c := OneRoom(cfg, name, peers, armed, generation);
    assert cfg.lower(name) in c.registry && EntryOf(c.rooms[0]) == Entry(name, |peers|, cfg.maxPeers);
  }
}
