/** What holds of the room lifecycle along every run: no orphaned peer, no leaked room, and destroy
    callbacks that only ever take effect after a full, undisturbed delay. */
module RoomRuns {
  import opened Wrappers
  import opened RoomSections
  import opened RoomWorld

  // ---------------------------------------------------------------- runs

  /** The world after a sequence of steps from the empty server, if each was enabled in its turn. */
  ghost function Exec(cfg: Config, acts: seq<Action>): Option<World> {
    if acts == [] then Some(EMPTY_WORLD)
    else
      var n := |acts| - 1;
      match Exec(cfg, acts[..n])
      case None => None
      case Some(w) => if Enabled(w, acts[n]) then Some(Next(cfg, w, acts[n])) else None
  }

  ghost predicate IsRun(cfg: Config, acts: seq<Action>) {
    Exec(cfg, acts).Some?
  }

  lemma {:induction false} PrefixIsRun(cfg: Config, acts: seq<Action>, k: nat)
    requires IsRun(cfg, acts) && k <= |acts|
    ensures IsRun(cfg, acts[..k])
  {
    if k < |acts| {
      var n := |acts| - 1;
      assert acts[..n][..k] == acts[..k];
      PrefixIsRun(cfg, acts[..n], k);
    } else {
      assert acts[..k] == acts;
    }
  }

  /** The state in which step k of the run is taken. */
  ghost function StateAt(cfg: Config, acts: seq<Action>, k: nat): World
    requires IsRun(cfg, acts) && k <= |acts|
  {
    PrefixIsRun(cfg, acts, k);
    Exec(cfg, acts[..k]).value
  }

  lemma StepAt(cfg: Config, acts: seq<Action>, k: nat)
    requires IsRun(cfg, acts) && k < |acts|
    ensures Enabled(StateAt(cfg, acts, k), acts[k])
    ensures StateAt(cfg, acts, k + 1) == Next(cfg, StateAt(cfg, acts, k), acts[k])
  {
    PrefixIsRun(cfg, acts, k + 1);
    assert acts[..k + 1][..k] == acts[..k];
  }

  lemma {:induction false} RunsKeepInv(cfg: Config, acts: seq<Action>, k: nat)
    requires IsRun(cfg, acts) && k <= |acts|
    ensures Inv(cfg, StateAt(cfg, acts, k))
  {
    if k == 0 {
      InitiallyInv(cfg);
    } else {
      RunsKeepInv(cfg, acts, k - 1);
      StepAt(cfg, acts, k - 1);
      KeepsInv(cfg, StateAt(cfg, acts, k - 1), acts[k - 1]);
    }
  }

  // ---------------------------------------------------------------- safety in every reachable state

  /** A room is the registry's entry for its name exactly when it is not destroyed; a destroyed room
      and an armed one are empty; and two live rooms never share a name up to case. */
  lemma NoOrphanedRoom(cfg: Config, acts: seq<Action>, k: nat, r: RoomId, q: RoomId)
    requires IsRun(cfg, acts) && k <= |acts|
    requires r in StateAt(cfg, acts, k).rooms && q in StateAt(cfg, acts, k).rooms
    ensures var w := StateAt(cfg, acts, k);
            var s := w.rooms[r];
            && (Registered(w, r) <==> !s.destroyed)
            && (s.destroyed ==> s.peers == {})
            && (s.armed ==> s.peers == {} && !s.destroyed)
            && |s.peers| <= cfg.maxPeers
            && |w.registry| <= cfg.maxRooms
            && (!s.destroyed && !w.rooms[q].destroyed && cfg.lower(s.name) == cfg.lower(w.rooms[q].name) ==> q == r)
  {
    RunsKeepInv(cfg, acts, k);
    var w := StateAt(cfg, acts, k);
    assert RoomOk(cfg, w.rooms[r]) && RoomOk(cfg, w.rooms[q]);
    if !w.rooms[r].destroyed {
      assert Registered(w, r);
    }
    if !w.rooms[q].destroyed {
      assert Registered(w, q);
    }
  }

  /** Find answers with the one room that is not destroyed and was created under a name of the same
      lower-casing, in whatever spelling, and with none when every such room is destroyed. */
  lemma FindMeansLive(cfg: Config, acts: seq<Action>, k: nat, name: string)
    requires IsRun(cfg, acts) && k <= |acts|
    ensures var w := StateAt(cfg, acts, k);
            && (forall r :: r in w.rooms ==>
                  (Find(cfg, w, name) == Some(r)
                   <==> !w.rooms[r].destroyed && cfg.lower(w.rooms[r].name) == cfg.lower(name)))
            && (Find(cfg, w, name).Some? ==> Find(cfg, w, name).value in w.rooms)
  {
    RunsKeepInv(cfg, acts, k);
    var w := StateAt(cfg, acts, k);
    forall r | r in w.rooms
      ensures Find(cfg, w, name) == Some(r)
         <==> !w.rooms[r].destroyed && cfg.lower(w.rooms[r].name) == cfg.lower(name)
    {
      assert RoomOk(cfg, w.rooms[r]);
      if !w.rooms[r].destroyed {
        assert Registered(w, r);
      }
    }
  }

  /** So every spelling of a name finds the new room after a create exactly when the create succeeded, and
      none after a destroy exactly when it took effect on the room of that name; what any other name finds
      stays, and no other step changes what any name finds. */
  lemma FindFollowsCreateAndDestroy(cfg: Config, acts: seq<Action>, k: nat, name: string)
    requires IsRun(cfg, acts) && k < |acts|
    ensures FindFollows(cfg, StateAt(cfg, acts, k), acts[k], StateAt(cfg, acts, k + 1), name)
  {
    StepAt(cfg, acts, k);
    RunsKeepInv(cfg, acts, k);
    RegistryStep(cfg, StateAt(cfg, acts, k), acts[k], name);
  }

  ghost predicate FindFollows(cfg: Config, w: World, a: Action, w': World, name: string) {
    match a
    case CreateRoom(_, spelling, r) =>
      var succeeds := spelling != "" && Find(cfg, w, spelling) == None && |w.registry| < cfg.maxRooms;
      Find(cfg, w', name)
      == (if succeeds && cfg.lower(name) == cfg.lower(spelling) then Some(r) else Find(cfg, w, name))
    case RunDestroy(r, g) =>
      && (TakesEffect(w, r, g) ==> Find(cfg, w, w.rooms[r].name) == Some(r))
      && Find(cfg, w', name)
         == (if TakesEffect(w, r, g) && Find(cfg, w, name) == Some(r) then None else Find(cfg, w, name))
    case _ => Find(cfg, w', name) == Find(cfg, w, name)
  }

  lemma RegistryStep(cfg: Config, w: World, a: Action, name: string)
    requires CoreInv(cfg, w) && Enabled(w, a)
    ensures FindFollows(cfg, w, a, Next(cfg, w, a), name)
  {
    if LeavesRoomsAlone(a) {
      OnlySessionsMove(cfg, w, a);
    } else if a.RunDestroy? {
      DestroyStep(cfg, w, a.r, a.generation, name);
    }
  }

  lemma DestroyStep(cfg: Config, w: World, r: RoomId, g: nat, name: string)
    requires CoreInv(cfg, w) && Enabled(w, RunDestroy(r, g))
    ensures FindFollows(cfg, w, RunDestroy(r, g), Next(cfg, w, RunDestroy(r, g)), name)
  {
    assert RoomOk(cfg, w.rooms[r]);
    if Find(cfg, w, name) == Some(r) {
      assert w.rooms[r].key == cfg.lower(name);
    }
  }

  /** A peer is in at most one room's map, every room that holds it is live and its session is still
      there, and its room pointer names exactly that room, except inside its own Add or Remove. */
  lemma MembershipAgrees(cfg: Config, acts: seq<Action>, k: nat, p: PeerId, r: RoomId, q: RoomId)
    requires IsRun(cfg, acts) && k <= |acts|
    requires r in StateAt(cfg, acts, k).rooms && q in StateAt(cfg, acts, k).rooms
    ensures var w := StateAt(cfg, acts, k);
            && (p in w.rooms[r].peers && p in w.rooms[q].peers ==> r == q)
            && (p in w.rooms[r].peers ==> p in w.sessions && Registered(w, r))
            && (p in w.sessions && !w.sessions[p].pc.Added? && !w.sessions[p].pc.Removed? ==>
                  (p in w.rooms[r].peers <==> w.sessions[p].current == Some(r)))
  {
    RunsKeepInv(cfg, acts, k);
    var w := StateAt(cfg, acts, k);
    assert RoomOk(cfg, w.rooms[r]);
    if p in w.rooms[r].peers {
      assert !w.rooms[r].destroyed;
      assert Registered(w, r);
      assert MemberOf(w.sessions[p]) == Some(r);
      assert p in w.rooms[q].peers ==> MemberOf(w.sessions[p]) == Some(q);
    }
  }

  /** A registered empty room always has an armed timer whose callback carries the current
      generation, or a thread inside Create or Remove that has yet to schedule one. */
  lemma NoLeakedRoom(cfg: Config, acts: seq<Action>, k: nat, r: RoomId)
    requires IsRun(cfg, acts) && k <= |acts| && r in StateAt(cfg, acts, k).rooms
    requires Registered(StateAt(cfg, acts, k), r) && StateAt(cfg, acts, k).rooms[r].peers == {}
    ensures var w := StateAt(cfg, acts, k);
            || (w.rooms[r].armed && (r, w.rooms[r].generation) in w.callbacks)
            || SomeoneWillSchedule(w.sessions, r)
  {
    RunsKeepInv(cfg, acts, k);
    var w := StateAt(cfg, acts, k);
    assert !w.rooms[r].destroyed;
    assert w.rooms[r].armed || Unwatched(w.rooms[r]);
  }

  /** A racing Add has three outcomes, decided by the room alone and not by who owns its name now: a
      destroyed room answers not-found, a full one answers full, and otherwise the peer is in a
      registered room whose pending callbacks have all become stale. */
  lemma RacingAdd(cfg: Config, acts: seq<Action>, k: nat, p: PeerId)
    requires IsRun(cfg, acts) && k < |acts| && acts[k] == AddPeer(p)
    ensures var w, w' := StateAt(cfg, acts, k), StateAt(cfg, acts, k + 1);
            && Enabled(w, acts[k])
            && var r := w.sessions[p].pc.room;
            var result := Add(w.rooms[r], Registered(w, r), p).1;
            && (result.RoomNotFound? <==> w.rooms[r].destroyed)
            && (result.RoomFull? <==> !w.rooms[r].destroyed && |w.rooms[r].peers| == cfg.maxPeers)
            && (!result.Joined? ==> w'.rooms == w.rooms && w'.registry == w.registry)
            && (result.Joined? ==>
                  && r in w'.rooms && p in w'.rooms[r].peers && result.others == w'.rooms[r].peers - {p}
                  && Registered(w', r) && !w'.rooms[r].destroyed && !w'.rooms[r].armed
                  && forall g :: (r, g) in w'.callbacks ==> g < w'.rooms[r].generation)
  {
    RunsKeepInv(cfg, acts, k);
    RunsKeepInv(cfg, acts, k + 1);
    StepAt(cfg, acts, k);
    var w := StateAt(cfg, acts, k);
    var r := w.sessions[p].pc.room;
    assert RoomOk(cfg, w.rooms[r]);
    AddOutcome(cfg, w, r, p);
    AddLeavesStaleCallbacks(cfg, w, StateAt(cfg, acts, k + 1), p, r);
  }

  lemma AddOutcome(cfg: Config, w: World, r: RoomId, p: PeerId)
    requires CoreInv(cfg, w) && r in w.rooms
    ensures var result := Add(w.rooms[r], Registered(w, r), p).1;
            && (result.RoomNotFound? <==> w.rooms[r].destroyed)
            && (result.RoomFull? <==> !w.rooms[r].destroyed && |w.rooms[r].peers| == cfg.maxPeers)
  {
    assert RoomOk(cfg, w.rooms[r]);
    assert !w.rooms[r].destroyed ==> Registered(w, r);
  }

  lemma AddLeavesStaleCallbacks(cfg: Config, w: World, w': World, p: PeerId, r: RoomId)
    requires CoreInv(cfg, w') && r in w.rooms && p in w.sessions && w' == AddIn(w, p, r)
    ensures Add(w.rooms[r], Registered(w, r), p).1.Joined? ==>
              && p in w'.rooms[r].peers && Registered(w', r)
              && Add(w.rooms[r], Registered(w, r), p).1.others == w'.rooms[r].peers - {p}
              && !w'.rooms[r].destroyed && !w'.rooms[r].armed
              && forall g :: (r, g) in w'.callbacks ==> g < w'.rooms[r].generation
  {
    if Add(w.rooms[r], Registered(w, r), p).1.Joined? {
      assert RoomOk(cfg, w'.rooms[r]);
      assert !w'.rooms[r].armed && !w'.rooms[r].destroyed;
      forall g | (r, g) in w'.callbacks ensures g < w'.rooms[r].generation {
        assert (r, g).0 == r && (r, g).1 == g;
      }
    }
  }

  // ---------------------------------------------------------------- what one step can do to one room

  /** The step starts the timer of the given generation. */
  ghost predicate Arms(w: World, a: Action, w': World, r: RoomId, g: nat) {
    && (a.StartIdleTimer? || a.ScheduleEmpty?)
    && (r, g) !in w.callbacks && (r, g) in w'.callbacks
    && w'.callbacks[(r, g)] == Callback(w.now + DelayOf(a), false)
    && r in w'.rooms && w'.rooms[r].generation == g && w'.rooms[r].armed
  }

  function DelayOf(a: Action): nat {
    if a.StartIdleTimer? then ROOM_IDLE_NO_JOIN else ROOM_EMPTY_DESTROY
  }

  /** Generations only grow, destruction is final, an armed timer stays armed for as long as its
      generation is current, and a callback keeps its due time and
      stays fired. */
  lemma RoomStep(cfg: Config, w: World, a: Action, r: RoomId)
    requires Enabled(w, a) && r in w.rooms
    ensures var w' := Next(cfg, w, a);
            && w'.now >= w.now
            && r in w'.rooms
            && w'.rooms[r].generation >= w.rooms[r].generation
            && (w.rooms[r].destroyed ==> w'.rooms[r].destroyed)
            && (w.rooms[r].armed && w'.rooms[r].generation == w.rooms[r].generation ==> w'.rooms[r].armed)
  {
    if LeavesRoomsAlone(a) {
      OnlySessionsMove(cfg, w, a);
    }
  }

  lemma CallbackStep(cfg: Config, w: World, a: Action, r: RoomId, g: nat)
    requires CallbackInv(w) && Enabled(w, a)
    ensures var w' := Next(cfg, w, a);
            (r, g) in w'.callbacks ==>
              if (r, g) in w.callbacks then
                && w'.callbacks[(r, g)].due == w.callbacks[(r, g)].due
                && (w.callbacks[(r, g)].fired ==> w'.callbacks[(r, g)].fired)
              else Arms(w, a, w', r, g)
  {
    if LeavesRoomsAlone(a) {
      OnlySessionsMove(cfg, w, a);
    }
  }

  // ---------------------------------------------------------------- and what a run can

  lemma {:induction false} RoomHistory(cfg: Config, acts: seq<Action>, i: nat, j: nat, r: RoomId)
    requires IsRun(cfg, acts) && i <= j <= |acts| && r in StateAt(cfg, acts, i).rooms
    ensures r in StateAt(cfg, acts, j).rooms
    ensures StateAt(cfg, acts, i).now <= StateAt(cfg, acts, j).now
    ensures StateAt(cfg, acts, i).rooms[r].generation <= StateAt(cfg, acts, j).rooms[r].generation
    ensures StateAt(cfg, acts, i).rooms[r].destroyed ==> StateAt(cfg, acts, j).rooms[r].destroyed
  {
    if i < j {
      RoomHistory(cfg, acts, i, j - 1, r);
      StepAt(cfg, acts, j - 1);
      RoomStep(cfg, StateAt(cfg, acts, j - 1), acts[j - 1], r);
    }
  }

  /** A destroyed room stays destroyed, unregistered and empty for ever, even if its name comes back. */
  lemma DestroyedForEver(cfg: Config, acts: seq<Action>, i: nat, j: nat, r: RoomId)
    requires IsRun(cfg, acts) && i <= j <= |acts|
    requires r in StateAt(cfg, acts, i).rooms && StateAt(cfg, acts, i).rooms[r].destroyed
    ensures r in StateAt(cfg, acts, j).rooms
    ensures StateAt(cfg, acts, j).rooms[r].destroyed && StateAt(cfg, acts, j).rooms[r].peers == {}
    ensures !Registered(StateAt(cfg, acts, j), r)
  {
    RoomHistory(cfg, acts, i, j, r);
    NoOrphanedRoom(cfg, acts, j, r, r);
  }

  /** A pending callback was pending one step before, or that step armed it. */
  lemma ArmedBefore(cfg: Config, acts: seq<Action>, k: nat, r: RoomId, g: nat)
    requires IsRun(cfg, acts) && k < |acts| && (r, g) in StateAt(cfg, acts, k + 1).callbacks
    ensures (r, g) in StateAt(cfg, acts, k).callbacks
            || Arms(StateAt(cfg, acts, k), acts[k], StateAt(cfg, acts, k + 1), r, g)
  {
    StepAt(cfg, acts, k);
    CallbacksOk(cfg, acts, k);
    CallbackStep(cfg, StateAt(cfg, acts, k), acts[k], r, g);
  }

  /** Every pending callback was armed by some earlier step. */
  lemma {:induction false} CallbacksAreArmed(cfg: Config, acts: seq<Action>, j: nat, r: RoomId, g: nat)
    returns (i: nat)
    requires IsRun(cfg, acts) && j <= |acts| && (r, g) in StateAt(cfg, acts, j).callbacks
    ensures i < j && Arms(StateAt(cfg, acts, i), acts[i], StateAt(cfg, acts, i + 1), r, g)
  {
    if j == 0 {
      assert false;
    } else {
      ArmedBefore(cfg, acts, j - 1, r, g);
      if (r, g) in StateAt(cfg, acts, j - 1).callbacks {
        i := CallbacksAreArmed(cfg, acts, j - 1, r, g);
      } else {
        i := j - 1;
      }
    }
  }

  ghost predicate ArmedAt(w: World, r: RoomId, g: nat) {
    r in w.rooms && w.rooms[r].armed && w.rooms[r].generation == g
  }

  /** Between the step that armed a generation and any state where it is still current, the timer was
      armed throughout, with the same due time. */
  lemma {:induction false} ArmedThroughout(cfg: Config, acts: seq<Action>, i: nat, k: nat, j: nat, r: RoomId, g: nat)
    requires IsRun(cfg, acts) && i < k <= j <= |acts|
    requires Arms(StateAt(cfg, acts, i), acts[i], StateAt(cfg, acts, i + 1), r, g)
    requires r in StateAt(cfg, acts, j).rooms && StateAt(cfg, acts, j).rooms[r].generation == g
    ensures ArmedAt(StateAt(cfg, acts, k), r, g)
    ensures (r, g) in StateAt(cfg, acts, k).callbacks
    ensures StateAt(cfg, acts, k).callbacks[(r, g)].due == StateAt(cfg, acts, i).now + DelayOf(acts[i])
    decreases k
  {
    if k > i + 1 {
      ArmedThroughout(cfg, acts, i, k - 1, j, r, g);
      RoomHistory(cfg, acts, k - 1, k, r);
      RoomHistory(cfg, acts, k, j, r);
      StaysArmed(cfg, acts, k - 1, r, g);
    }
  }

  lemma StaysArmed(cfg: Config, acts: seq<Action>, k: nat, r: RoomId, g: nat)
    requires IsRun(cfg, acts) && k < |acts|
    requires ArmedAt(StateAt(cfg, acts, k), r, g) && (r, g) in StateAt(cfg, acts, k).callbacks
    requires r in StateAt(cfg, acts, k + 1).rooms && StateAt(cfg, acts, k + 1).rooms[r].generation == g
    ensures ArmedAt(StateAt(cfg, acts, k + 1), r, g)
    ensures (r, g) in StateAt(cfg, acts, k + 1).callbacks
    ensures StateAt(cfg, acts, k + 1).callbacks[(r, g)].due == StateAt(cfg, acts, k).callbacks[(r, g)].due
  {
    StepAt(cfg, acts, k);
    CallbacksOk(cfg, acts, k);
    CallbacksOk(cfg, acts, k + 1);
    ArmedStep(cfg, StateAt(cfg, acts, k), acts[k], r, g);
  }

  lemma CallbacksOk(cfg: Config, acts: seq<Action>, k: nat)
    requires IsRun(cfg, acts) && k <= |acts|
    ensures CallbackInv(StateAt(cfg, acts, k))
  {
    RunsKeepInv(cfg, acts, k);
  }

  lemma ArmedStep(cfg: Config, w: World, a: Action, r: RoomId, g: nat)
    requires Enabled(w, a) && CallbackInv(w) && CallbackInv(Next(cfg, w, a))
    requires ArmedAt(w, r, g) && (r, g) in w.callbacks
    requires r in Next(cfg, w, a).rooms && Next(cfg, w, a).rooms[r].generation == g
    ensures ArmedAt(Next(cfg, w, a), r, g)
    ensures (r, g) in Next(cfg, w, a).callbacks && Next(cfg, w, a).callbacks[(r, g)].due == w.callbacks[(r, g)].due
  {
    RoomStep(cfg, w, a, r);
    CallbackStep(cfg, w, a, r, g);
  }

  /** Running callback (r, g) in state w destroys the room. */
  ghost predicate TakesEffect(w: World, r: RoomId, g: nat) {
    r in w.rooms && Destroy(w.rooms[r], Registered(w, r), g).1
  }

  /** A callback that takes effect was armed by some step i, its whole delay has gone by since, and in
      every state in between the room was empty: no Add on it succeeded. */
  lemma DestroyWaitedOutItsDelay(cfg: Config, acts: seq<Action>, j: nat, r: RoomId, g: nat)
    requires IsRun(cfg, acts) && j < |acts| && acts[j] == RunDestroy(r, g)
    requires TakesEffect(StateAt(cfg, acts, j), r, g)
    ensures exists i {:trigger StateAt(cfg, acts, i)} ::
              && 0 <= i < j
              && Arms(StateAt(cfg, acts, i), acts[i], StateAt(cfg, acts, i + 1), r, g)
              && StateAt(cfg, acts, j).now >= StateAt(cfg, acts, i).now + DelayOf(acts[i])
              && forall k {:trigger StateAt(cfg, acts, k)} :: i < k <= j ==>
                   r in StateAt(cfg, acts, k).rooms && StateAt(cfg, acts, k).rooms[r].peers == {}
  {
    StepAt(cfg, acts, j);
    RunsKeepInv(cfg, acts, j);
    var i := CallbacksAreArmed(cfg, acts, j, r, g);
    ArmedThroughout(cfg, acts, i, j, j, r, g);
    forall k | i < k <= j
      ensures r in StateAt(cfg, acts, k).rooms && StateAt(cfg, acts, k).rooms[r].peers == {}
    {
      ArmedThroughout(cfg, acts, i, k, j, r, g);
      RunsKeepInv(cfg, acts, k);
      assert RoomOk(cfg, StateAt(cfg, acts, k).rooms[r]);
    }
  }

  /** Once a callback is stale it never takes effect again. */
  lemma StaleForEver(cfg: Config, acts: seq<Action>, i: nat, j: nat, r: RoomId, g: nat)
    requires IsRun(cfg, acts) && i <= j <= |acts|
    requires r in StateAt(cfg, acts, i).rooms && (r, g) in StateAt(cfg, acts, i).callbacks
    requires !ArmedAt(StateAt(cfg, acts, i), r, g)
    ensures !TakesEffect(StateAt(cfg, acts, j), r, g)
  {
    RunsKeepInv(cfg, acts, i);
    assert (r, g).0 == r && (r, g).1 == g;
    assert g < StateAt(cfg, acts, i).rooms[r].generation;
    RoomHistory(cfg, acts, i, j, r);
  }

  /** However many callbacks a room collects, at most one of them takes effect in the whole run. */
  lemma AtMostOneTakesEffect(cfg: Config, acts: seq<Action>, i: nat, j: nat, r: RoomId, g: nat, h: nat)
    requires IsRun(cfg, acts) && i < |acts| && j < |acts|
    requires acts[i] == RunDestroy(r, g) && TakesEffect(StateAt(cfg, acts, i), r, g)
    requires acts[j] == RunDestroy(r, h) && TakesEffect(StateAt(cfg, acts, j), r, h)
    ensures i == j
  {
    var first, second := if i < j then i else j, if i < j then j else i;
    StepAt(cfg, acts, first);
    if first < second {
      RoomHistory(cfg, acts, first + 1, second, r);
    }
  }
}
