/** The forwarder of one room: a bounded queue of audio frames, taken one at a time and handed to the
    members that should hear them, while members join, leave, mute and subscribe. */
module FanOut {
  import opened Wrappers
  import opened Sequences
  import RoomSections

  type PeerId = RoomSections.PeerId

  const AUDIO_CH_BUFFER := 512

  /** What the fan-out reads of a peer; subscribed is None when it never sent a subscription. */
  datatype Member = Member(muted: bool, subscribed: Option<set<PeerId>>)

  predicate Hears(m: Member, source: PeerId) {
    m.subscribed.None? || source in m.subscribed.value
  }

  /** The members a frame goes to when nothing changes meanwhile: nobody when its source has left or is
      muted. */
  function Recipients(members: map<PeerId, Member>, source: PeerId): set<PeerId> {
    if source !in members || members[source].muted then {} else Hearing(members, source)
  }

  function Hearing(members: map<PeerId, Member>, source: PeerId): set<PeerId> {
    set q | q in members && q != source && Hears(members[q], source)
  }

  // ---------------------------------------------------------------- the machine

  /** Frames are told apart by the number of the Forward call that submitted them. */
  datatype Frame = Frame(id: nat, source: PeerId)

  /** What the forwarder is doing with the frame it took. While it scans it holds the room's read lock:
      nobody joins or leaves, but mutes and subscriptions still change, and each member's subscription is
      read at its own moment. `seen` is what it has read so far. */
  datatype Hand =
    | Nothing
    | Holding(frame: Frame)
    | Scanning(frame: Frame, unread: set<PeerId>, seen: map<PeerId, Member>)
    | Sending(frame: Frame, todo: set<PeerId>, seen: map<PeerId, Member>)

  datatype Delivery = Delivery(frame: Frame, receiver: PeerId, seen: map<PeerId, Member>)

  datatype Mode = Running | Draining | Stopped

  datatype State = State(
    members: map<PeerId, Member>,
    queue: seq<Frame>,
    hand: Hand,
    mode: Mode,
    closed: bool,
    submitted: nat,              // Forward calls so far
    accepted: seq<Frame>,        // those that found room in the queue
    released: seq<nat>,          // frames whose Done was called
    log: seq<Delivery>)

  datatype Action =
    | ChangeMembers(members: map<PeerId, Member>)     // any join, leave, mute or subscription
    | Submit(source: PeerId)
    | Take
    | BeginScan
    | Look(peer: PeerId)
    | EndScan
    | Send(receiver: PeerId)
    | Finish
    | Close
    | BeginDrain
    | DrainOne
    | Stop

  const INITIAL := State(map[], [], Nothing, Running, false, 0, [], [], [])

  predicate Enabled(s: State, a: Action) {
    match a
    case ChangeMembers(members) => s.hand.Scanning? ==> members.Keys == s.members.Keys
    case Submit(_) => true
    case Take => s.mode.Running? && s.hand.Nothing? && s.queue != []
    case BeginScan => s.hand.Holding?
    case Look(q) => s.hand.Scanning? && q in s.hand.unread && q in s.members
    case EndScan => s.hand.Scanning? && s.hand.unread == {}
    case Send(q) => s.hand.Sending? && q in s.hand.todo
    case Finish => s.hand.Sending? && s.hand.todo == {}
    case Close => true
    case BeginDrain => s.mode.Running? && s.hand.Nothing? && s.closed
    case DrainOne => s.mode.Draining? && s.queue != []
    case Stop => s.mode.Draining? && s.queue == []
  }

  function Next(s: State, a: Action): State
    requires Enabled(s, a)
  {
    match a
    case ChangeMembers(members) => s.(members := members)
    case Submit(source) =>
      var f := Frame(s.submitted, source);
      if |s.queue| < AUDIO_CH_BUFFER
      then s.(submitted := s.submitted + 1, queue := s.queue + [f], accepted := s.accepted + [f])
      else s.(submitted := s.submitted + 1, released := s.released + [f.id])
    case Take => s.(queue := s.queue[1..], hand := Holding(s.queue[0]))
    case BeginScan =>
      var f := s.hand.frame;
      if f.source !in s.members || s.members[f.source].muted then Release(s)
      else s.(hand := Scanning(f, s.members.Keys, map[]))
    case Look(q) =>
      s.(hand := s.hand.(unread := s.hand.unread - {q}, seen := s.hand.seen[q := s.members[q]]))
    case EndScan => s.(hand := Sending(s.hand.frame, Hearing(s.hand.seen, s.hand.frame.source), s.hand.seen))
    case Send(q) =>
      s.(hand := s.hand.(todo := s.hand.todo - {q}), log := s.log + [Delivery(s.hand.frame, q, s.hand.seen)])
    case Finish => Release(s)
    case Close => s.(closed := true)
    case BeginDrain => s.(mode := Draining)
    case DrainOne => s.(queue := s.queue[1..], released := s.released + [s.queue[0].id])
    case Stop => s.(mode := Stopped)
  }

  /** Done is called on the frame in hand. */
  function Release(s: State): State
    requires !s.hand.Nothing?
  {
    s.(hand := Nothing, released := s.released + [s.hand.frame.id])
  }

  // ---------------------------------------------------------------- order

  /** Only a running forwarder has a frame in hand, and while it scans nobody it has yet to read leaves. */
  ghost predicate HandOk(s: State) {
    && (!s.hand.Nothing? ==> s.mode.Running?)
    && (s.hand.Scanning? ==> s.hand.unread <= s.members.Keys && s.hand.seen.Keys == s.members.Keys - s.hand.unread)
  }

  lemma KeepsHandOk(s: State, a: Action)
    requires HandOk(s) && Enabled(s, a)
    ensures HandOk(Next(s, a))
  {
  }

  ghost predicate Climbs(frames: seq<Frame>) {
    forall i, j :: 0 <= i < j < |frames| ==> frames[i].id < frames[j].id
  }

  /** Accepted frames carry ever larger numbers of Forward calls; the queue is a bounded stretch of them, and
      the frame in hand comes before it. */
  ghost predicate QueueOk(s: State) {
    && |s.queue| <= AUDIO_CH_BUFFER
    && Climbs(s.accepted) && Climbs(s.queue)
    && (forall f :: f in s.accepted ==> f.id < s.submitted)
    && (forall f :: f in s.queue ==> f in s.accepted)
    && (!s.hand.Nothing? ==> s.hand.frame in s.accepted && forall f :: f in s.queue ==> s.hand.frame.id < f.id)
  }

  lemma KeepsQueueOk(s: State, a: Action)
    requires HandOk(s) && QueueOk(s) && Enabled(s, a)
    ensures QueueOk(Next(s, a))
  {
    if a.Submit? {
      SubmitKeepsQueueOk(s, a.source);
    } else if a.Take? || a.DrainOne? {
      assert forall f :: f in s.queue[1..] ==> f in s.queue && s.queue[0].id < f.id;
    }
  }

  lemma SubmitKeepsQueueOk(s: State, source: PeerId)
    requires QueueOk(s)
    ensures QueueOk(Next(s, Submit(source)))
  {
    var f := Frame(s.submitted, source);
    ClimbsAppend(s.accepted, f);
    if |s.queue| < AUDIO_CH_BUFFER {
      ClimbsAppend(s.queue, f);
    }
  }

  lemma ClimbsAppend(frames: seq<Frame>, f: Frame)
    requires Climbs(frames) && forall g :: g in frames ==> g.id < f.id
    ensures Climbs(frames + [f])
    ensures forall g :: g in frames + [f] <==> g in frames || g == f
  {
    assert forall i :: 0 <= i < |frames| ==> frames[i] in frames;
  }

  // ---------------------------------------------------------------- every frame is in one place

  /** Released, queued and in hand are apart, nothing is released twice, and together they are as many as were
      submitted. */
  ghost predicate Conserved(s: State) {
    && Distinct(s.released)
    && (forall id :: id in s.released ==> id < s.submitted)
    && (forall f :: f in s.queue ==> f.id !in s.released)
    && (!s.hand.Nothing? ==> s.hand.frame.id !in s.released)
    && s.submitted == |s.released| + |s.queue| + (if s.hand.Nothing? then 0 else 1)
  }

  lemma DistinctAppend(x: seq<nat>, e: nat)
    requires Distinct(x) && e !in x
    ensures Distinct(x + [e])
    ensures forall d :: d in x + [e] <==> d in x || d == e
  {
    assert forall i :: 0 <= i < |x| ==> x[i] in x;
  }

  lemma SubmitConserved(s: State, source: PeerId)
    requires QueueOk(s) && Conserved(s)
    ensures Conserved(Next(s, Submit(source)))
  {
    var f := Frame(s.submitted, source);
    assert forall g :: g in s.queue + [f] <==> g in s.queue || g == f;
    DistinctAppend(s.released, s.submitted);
  }

  lemma DrainOneConserved(s: State)
    requires HandOk(s) && QueueOk(s) && Conserved(s) && Enabled(s, DrainOne)
    ensures Conserved(Next(s, DrainOne))
  {
    assert s.queue[0] in s.queue;
    DistinctAppend(s.released, s.queue[0].id);
    assert forall f :: f in s.queue[1..] ==> f in s.queue && s.queue[0].id < f.id;
  }

  lemma TakeConserved(s: State)
    requires QueueOk(s) && Conserved(s) && Enabled(s, Take)
    ensures Conserved(Next(s, Take))
  {
    assert s.queue[0] in s.queue;
    assert forall f :: f in s.queue[1..] ==> f in s.queue;
  }

  lemma ReleaseConserved(s: State)
    requires QueueOk(s) && Conserved(s) && !s.hand.Nothing?
    ensures Conserved(Release(s))
  {
    DistinctAppend(s.released, s.hand.frame.id);
  }

  lemma KeepsConserved(s: State, a: Action)
    requires HandOk(s) && QueueOk(s) && Conserved(s) && Enabled(s, a)
    ensures Conserved(Next(s, a))
  {
    match a
    case Submit(source) => SubmitConserved(s, source);
    case Take => TakeConserved(s);
    case DrainOne => DrainOneConserved(s);
    case Finish => ReleaseConserved(s);
    case BeginScan => ReleaseConserved(s);
    case _ =>
  }

  /** Receiver q may still be served the frame in hand. */
  predicate Awaits(h: Hand, q: PeerId) {
    h.Holding? || h.Scanning? || (h.Sending? && q in h.todo)
  }

  ghost predicate LogClimbs(log: seq<Delivery>) {
    forall i, j :: 0 <= i < j < |log| && log[i].receiver == log[j].receiver ==> log[i].frame.id < log[j].frame.id
  }

  /** What was delivered comes before everything queued, and before the frame in hand for those who still
      await it. */
  ghost predicate LogOk(s: State) {
    && LogClimbs(s.log)
    && (forall d :: d in s.log ==> d.frame in s.accepted)
    && (forall d, f :: d in s.log && f in s.queue ==> d.frame.id < f.id)
    && (!s.hand.Nothing? ==> forall d :: d in s.log ==>
          d.frame.id <= s.hand.frame.id && (Awaits(s.hand, d.receiver) ==> d.frame.id < s.hand.frame.id))
  }

  lemma SendKeepsLogOk(s: State, q: PeerId)
    requires QueueOk(s) && LogOk(s) && Enabled(s, Send(q))
    ensures LogOk(Next(s, Send(q)))
  {
    var d := Delivery(s.hand.frame, q, s.hand.seen);
    LogClimbsAppend(s.log, d);
    InAppend(s.log, d);
  }

  lemma InAppend(log: seq<Delivery>, d: Delivery)
    ensures forall e :: e in log + [d] <==> e in log || e == d
  {
  }

  lemma LogClimbsAppend(log: seq<Delivery>, d: Delivery)
    requires LogClimbs(log) && forall e :: e in log && e.receiver == d.receiver ==> e.frame.id < d.frame.id
    ensures LogClimbs(log + [d])
  {
    assert forall i :: 0 <= i < |log| ==> log[i] in log;
  }

  lemma SubmitKeepsLogOk(s: State, source: PeerId)
    requires QueueOk(s) && LogOk(s)
    ensures LogOk(Next(s, Submit(source)))
  {
    var f := Frame(s.submitted, source);
    assert forall g :: g in s.queue + [f] <==> g in s.queue || g == f;
    assert forall g :: g in s.accepted ==> g in s.accepted + [f];
  }

  lemma KeepsLogOk(s: State, a: Action)
    requires QueueOk(s) && LogOk(s) && Enabled(s, a)
    ensures LogOk(Next(s, a))
  {
    if a.Send? {
      SendKeepsLogOk(s, a.receiver);
    } else if a.Submit? {
      SubmitKeepsLogOk(s, a.source);
    } else if a.Take? || a.DrainOne? {
      assert forall f :: f in s.queue[1..] ==> f in s.queue;
      assert s.queue[0] in s.queue;
    }
  }

  // ---------------------------------------------------------------- what one receiver was handed

  function DeliveredTo(log: seq<Delivery>, q: PeerId): seq<Frame> {
    if log == [] then []
    else
      var n := |log| - 1;
      DeliveredTo(log[..n], q) + (if log[n].receiver == q then [log[n].frame] else [])
  }

  lemma {:induction false} DeliveredClimbs(log: seq<Delivery>, q: PeerId)
    requires LogClimbs(log)
    ensures Climbs(DeliveredTo(log, q))
    ensures forall f :: f in DeliveredTo(log, q) ==>
              exists i :: 0 <= i < |log| && log[i].receiver == q && log[i].frame == f
  {
    if log != [] {
      var n := |log| - 1;
      DeliveredClimbs(log[..n], q);
      var before := DeliveredTo(log[..n], q);
      forall f | f in DeliveredTo(log, q)
        ensures exists i :: 0 <= i < |log| && log[i].receiver == q && log[i].frame == f
      {
        if f in before {
          var i :| 0 <= i < n && log[..n][i].receiver == q && log[..n][i].frame == f;
          assert log[i].receiver == q && log[i].frame == f;
        } else {
          assert log[n].receiver == q && log[n].frame == f;
        }
      }
      forall f | f in before && log[n].receiver == q ensures f.id < log[n].frame.id {
        var i :| 0 <= i < n && log[..n][i].receiver == q && log[..n][i].frame == f;
        assert log[i].receiver == log[n].receiver;
      }
      assert forall i :: 0 <= i < |before| ==> before[i] in before;
    }
  }

  /** Climbing frames out of climbing frames are an in-order subsequence of them. */
  lemma ClimbingSubsequence(x: seq<Frame>, y: seq<Frame>)
    requires Climbs(x) && Climbs(y) && forall f :: f in x ==> f in y
    ensures Subsequence(x, y)
  {
    assert forall i :: 0 <= i < |x| ==> x[i] in x;
    var at: seq<nat> := seq(|x|, i requires 0 <= i < |x| => IndexOf(x[i], y));
    forall i, j | 0 <= i < j < |x| ensures at[i] < at[j] {
      assert y[at[i]] == x[i] && y[at[j]] == x[j];
    }
    assert Embeds(at, x, y);
  }

  ghost function IndexOf(f: Frame, y: seq<Frame>): (k: nat)
    requires f in y
    ensures k < |y| && y[k] == f
  {
    var k: nat :| k < |y| && y[k] == f;
    k
  }

  // ---------------------------------------------------------------- who is served

  ghost predicate DeliveryOk(d: Delivery) {
    d.receiver in d.seen && d.receiver != d.frame.source && Hears(d.seen[d.receiver], d.frame.source)
  }

  ghost predicate DeliveriesOk(s: State) {
    && (forall d :: d in s.log ==> DeliveryOk(d))
    && (s.hand.Sending? ==> forall q :: q in s.hand.todo ==> DeliveryOk(Delivery(s.hand.frame, q, s.hand.seen)))
  }

  /** While a frame is being sent, each member that was seen to hear it is still to be served or has been
      handed it. */
  ghost predicate NobodySkipped(s: State) {
    s.hand.Sending? ==>
      forall q :: q in Hearing(s.hand.seen, s.hand.frame.source) ==>
        q in s.hand.todo || Delivery(s.hand.frame, q, s.hand.seen) in s.log
  }

  lemma KeepsDeliveriesOk(s: State, a: Action)
    requires DeliveriesOk(s) && Enabled(s, a)
    ensures DeliveriesOk(Next(s, a))
  {
  }

  lemma KeepsNobodySkipped(s: State, a: Action)
    requires NobodySkipped(s) && Enabled(s, a)
    ensures NobodySkipped(Next(s, a))
  {
    if a.Send? {
      var log := Next(s, a).log;
      assert log[|s.log|] == Delivery(s.hand.frame, a.receiver, s.hand.seen);
      assert forall d :: d in s.log ==> d in log;
    }
  }

  ghost predicate Inv(s: State) {
    HandOk(s) && QueueOk(s) && LogOk(s) && Conserved(s) && DeliveriesOk(s) && NobodySkipped(s)
  }

  lemma KeepsInv(s: State, a: Action)
    requires Inv(s) && Enabled(s, a)
    ensures Inv(Next(s, a))
  {
    KeepsHandOk(s, a);
    KeepsQueueOk(s, a);
    KeepsLogOk(s, a);
    KeepsConserved(s, a);
    KeepsDeliveriesOk(s, a);
    KeepsNobodySkipped(s, a);
  }

  // ---------------------------------------------------------------- whole runs

  ghost function Exec(acts: seq<Action>): Option<State> {
    if acts == [] then Some(INITIAL)
    else
      var n := |acts| - 1;
      match Exec(acts[..n])
      case None => None
      case Some(s) => if Enabled(s, acts[n]) then Some(Next(s, acts[n])) else None
  }

  lemma {:induction false} RunsKeepInv(acts: seq<Action>)
    requires Exec(acts).Some?
    ensures Inv(Exec(acts).value)
  {
    if acts != [] {
      var n := |acts| - 1;
      RunsKeepInv(acts[..n]);
      KeepsInv(Exec(acts[..n]).value, acts[n]);
    }
  }

  /** Over any run: what a receiver has been handed is an in-order subsequence of the accepted frames. */
  lemma {:induction false} DeliveredInOrder(acts: seq<Action>, q: PeerId)
    requires Exec(acts).Some?
    ensures Subsequence(DeliveredTo(Exec(acts).value.log, q), Exec(acts).value.accepted)
  {
    RunsKeepInv(acts);
    OrderFromLog(Exec(acts).value, q);
  }

  lemma OrderFromLog(s: State, q: PeerId)
    requires QueueOk(s) && LogOk(s)
    ensures Subsequence(DeliveredTo(s.log, q), s.accepted)
    ensures Climbs(DeliveredTo(s.log, q))
  {
    DeliveredClimbs(s.log, q);
    assert forall i :: 0 <= i < |s.log| ==> s.log[i] in s.log;
    ClimbingSubsequence(DeliveredTo(s.log, q), s.accepted);
  }

  /** No receiver is handed the same frame twice. */
  lemma {:induction false} NobodyIsServedTwice(acts: seq<Action>, q: PeerId)
    requires Exec(acts).Some?
    ensures Distinct(DeliveredTo(Exec(acts).value.log, q))
  {
    RunsKeepInv(acts);
    OrderFromLog(Exec(acts).value, q);
  }

  /** Done is called at most once for a frame, and the frames submitted but not yet released are those
      queued plus the one in hand. */
  lemma {:induction false} ReleasedOnce(acts: seq<Action>)
    requires Exec(acts).Some?
    ensures var s := Exec(acts).value;
            && Distinct(s.released)
            && s.submitted == |s.released| + |s.queue| + (if s.hand.Nothing? then 0 else 1)
            && (forall f :: f in s.queue ==> f.id !in s.released)
  {
    RunsKeepInv(acts);
  }

  /** When the forwarder is done with a frame that it sent, every other member it saw subscribed to the
      source has been handed it. */
  lemma {:induction false} EveryoneIsServed(acts: seq<Action>, q: PeerId)
    requires Exec(acts).Some? && Enabled(Exec(acts).value, Finish)
    ensures var s := Exec(acts).value; var (f, seen) := (s.hand.frame, s.hand.seen);
            q in seen && q != f.source && Hears(seen[q], f.source) ==> Delivery(f, q, seen) in s.log
  {
    RunsKeepInv(acts);
    assert q in Hearing(Exec(acts).value.hand.seen, Exec(acts).value.hand.frame.source) <==>
           q in Exec(acts).value.hand.seen && q != Exec(acts).value.hand.frame.source
           && Hears(Exec(acts).value.hand.seen[q], Exec(acts).value.hand.frame.source);
  }

  // ---------------------------------------------------------------- what was seen was so

  /** At step b the forwarder began to scan frame f's room: its source was there, unmuted, among `all`. */
  ghost predicate BeganAt(acts: seq<Action>, b: nat, f: Frame, all: set<PeerId>) {
    && b < |acts| && acts[b] == BeginScan && Exec(acts[..b]).Some?
    && var s := Exec(acts[..b]).value;
       s.hand == Holding(f) && f.source in s.members && !s.members[f.source].muted && s.members.Keys == all
  }

  /** At step k of frame f's scan the forwarder looked at member q and this was its profile. */
  ghost predicate LookedAt(acts: seq<Action>, k: nat, f: Frame, q: PeerId, profile: Member) {
    && k < |acts| && acts[k] == Look(q) && Exec(acts[..k]).Some?
    && var s := Exec(acts[..k]).value;
       s.hand.Scanning? && s.hand.frame == f && q in s.members && s.members[q] == profile
  }

  /** `seen` was read off the room by frame f's scan, member by member, out of the members `all`. */
  ghost predicate Assembled(acts: seq<Action>, f: Frame, all: set<PeerId>, seen: map<PeerId, Member>) {
    && (exists b: nat :: BeganAt(acts, b, f, all))
    && (forall q :: q in seen ==> exists k: nat :: LookedAt(acts, k, f, q, seen[q]))
  }

  lemma AssembledExtends(acts: seq<Action>, f: Frame, all: set<PeerId>, seen: map<PeerId, Member>)
    requires acts != [] && Assembled(acts[..|acts| - 1], f, all, seen)
    ensures Assembled(acts, f, all, seen)
  {
    var before := acts[..|acts| - 1];
    var b: nat :| BeganAt(before, b, f, all);
    assert before[..b] == acts[..b];
    assert BeganAt(acts, b, f, all);
    forall q | q in seen ensures exists k: nat :: LookedAt(acts, k, f, q, seen[q]) {
      var k: nat :| LookedAt(before, k, f, q, seen[q]);
      assert before[..k] == acts[..k];
      assert LookedAt(acts, k, f, q, seen[q]);
    }
  }

  /** What the hand has seen was read off the room. */
  ghost predicate HandAssembled(acts: seq<Action>, h: Hand) {
    && (h.Scanning? ==> Assembled(acts, h.frame, h.unread + h.seen.Keys, h.seen))
    && (h.Sending? ==> Assembled(acts, h.frame, h.seen.Keys, h.seen))
  }

  lemma LookAssembles(acts: seq<Action>)
    requires Exec(acts).Some? && acts != [] && acts[|acts| - 1].Look?
    requires HandAssembled(acts[..|acts| - 1], Exec(acts[..|acts| - 1]).value.hand)
    ensures HandAssembled(acts, Exec(acts).value.hand)
  {
    var n := |acts| - 1;
    var s, q := Exec(acts[..n]).value, acts[n].peer;
    var h, h' := s.hand, Exec(acts).value.hand;
    AssembledExtends(acts, h.frame, h.unread + h.seen.Keys, h.seen);
    assert LookedAt(acts, n, h.frame, q, s.members[q]);
    assert h'.unread + h'.seen.Keys == h.unread + h.seen.Keys;
  }

  lemma BeginAssembles(acts: seq<Action>)
    requires Exec(acts).Some? && acts != [] && acts[|acts| - 1].BeginScan?
    ensures HandAssembled(acts, Exec(acts).value.hand)
  {
    var n := |acts| - 1;
    var s := Exec(acts[..n]).value;
    var h := Exec(acts).value.hand;
    if h.Scanning? {
      assert BeganAt(acts, n, h.frame, s.members.Keys);
      assert h.unread + h.seen.Keys == s.members.Keys;
    }
  }

  lemma {:induction false} HandIsAssembled(acts: seq<Action>)
    requires Exec(acts).Some?
    ensures HandAssembled(acts, Exec(acts).value.hand)
  {
    if acts != [] {
      var n := |acts| - 1;
      HandIsAssembled(acts[..n]);
      if acts[n].Look? {
        LookAssembles(acts);
      } else if acts[n].BeginScan? {
        BeginAssembles(acts);
      } else if acts[n].EndScan? {
        EndAssembles(acts);
      } else {
        SeenStays(Exec(acts[..n]).value, acts[n]);
        SameSeenAssembled(acts, Exec(acts[..n]).value.hand, Exec(acts).value.hand);
      }
    }
  }

  lemma EndAssembles(acts: seq<Action>)
    requires Exec(acts).Some? && acts != [] && acts[|acts| - 1].EndScan?
    requires HandAssembled(acts[..|acts| - 1], Exec(acts[..|acts| - 1]).value.hand)
    ensures HandAssembled(acts, Exec(acts).value.hand)
  {
    var h := Exec(acts[..|acts| - 1]).value.hand;
    assert h.unread + h.seen.Keys == h.seen.Keys;
    AssembledExtends(acts, h.frame, h.seen.Keys, h.seen);
  }

  /** The other steps leave what was seen alone, or let go of the frame. */
  ghost predicate SameSeen(h: Hand, h': Hand) {
    && (h'.Scanning? ==> h' == h)
    && (h'.Sending? ==> h.Sending? && h'.frame == h.frame && h'.seen == h.seen)
  }

  lemma SeenStays(s: State, a: Action)
    requires Enabled(s, a) && !a.Look? && !a.BeginScan? && !a.EndScan?
    ensures SameSeen(s.hand, Next(s, a).hand)
  {
  }

  lemma SameSeenAssembled(acts: seq<Action>, h: Hand, h': Hand)
    requires acts != [] && HandAssembled(acts[..|acts| - 1], h) && SameSeen(h, h')
    ensures HandAssembled(acts, h')
  {
    if h'.Scanning? {
      AssembledExtends(acts, h.frame, h.unread + h.seen.Keys, h.seen);
    } else if h'.Sending? {
      AssembledExtends(acts, h.frame, h.seen.Keys, h.seen);
    }
  }

  /** Every frame handed to a receiver went through a scan that began while its source was in the room and
      unmuted, with the receiver, another member, in the room; and the receiver was subscribed to the
      source at the moment the scan looked at it. */
  lemma {:induction false} DeliveriesMatchTheRoom(acts: seq<Action>, i: nat)
    requires Exec(acts).Some? && i < |Exec(acts).value.log|
    ensures var d := Exec(acts).value.log[i];
            && Assembled(acts, d.frame, d.seen.Keys, d.seen)
            && d.receiver in d.seen && d.receiver != d.frame.source && Hears(d.seen[d.receiver], d.frame.source)
  {
    RunsKeepInv(acts);
    assert DeliveryOk(Exec(acts).value.log[i]);
    LogIsAssembled(acts, i);
  }

  lemma {:induction false} LogIsAssembled(acts: seq<Action>, i: nat)
    requires Exec(acts).Some? && i < |Exec(acts).value.log|
    ensures var d := Exec(acts).value.log[i]; Assembled(acts, d.frame, d.seen.Keys, d.seen)
  {
    var before := acts[..|acts| - 1];
    var d := LogStep(acts, i);
    if i < |Exec(before).value.log| {
      LogIsAssembled(before, i);
    } else {
      HandIsAssembled(before);
    }
    AssembledExtends(acts, d.frame, d.seen.Keys, d.seen);
  }

  /** A log entry was there before the last step, or the last step sent it from the hand. */
  lemma LogStep(acts: seq<Action>, i: nat) returns (d: Delivery)
    requires Exec(acts).Some? && i < |Exec(acts).value.log|
    ensures d == Exec(acts).value.log[i]
    ensures acts != [] && Exec(acts[..|acts| - 1]).Some?
    ensures var s := Exec(acts[..|acts| - 1]).value;
            if i < |s.log| then d == s.log[i]
            else s.hand.Sending? && d.frame == s.hand.frame && d.seen == s.hand.seen
  {
    d := Exec(acts).value.log[i];
    LogGrows(Exec(acts[..|acts| - 1]).value, acts[|acts| - 1]);
  }

  lemma LogGrows(s: State, a: Action)
    requires Enabled(s, a)
    ensures Next(s, a).log == if a.Send? then s.log + [Delivery(s.hand.frame, a.receiver, s.hand.seen)] else s.log
    ensures a.Send? ==> s.hand.Sending?
  {
  }

  // ---------------------------------------------------------------- frames are released in the end

  /** The forwarder's own steps. */
  predicate Forwards(a: Action) {
    a.Take? || a.BeginScan? || a.Look? || a.EndScan? || a.Send? || a.Finish? || a.DrainOne?
  }

  /** Frames waiting, how far the one in hand has come, and members left to look at or to serve. */
  function Load(s: State): (nat, nat, nat) {
    (|s.queue|,
     match s.hand case Nothing => 0 case Holding(_) => 3 case Scanning(_, _, _) => 2 case Sending(_, _, _) => 1,
     match s.hand case Scanning(_, unread, _) => |unread| case Sending(_, todo, _) => |todo| case _ => 0)
  }

  predicate Less(a: (nat, nat, nat), b: (nat, nat, nat)) {
    a.0 < b.0 || (a.0 == b.0 && (a.1 < b.1 || (a.1 == b.1 && a.2 < b.2)))
  }

  /** Every step of the forwarder lowers the load; nothing but a new frame raises it. */
  lemma LoadFalls(s: State, a: Action)
    requires Enabled(s, a)
    ensures Forwards(a) ==> Less(Load(Next(s, a)), Load(s))
    ensures !Forwards(a) && !a.Submit? ==> Load(Next(s, a)) == Load(s)
  {
  }

  /** Until it has stopped, the forwarder has something to do whenever a frame is queued or in hand. */
  lemma ForwarderIsNotStuck(s: State) returns (a: Action)
    requires HandOk(s) && !s.mode.Stopped? && (s.queue != [] || !s.hand.Nothing?)
    ensures Forwards(a) && Enabled(s, a)
  {
    match s.hand
    case Nothing => a := if s.mode.Running? then Take else DrainOne;
    case Holding(_) => a := BeginScan;
    case Scanning(_, unread, _) =>
      if q :| q in unread {
        a := Look(q);
      } else {
        a := EndScan;
      }
    case Sending(_, todo, _) =>
      if q :| q in todo {
        a := Send(q);
      } else {
        a := Finish;
      }
  }

  lemma OneMore(acts: seq<Action>, a: Action)
    requires Exec(acts).Some? && Enabled(Exec(acts).value, a)
    ensures Exec(acts + [a]) == Some(Next(Exec(acts).value, a))
  {
    assert (acts + [a])[..|acts|] == acts;
  }

  /** Done was called on every frame submitted so far, once. */
  ghost predicate AllReleased(s: State) {
    Distinct(s.released) && forall id: nat :: id < s.submitted <==> id in s.released
  }

  /** n different numbers below n are all the numbers below n. */
  lemma {:induction false} Pigeonhole(x: set<nat>, n: nat)
    requires |x| == n && forall i :: i in x ==> i < n
    ensures forall i: nat :: i < n ==> i in x
  {
    if n > 0 {
      if n - 1 in x {
        Pigeonhole(x - {n - 1}, n - 1);
      } else {
        assert forall i :: i in x ==> i < n - 1;
        FewBelow(x, n - 1);
      }
    }
  }

  lemma {:induction false} FewBelow(x: set<nat>, n: nat)
    requires forall i :: i in x ==> i < n
    ensures |x| <= n
  {
    if n > 0 {
      FewBelow(x - {n - 1}, n - 1);
      assert x == x - {n - 1} || x == x - {n - 1} + {n - 1};
    } else {
      assert x == {};
    }
  }

  lemma {:induction false} DistinctSize(x: seq<nat>)
    requires Distinct(x)
    ensures |Elements(x)| == |x|
  {
    if x != [] {
      var n := |x| - 1;
      DistinctSize(x[..n]);
      assert Elements(x) == Elements(x[..n]) + {x[n]};
      assert x[n] !in Elements(x[..n]);
    }
  }

  function Elements(x: seq<nat>): set<nat> {
    set i | i in x
  }

  lemma NothingLeft(s: State)
    requires Conserved(s) && s.queue == [] && s.hand.Nothing?
    ensures AllReleased(s)
  {
    DistinctSize(s.released);
    Pigeonhole(Elements(s.released), s.submitted);
    assert forall id :: id in s.released <==> id in Elements(s.released);
  }

  /** Until it has stopped, the forwarder's own steps bring it to a state in which every frame submitted so
      far has been released. */
  lemma {:induction false} EveryFrameIsReleased(acts: seq<Action>) returns (all: seq<Action>)
    requires Exec(acts).Some? && !Exec(acts).value.mode.Stopped?
    ensures acts <= all && forall k :: |acts| <= k < |all| ==> Forwards(all[k])
    ensures Exec(all).Some? && Exec(all).value.submitted == Exec(acts).value.submitted
    ensures AllReleased(Exec(all).value)
    decreases Load(Exec(acts).value).0, Load(Exec(acts).value).1, Load(Exec(acts).value).2
  {
    var s := Exec(acts).value;
    RunsKeepInv(acts);
    if s.queue == [] && s.hand.Nothing? {
      all := acts;
      NothingLeft(s);
    } else {
      var a := ForwarderIsNotStuck(s);
      OneMore(acts, a);
      LoadFalls(s, a);
      all := EveryFrameIsReleased(acts + [a]);
      assert all[..|acts| + 1] == acts + [a];
      assert all[|acts|] == a;
      assert acts == all[..|acts|];
    }
  }

  /** It stops with nothing left to release. */
  lemma {:induction false} StopLeavesNothing(acts: seq<Action>)
    requires Exec(acts).Some? && Enabled(Exec(acts).value, Stop)
    ensures AllReleased(Exec(acts).value)
  {
    RunsKeepInv(acts);
    NothingLeft(Exec(acts).value);
  }

  /** After that, a frame that still finds room in the queue stays there: its Done is never called. */
  lemma {:induction false} NeverReleasedOnceStopped(acts: seq<Action>, more: seq<Action>, f: Frame)
    requires Exec(acts).Some? && Exec(acts).value.mode.Stopped? && f in Exec(acts).value.queue
    requires Exec(acts + more).Some?
    ensures Exec(acts + more).value.mode.Stopped? && f in Exec(acts + more).value.queue
    ensures f.id !in Exec(acts + more).value.released
    decreases |more|
  {
    ReleasedOnce(acts + more);
    if more == [] {
      assert acts + more == acts;
    } else {
      var n := |more| - 1;
      assert (acts + more)[..|acts| + n] == acts + more[..n];
      NeverReleasedOnceStopped(acts, more[..n], f);
      RunsKeepInv(acts + more[..n]);
    }
  }

  /** A run, written out, that ends with a frame in the queue of a stopped forwarder. */
  lemma StoppedWithAFrame(source: PeerId)
    ensures var acts := [Close, BeginDrain, Stop, Submit(source)];
            Exec(acts) == Some(INITIAL.(closed := true, mode := Stopped, submitted := 1,
                                        queue := [Frame(0, source)], accepted := [Frame(0, source)]))
  {
    OneMore([], Close);
    var last := StopsWhenIdle([] + [Close]);
    assert last == [BeginDrain, Stop] by {
      if last == [Stop] {
        OneMore([] + [Close], Stop);
      }
    }
    var acts := [] + [Close] + last;
    OneMore(acts, Submit(source));
    SubmitNext(Exec(acts).value, source);
    assert acts + [Submit(source)] == [Close, BeginDrain, Stop, Submit(source)];
    assert [] + [Frame(0, source)] == [Frame(0, source)];
  }

  /** Done is called on a frame in some continuation of the run. */
  ghost predicate CanBeReleased(acts: seq<Action>, id: nat) {
    exists all :: acts <= all && Exec(all).Some? && id in Exec(all).value.released
  }

  /** Exactly the frames submitted before the forwarder has stopped, and those that find the queue full, can
      ever be released. */
  lemma {:induction false} ReleasedUnlessStopped(acts: seq<Action>, source: PeerId)
    requires Exec(acts).Some?
    ensures Exec(acts + [Submit(source)]).Some?
    ensures var s := Exec(acts).value;
            CanBeReleased(acts + [Submit(source)], s.submitted)
            <==> !s.mode.Stopped? || |s.queue| == AUDIO_CH_BUFFER
  {
    var s, next := Exec(acts).value, acts + [Submit(source)];
    OneMore(acts, Submit(source));
    RunsKeepInv(acts);
    if |s.queue| == AUDIO_CH_BUFFER {
      RefusedAtOnce(next, s);
    } else if s.mode.Stopped? {
      StuckFrame(next, Frame(s.submitted, source));
    } else {
      var all := EveryFrameIsReleased(next);
      assert s.submitted < Exec(all).value.submitted;
    }
  }

  lemma RefusedAtOnce(next: seq<Action>, s: State)
    requires Exec(next).Some? && Exec(next).value.released == s.released + [s.submitted]
    ensures CanBeReleased(next, s.submitted)
  {
    assert (s.released + [s.submitted])[|s.released|] == s.submitted;
    assert next <= next;
  }

  lemma StuckFrame(next: seq<Action>, f: Frame)
    requires Exec(next).Some? && Exec(next).value.mode.Stopped? && f in Exec(next).value.queue
    ensures !CanBeReleased(next, f.id)
  {
    forall all | next <= all && Exec(all).Some? ensures f.id !in Exec(all).value.released {
      var more := all[|next|..];
      assert all == next + more;
      NeverReleasedOnceStopped(next, more, f);
    }
  }

  // ---------------------------------------------------------------- a scan that nothing disturbs

  /** In this continuation of the run only the forwarder steps. */
  ghost predicate ForwarderAlone(acts: seq<Action>, all: seq<Action>) {
    acts <= all && Exec(all).Some? && forall k :: |acts| <= k < |all| ==> Forwards(all[k])
  }

  lemma ForwarderStep(acts: seq<Action>, a: Action)
    requires Exec(acts).Some? && Enabled(Exec(acts).value, a) && Forwards(a)
    ensures ForwarderAlone(acts, acts + [a]) && Exec(acts + [a]) == Some(Next(Exec(acts).value, a))
  {
    OneMore(acts, a);
  }

  lemma AloneTwice(acts: seq<Action>, b: seq<Action>, all: seq<Action>)
    requires ForwarderAlone(acts, b) && ForwarderAlone(b, all)
    ensures ForwarderAlone(acts, all)
  {
    assert forall k :: 0 <= k < |b| ==> all[k] == b[k];
  }

  /** When no profile changes during the scan, the frame goes to the recipients. */
  lemma UndisturbedScan(acts: seq<Action>) returns (all: seq<Action>)
    requires Exec(acts).Some? && Exec(acts).value.hand.Holding?
    ensures ForwarderAlone(acts, all)
    ensures var s := Exec(acts).value; var f := s.hand.frame;
            var skip := f.source !in s.members || s.members[f.source].muted;
            Exec(all) == Some(if skip then Release(s)
                              else s.(hand := Sending(f, Recipients(s.members, f.source), s.members)))
  {
    ForwarderStep(acts, BeginScan);
    var b := acts + [BeginScan];
    all := b;
    if Exec(b).value.hand.Scanning? {
      var c := LookAtAll(b);
      ForwarderStep(c, EndScan);
      all := c + [EndScan];
      AloneTwice(acts, b, c);
      AloneTwice(acts, c, all);
    }
  }

  lemma {:induction false} LookAtAll(acts: seq<Action>) returns (all: seq<Action>)
    requires Exec(acts).Some?
    requires var s := Exec(acts).value;
             && s.hand.Scanning? && s.hand.unread <= s.members.Keys
             && s.hand.seen.Keys == s.members.Keys - s.hand.unread
             && forall q :: q in s.hand.seen ==> s.hand.seen[q] == s.members[q]
    ensures ForwarderAlone(acts, all)
    ensures var s := Exec(acts).value; Exec(all) == Some(s.(hand := Scanning(s.hand.frame, {}, s.members)))
    decreases |Exec(acts).value.hand.unread|
  {
    var s := Exec(acts).value;
    if q :| q in s.hand.unread {
      ForwarderStep(acts, Look(q));
      all := LookAtAll(acts + [Look(q)]);
      AloneTwice(acts, acts + [Look(q)], all);
    } else {
      all := acts;
      assert s.hand.seen == s.members;
      assert s.hand == Scanning(s.hand.frame, {}, s.members);
    }
  }

  // ---------------------------------------------------------------- a frame reaches its recipients

  /** Forward takes the frame in at the end of the queue exactly when there is room, and releases it at once when
      there is none. */
  lemma {:induction false} SubmitTakesFrameIn(acts: seq<Action>, source: PeerId)
    requires Exec(acts).Some?
    ensures var s := Exec(acts).value; var f := Frame(s.submitted, source);
            Exec(acts + [Submit(source)])
            == Some(if |s.queue| < AUDIO_CH_BUFFER
                    then s.(submitted := s.submitted + 1, queue := s.queue + [f], accepted := s.accepted + [f])
                    else s.(submitted := s.submitted + 1, released := s.released + [f.id]))
  {
    OneMore(acts, Submit(source));
    SubmitNext(Exec(acts).value, source);
  }

  lemma SubmitNext(s: State, source: PeerId)
    ensures var f := Frame(s.submitted, source);
            Next(s, Submit(source))
            == if |s.queue| < AUDIO_CH_BUFFER
               then s.(submitted := s.submitted + 1, queue := s.queue + [f], accepted := s.accepted + [f])
               else s.(submitted := s.submitted + 1, released := s.released + [f.id])
  {
  }

  /** The forwarder's steps leave the members alone, keep it running, and keep the rest of the queue. */
  lemma ForwardingKeeps(s: State, a: Action)
    requires Enabled(s, a) && Forwards(a) && s.mode.Running?
    ensures var s' := Next(s, a);
            && s'.members == s.members && s'.mode == s.mode
            && s'.queue == (if a.Take? then s.queue[1..] else s.queue)
            && (a.Take? ==> s'.hand == Holding(s.queue[0]))
            && forall d :: d in s.log ==> d in s'.log
  {
  }

  /** The running forwarder comes to every queued frame by its own steps. */
  lemma {:induction false} ComesToFrame(acts: seq<Action>, f: Frame) returns (all: seq<Action>)
    requires Exec(acts).Some? && Exec(acts).value.mode.Running? && f in Exec(acts).value.queue
    ensures ForwarderAlone(acts, all)
    ensures var s, s' := Exec(acts).value, Exec(all).value;
            s'.hand == Holding(f) && s'.members == s.members && s'.mode.Running?
    decreases Load(Exec(acts).value).0, Load(Exec(acts).value).1, Load(Exec(acts).value).2
  {
    var s := Exec(acts).value;
    RunsKeepInv(acts);
    var a := ForwarderIsNotStuck(s);
    ForwarderStep(acts, a);
    ForwardingKeeps(s, a);
    LoadFalls(s, a);
    if a.Take? && s.queue[0] == f {
      all := acts + [a];
    } else {
      assert f in Next(s, a).queue;
      all := ComesToFrame(acts + [a], f);
      AloneTwice(acts, acts + [a], all);
    }
  }

  /** It hands the frame to everybody it is still to be sent to. */
  lemma {:induction false} SendsToAll(acts: seq<Action>) returns (all: seq<Action>)
    requires Exec(acts).Some? && Exec(acts).value.hand.Sending?
    ensures ForwarderAlone(acts, all)
    ensures var s, s' := Exec(acts).value, Exec(all).value;
            s'.hand == Sending(s.hand.frame, {}, s.hand.seen) && s'.members == s.members
    decreases |Exec(acts).value.hand.todo|
  {
    var s := Exec(acts).value;
    if q :| q in s.hand.todo {
      ForwarderStep(acts, Send(q));
      all := SendsToAll(acts + [Send(q)]);
      AloneTwice(acts, acts + [Send(q)], all);
    } else {
      all := acts;
      assert s.hand == Sending(s.hand.frame, {}, s.hand.seen);
    }
  }

  /** From every reachable state with the forwarder running and room in the queue: a frame submitted by an unmuted
      member is handed, by the forwarder's own steps and with nobody joining, leaving or changing meanwhile, to
      every other member that is subscribed to it. */
  lemma {:induction false} FrameReachesItsRecipients(acts: seq<Action>, source: PeerId) returns (all: seq<Action>)
    requires Exec(acts).Some? && Exec(acts).value.mode.Running? && |Exec(acts).value.queue| < AUDIO_CH_BUFFER
    requires source in Exec(acts).value.members && !Exec(acts).value.members[source].muted
    ensures ForwarderAlone(acts + [Submit(source)], all)
    ensures var m := Exec(acts).value.members; var f := Frame(Exec(acts).value.submitted, source);
            forall q :: q in m && q != source && (m[q].subscribed.None? || source in m[q].subscribed.value) ==>
              f in DeliveredTo(Exec(all).value.log, q)
  {
    var s, start := Exec(acts).value, acts + [Submit(source)];
    var f := Frame(s.submitted, source);
    SubmitTakesFrameIn(acts, source);
    assert f in s.queue + [f];
    var held := ComesToFrame(start, f);
    var sending := UndisturbedScan(held);
    all := SendsToAll(sending);
    AloneTwice(start, held, sending);
    AloneTwice(start, sending, all);
    RunsKeepInv(all);
    forall q | q in s.members && q != source && Hears(s.members[q], source)
      ensures f in DeliveredTo(Exec(all).value.log, q)
    {
      assert q in Hearing(s.members, source);
      LoggedIsDelivered(Exec(all).value.log, Delivery(f, q, s.members));
    }
  }

  /** Whoever joins, leaves, mutes or subscribes while no scan is on, the next frame submitted goes by what they
      have made of the room. */
  lemma {:induction false} ServesWhoeverIsThere(acts: seq<Action>, m: map<PeerId, Member>, source: PeerId)
    returns (all: seq<Action>)
    requires Exec(acts).Some? && Exec(acts).value.mode.Running? && !Exec(acts).value.hand.Scanning?
    requires |Exec(acts).value.queue| < AUDIO_CH_BUFFER
    requires source in m && !m[source].muted
    ensures ForwarderAlone(acts + [ChangeMembers(m)] + [Submit(source)], all)
    ensures var f := Frame(Exec(acts).value.submitted, source);
            forall q :: q in m && q != source && (m[q].subscribed.None? || source in m[q].subscribed.value) ==>
              f in DeliveredTo(Exec(all).value.log, q)
  {
    OneMore(acts, ChangeMembers(m));
    all := FrameReachesItsRecipients(acts + [ChangeMembers(m)], source);
  }

  lemma {:induction false} LoggedIsDelivered(log: seq<Delivery>, d: Delivery)
    requires d in log
    ensures d.frame in DeliveredTo(log, d.receiver)
  {
    var n := |log| - 1;
    if d == log[n] {
      assert DeliveredTo(log, d.receiver) == DeliveredTo(log[..n], d.receiver) + [d.frame];
    } else {
      assert d in log[..n];
      LoggedIsDelivered(log[..n], d);
    }
  }

  // ---------------------------------------------------------------- closing down

  /** From every reachable state: once the room is closed, the forwarder stops by its own steps, with every frame
      submitted so far released. */
  lemma ClosesDown(acts: seq<Action>) returns (all: seq<Action>)
    requires Exec(acts).Some? && !Exec(acts).value.mode.Stopped?
    ensures acts + [Close] <= all && Exec(all).Some? && Exec(all).value.mode.Stopped?
    ensures forall k :: |acts| < k < |all| ==> Forwards(all[k]) || all[k].BeginDrain? || all[k].Stop?
    ensures Exec(all).value.submitted == Exec(acts).value.submitted && AllReleased(Exec(all).value)
  {
    OneMore(acts, Close);
    var b := EveryFrameIsReleased(acts + [Close]);
    RunsKeepInv(b);
    IdleWhenAllReleased(Exec(b).value);
    ForwardingStaysOpen(acts + [Close], b);
    var last := StopsWhenIdle(b);
    all := b + last;
    EndsWith(acts + [Close], b, last);
  }

  lemma EndsWith(acts: seq<Action>, b: seq<Action>, last: seq<Action>)
    requires acts <= b && forall k :: |acts| <= k < |b| ==> Forwards(b[k])
    requires last == [Stop] || last == [BeginDrain, Stop]
    ensures acts <= b + last
    ensures forall k :: |acts| <= k < |b + last| ==>
              Forwards((b + last)[k]) || (b + last)[k].BeginDrain? || (b + last)[k].Stop?
  {
  }

  lemma StopsWhenIdle(acts: seq<Action>) returns (last: seq<Action>)
    requires Exec(acts).Some? && Exec(acts).value.closed && !Exec(acts).value.mode.Stopped?
    requires Exec(acts).value.queue == [] && Exec(acts).value.hand.Nothing?
    ensures Exec(acts + last) == Some(Exec(acts).value.(mode := Stopped))
    ensures last == [Stop] || last == [BeginDrain, Stop]
  {
    if Exec(acts).value.mode.Running? {
      OneMore(acts, BeginDrain);
      OneMore(acts + [BeginDrain], Stop);
      last := [BeginDrain, Stop];
      assert acts + last == acts + [BeginDrain] + [Stop];
    } else {
      OneMore(acts, Stop);
      last := [Stop];
    }
  }

  lemma IdleWhenAllReleased(s: State)
    requires Conserved(s) && AllReleased(s)
    ensures s.queue == [] && s.hand.Nothing?
  {
    DistinctSize(s.released);
    FewBelow(Elements(s.released), s.submitted);
    assert forall id :: id in Elements(s.released) <==> id in s.released;
    AllBelow(Elements(s.released), s.submitted);
  }

  lemma {:induction false} AllBelow(x: set<nat>, n: nat)
    requires forall i: nat :: i < n ==> i in x
    ensures |x| >= n
  {
    if n > 0 {
      AllBelow(x - {n - 1}, n - 1);
      assert |x - {n - 1}| == |x| - 1;
    }
  }

  /** The forwarder neither opens a closed room nor stops. */
  lemma {:induction false} ForwardingStaysOpen(acts: seq<Action>, all: seq<Action>)
    requires Exec(acts).Some? && Exec(acts).value.closed && !Exec(acts).value.mode.Stopped?
    requires acts <= all && Exec(all).Some? && forall k :: |acts| <= k < |all| ==> Forwards(all[k])
    ensures Exec(all).value.closed && !Exec(all).value.mode.Stopped?
    decreases |all|
  {
    if |all| > |acts| {
      var n := |all| - 1;
      assert acts <= all[..n];
      ForwardingStaysOpen(acts, all[..n]);
    } else {
      assert all == acts;
    }
  }
}
