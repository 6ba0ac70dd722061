/** The write queue of one WebSocket connection (internal/ws/conn.go): a bounded channel with any number
    of writers and one drainer. Control frames wait for room; an audio writer that finds the queue full
    pops frames from the head, dropping audio and rotating control frames to the tail. */
module ConnQueue {
  import opened Wrappers
  import opened Sequences

  const CONN_WRITE_QUEUE_DEPTH := 1024

  type WriterId = nat

  datatype Kind = Control | Audio

  datatype Frame = Frame(kind: Kind, payload: nat)

  /** Where a writer stands between two channel operations. */
  datatype Writer =
    | ControlTry(frame: Frame)                     // writeControl, first select
    | ControlWait(frame: Frame)                    // writeControl, select with the timer
    | AudioTry(frame: Frame)                       // writeAudio, first select of an iteration
    | AudioPop(frame: Frame)                       // writeAudio, second select
    | AudioRequeue(frame: Frame, held: Frame)      // writeAudio, holding a popped control frame

  datatype Drainer = Receiving | Writing(frame: Frame) | Exited

  datatype State = State(
    queue: seq<Frame>,
    closed: bool,
    writers: map<WriterId, Writer>,
    drainer: Drainer,
    accepted: seq<Frame>,      // every frame a writer got into the queue, in that order
    written: seq<Frame>,       // what reached the socket
    dropped: seq<Frame>)       // what audio writers threw away

  datatype Action =
    | StartControl(t: WriterId, frame: Frame)
    | StartAudio(t: WriterId, frame: Frame)
    | Enqueue(t: WriterId)           // a writer's own frame finds room
    | GiveUp(t: WriterId)            // a writer sees the connection closed
    | FindFull(t: WriterId)          // the default case of a writer's first select
    | TimeOut(t: WriterId)           // writeControl's timer: closes the connection
    | PopHead(t: WriterId)
    | FindEmpty(t: WriterId)         // the default case of writeAudio's second select
    | Requeue(t: WriterId)
    | Jam(t: WriterId)               // no room for the held control frame: closes the connection
    | Receive
    | WriteDone
    | WriteFailed                    // closes the connection
    | DrainerExits
    | CloseConn

  const INITIAL := State([], false, map[], Receiving, [], [], [])

  predicate HasRoom(s: State) {
    |s.queue| < CONN_WRITE_QUEUE_DEPTH
  }

  /** Go's select takes any ready case, and the default only when none is ready. */
  predicate Enabled(s: State, a: Action) {
    match a
    case StartControl(t, f) => t !in s.writers && f.kind.Control?
    case StartAudio(t, f) => t !in s.writers && f.kind.Audio?
    case Enqueue(t) => t in s.writers && HasRoom(s) && !s.writers[t].AudioPop? && !s.writers[t].AudioRequeue?
    case GiveUp(t) => t in s.writers && s.closed && !s.writers[t].AudioRequeue?
    case FindFull(t) => t in s.writers && !HasRoom(s) && !s.closed
                        && (s.writers[t].ControlTry? || s.writers[t].AudioTry?)
    case TimeOut(t) => t in s.writers && s.writers[t].ControlWait?
    case PopHead(t) => t in s.writers && s.writers[t].AudioPop? && s.queue != []
    case FindEmpty(t) => t in s.writers && s.writers[t].AudioPop? && s.queue == [] && !s.closed
    case Requeue(t) => t in s.writers && s.writers[t].AudioRequeue? && HasRoom(s)
    case Jam(t) => t in s.writers && s.writers[t].AudioRequeue? && !HasRoom(s)
    case Receive => s.drainer.Receiving? && s.queue != []
    case WriteDone => s.drainer.Writing?
    case WriteFailed => s.drainer.Writing?
    case DrainerExits => s.drainer.Receiving? && s.closed
    case CloseConn => true
  }

  function Next(s: State, a: Action): State
    requires Enabled(s, a)
  {
    match a
    case StartControl(t, f) => s.(writers := s.writers[t := ControlTry(f)])
    case StartAudio(t, f) => s.(writers := s.writers[t := AudioTry(f)])
    case Enqueue(t) =>
      var f := s.writers[t].frame;
      s.(queue := s.queue + [f], accepted := s.accepted + [f], writers := s.writers - {t})
    case GiveUp(t) => s.(writers := s.writers - {t})
    case FindFull(t) =>
      var w := s.writers[t];
      s.(writers := s.writers[t := if w.ControlTry? then ControlWait(w.frame) else AudioPop(w.frame)])
    case TimeOut(t) => s.(closed := true, writers := s.writers - {t})
    case PopHead(t) =>
      var f, head := s.writers[t].frame, s.queue[0];
      if head.kind.Audio?
      then s.(queue := s.queue[1..], dropped := s.dropped + [head], writers := s.writers[t := AudioTry(f)])
      else s.(queue := s.queue[1..], writers := s.writers[t := AudioRequeue(f, head)])
    case FindEmpty(t) => s.(writers := s.writers[t := AudioTry(s.writers[t].frame)])
    case Requeue(t) =>
      s.(queue := s.queue + [s.writers[t].held], writers := s.writers[t := AudioTry(s.writers[t].frame)])
    case Jam(t) => s.(closed := true, writers := s.writers - {t})
    case Receive => s.(queue := s.queue[1..], drainer := Writing(s.queue[0]))
    case WriteDone => s.(written := s.written + [s.drainer.frame], drainer := Receiving)
    case WriteFailed => s.(closed := true, drainer := Exited)
    case DrainerExits => s.(drainer := Exited)
    case CloseConn => s.(closed := true)
  }

  // ---------------------------------------------------------------- conservation

  /** How often frame f occurs. */
  function Times(frames: seq<Frame>, f: Frame): nat {
    multiset(frames)[f]
  }

  function One(yes: bool): nat {
    if yes then 1 else 0
  }

  lemma TimesAppend(frames: seq<Frame>, e: Frame, f: Frame)
    ensures Times(frames + [e], f) == Times(frames, f) + One(e == f)
  {
  }

  lemma TimesFirst(frames: seq<Frame>, f: Frame)
    requires frames != []
    ensures Times(frames, f) == One(frames[0] == f) + Times(frames[1..], f)
  {
    assert frames == [frames[0]] + frames[1..];
  }

  /** A writer carries the frame it was called with, and, while it rotates, a control frame it popped. */
  datatype Part = Own | Held

  predicate Carries(w: Writer, part: Part, f: Frame) {
    match part
    case Own => w.frame == f
    case Held => w.AudioRequeue? && w.held == f
  }

  /** How many writers carry frame f. */
  ghost function CarriedTimes(part: Part, writers: map<WriterId, Writer>, f: Frame): nat {
    if writers == map[] then 0
    else
      var t :| t in writers;
      One(Carries(writers[t], part, f)) + CarriedTimes(part, writers - {t}, f)
  }

  /** Which writer is counted first does not matter. */
  lemma {:induction false} CarriedWithout(part: Part, writers: map<WriterId, Writer>, t: WriterId, f: Frame)
    requires t in writers
    ensures CarriedTimes(part, writers, f) == One(Carries(writers[t], part, f)) + CarriedTimes(part, writers - {t}, f)
    decreases writers
  {
    var first :| first in writers && CarriedTimes(part, writers, f)
                   == One(Carries(writers[first], part, f)) + CarriedTimes(part, writers - {first}, f);
    if first != t {
      CarriedWithout(part, writers - {first}, t, f);
      CarriedWithout(part, writers - {t}, first, f);
      assert writers - {first} - {t} == writers - {t} - {first};
    }
  }

  lemma CarriedAfterUpdate(part: Part, writers: map<WriterId, Writer>, t: WriterId, w: Writer, f: Frame)
    ensures CarriedTimes(part, writers[t := w], f) == One(Carries(w, part, f)) + CarriedTimes(part, writers - {t}, f)
  {
    CarriedWithout(part, writers[t := w], t, f);
    assert writers[t := w] - {t} == writers - {t};
  }

  function InDrainer(d: Drainer, f: Frame): nat {
    One(d.Writing? && d.frame == f)
  }

  /** Frame f was accepted as often as it is queued, held by a rotating writer, held by the drainer,
      written, or dropped. */
  ghost predicate Conserved(s: State, f: Frame) {
    Times(s.accepted, f)
    == Times(s.queue, f) + CarriedTimes(Held, s.writers, f) + InDrainer(s.drainer, f)
       + Times(s.written, f) + Times(s.dropped, f)
  }

  ghost predicate KindsOk(s: State) {
    && (forall f :: f in s.dropped ==> f.kind.Audio?)
    && (forall t :: t in s.writers && s.writers[t].AudioRequeue? ==> s.writers[t].held.kind.Control?)
    && (forall t :: t in s.writers ==>
          (s.writers[t].frame.kind.Control? <==> s.writers[t].ControlTry? || s.writers[t].ControlWait?))
  }

  lemma WriterStepConserved(s: State, a: Action, f: Frame)
    requires Conserved(s, f) && Enabled(s, a) && !Next(s, a).closed
    requires a.StartControl? || a.StartAudio? || a.FindFull? || a.FindEmpty? || a.Enqueue?
    ensures Conserved(Next(s, a), f)
  {
    var t := a.t;
    if t in s.writers {
      CarriedWithout(Held, s.writers, t, f);
    } else {
      assert s.writers - {t} == s.writers;
    }
    if a.Enqueue? {
      TimesAppend(s.queue, s.writers[t].frame, f);
      TimesAppend(s.accepted, s.writers[t].frame, f);
    } else {
      CarriedAfterUpdate(Held, s.writers, t, Next(s, a).writers[t], f);
    }
  }

  lemma RotationConserved(s: State, a: Action, f: Frame)
    requires Conserved(s, f) && Enabled(s, a) && (a.PopHead? || a.Requeue?)
    ensures Conserved(Next(s, a), f)
  {
    CarriedWithout(Held, s.writers, a.t, f);
    CarriedAfterUpdate(Held, s.writers, a.t, Next(s, a).writers[a.t], f);
    if a.PopHead? {
      PopConserved(s, a.t, f);
    } else {
      TimesAppend(s.queue, s.writers[a.t].held, f);
    }
  }

  lemma PopConserved(s: State, t: WriterId, f: Frame)
    requires Enabled(s, PopHead(t))
    ensures var s' := Next(s, PopHead(t));
            Times(s.queue, f) + Times(s.dropped, f) + One(Carries(s.writers[t], Held, f))
            == Times(s'.queue, f) + Times(s'.dropped, f) + One(Carries(s'.writers[t], Held, f))
  {
    TimesFirst(s.queue, f);
    TimesAppend(s.dropped, s.queue[0], f);
  }

  lemma KeepsConserved(s: State, a: Action, f: Frame)
    requires Conserved(s, f) && Enabled(s, a) && !Next(s, a).closed
    ensures Conserved(Next(s, a), f)
  {
    if a.PopHead? || a.Requeue? {
      RotationConserved(s, a, f);
    } else if a.Receive? {
      TimesFirst(s.queue, f);
    } else if a.WriteDone? {
      TimesAppend(s.written, s.drainer.frame, f);
    } else {
      WriterStepConserved(s, a, f);
    }
  }

  // ---------------------------------------------------------------- the order of each kind of frame

  function Only(kind: Kind, f: Frame): seq<Frame> {
    if f.kind == kind then [f] else []
  }

  /** The frames of one kind, in order. */
  function Of(kind: Kind, frames: seq<Frame>): seq<Frame> {
    if frames == [] then []
    else
      var n := |frames| - 1;
      Of(kind, frames[..n]) + Only(kind, frames[n])
  }

  lemma OfAppend(kind: Kind, frames: seq<Frame>, f: Frame)
    ensures Of(kind, frames + [f]) == Of(kind, frames) + Only(kind, f)
  {
    assert (frames + [f])[..|frames|] == frames;
  }

  lemma {:induction false} OfConcat(kind: Kind, a: seq<Frame>, b: seq<Frame>)
    ensures Of(kind, a + b) == Of(kind, a) + Of(kind, b)
    decreases |b|
  {
    if b == [] {
      assert a + b == a;
    } else {
      var n := |b| - 1;
      OfConcat(kind, a, b[..n]);
      OfAppend(kind, a + b[..n], b[n]);
      assert a + b == (a + b[..n]) + [b[n]];
      ThreeParts(Of(kind, a), Of(kind, b[..n]), Only(kind, b[n]));
    }
  }

  lemma ThreeParts<T>(x: seq<T>, y: seq<T>, z: seq<T>)
    ensures x + y + z == x + (y + z)
  {
  }

  lemma OfFirst(kind: Kind, frames: seq<Frame>)
    requires frames != []
    ensures Of(kind, frames) == Only(kind, frames[0]) + Of(kind, frames[1..])
  {
    OfConcat(kind, [frames[0]], frames[1..]);
    OfAppend(kind, [], frames[0]);
    assert [] + [frames[0]] == [frames[0]];
    assert frames == [frames[0]] + frames[1..];
  }

  lemma {:induction false} OfNone(kind: Kind, frames: seq<Frame>)
    requires forall f :: f in frames ==> f.kind != kind
    ensures Of(kind, frames) == []
  {
    if frames != [] {
      OfNone(kind, frames[..|frames| - 1]);
    }
  }

  lemma {:induction false} OfAll(kind: Kind, frames: seq<Frame>)
    requires forall f :: f in frames ==> f.kind == kind
    ensures Of(kind, frames) == frames
  {
    if frames != [] {
      var n := |frames| - 1;
      OfAll(kind, frames[..n]);
      assert frames[..n] + [frames[n]] == frames;
    }
  }

  /** What has left the queue for the socket: written, or in the drainer's hand. */
  function Outgoing(kind: Kind, written: seq<Frame>, drainer: Drainer): seq<Frame> {
    Of(kind, written) + (if drainer.Writing? then Only(kind, drainer.frame) else [])
  }

  /** The queued frames are the newest accepted ones, in order, and what went out is a subsequence of the
      older ones. */
  ghost predicate Ordered(accepted: seq<Frame>, queued: seq<Frame>, out: seq<Frame>) {
    exists older :: accepted == older + queued && Subsequence(out, older)
  }

  ghost predicate InOrder(kind: Kind, s: State) {
    Ordered(Of(kind, s.accepted), Of(kind, s.queue), Outgoing(kind, s.written, s.drainer))
  }

  lemma OrderedEnqueue(accepted: seq<Frame>, queued: seq<Frame>, out: seq<Frame>, more: seq<Frame>)
    requires Ordered(accepted, queued, out)
    ensures Ordered(accepted + more, queued + more, out)
  {
    var older :| accepted == older + queued && Subsequence(out, older);
    assert accepted + more == older + (queued + more);
  }

  lemma OrderedDequeue(accepted: seq<Frame>, first: Frame, queued: seq<Frame>, out: seq<Frame>)
    requires Ordered(accepted, [first] + queued, out)
    ensures Ordered(accepted, queued, out) && Ordered(accepted, queued, out + [first])
  {
    var older :| accepted == older + ([first] + queued) && Subsequence(out, older);
    SubsequencePrefix(out, older, [first]);
    SubsequenceExtends(out, older, first);
    assert accepted == (older + [first]) + queued;
  }

  lemma OrderedLose(accepted: seq<Frame>, queued: seq<Frame>, out: seq<Frame>, last: Frame)
    requires Ordered(accepted, queued, out + [last])
    ensures Ordered(accepted, queued, out)
  {
    var older :| accepted == older + queued && Subsequence(out + [last], older);
    SubsequenceWithoutLast(out, last, older);
  }

  /** Taking the head of the queue, whether it is then thrown away or goes out. */
  lemma OrderedHead(kind: Kind, accepted: seq<Frame>, queue: seq<Frame>, out: seq<Frame>)
    requires queue != [] && Ordered(accepted, Of(kind, queue), out)
    ensures Ordered(accepted, Of(kind, queue[1..]), out)
    ensures Ordered(accepted, Of(kind, queue[1..]), out + Only(kind, queue[0]))
  {
    OfFirst(kind, queue);
    if queue[0].kind == kind {
      OrderedDequeue(accepted, queue[0], Of(kind, queue[1..]), out);
    } else {
      assert Of(kind, queue) == Of(kind, queue[1..]);
      assert out + [] == out;
    }
  }

  lemma EnqueueInOrder(kind: Kind, s: State, t: WriterId)
    requires InOrder(kind, s) && Enabled(s, Enqueue(t))
    ensures InOrder(kind, Next(s, Enqueue(t)))
  {
    var f := s.writers[t].frame;
    OfAppend(kind, s.accepted, f);
    OfAppend(kind, s.queue, f);
    OrderedEnqueue(Of(kind, s.accepted), Of(kind, s.queue), Outgoing(kind, s.written, s.drainer), Only(kind, f));
  }

  /** A frame of another kind goes back to the tail. */
  lemma RequeueInOrder(kind: Kind, s: State, t: WriterId)
    requires InOrder(kind, s) && Enabled(s, Requeue(t)) && s.writers[t].held.kind != kind
    ensures InOrder(kind, Next(s, Requeue(t)))
  {
    OfAppend(kind, s.queue, s.writers[t].held);
    assert Of(kind, s.queue) + [] == Of(kind, s.queue);
  }

  lemma PopHeadInOrder(kind: Kind, s: State, t: WriterId)
    requires InOrder(kind, s) && Enabled(s, PopHead(t))
    ensures InOrder(kind, Next(s, PopHead(t)))
  {
    OrderedHead(kind, Of(kind, s.accepted), s.queue, Outgoing(kind, s.written, s.drainer));
  }

  lemma ReceiveInOrder(kind: Kind, s: State)
    requires InOrder(kind, s) && Enabled(s, Receive)
    ensures InOrder(kind, Next(s, Receive))
  {
    assert Outgoing(kind, s.written, s.drainer) == Of(kind, s.written);
    OrderedHead(kind, Of(kind, s.accepted), s.queue, Of(kind, s.written));
  }

  lemma WriteDoneInOrder(kind: Kind, s: State)
    requires InOrder(kind, s) && Enabled(s, WriteDone)
    ensures InOrder(kind, Next(s, WriteDone))
  {
    OfAppend(kind, s.written, s.drainer.frame);
    assert Outgoing(kind, s.written + [s.drainer.frame], Receiving) == Outgoing(kind, s.written, s.drainer);
  }

  lemma WriteFailedInOrder(kind: Kind, s: State)
    requires InOrder(kind, s) && Enabled(s, WriteFailed)
    ensures InOrder(kind, Next(s, WriteFailed))
  {
    var acc, q, w := Of(kind, s.accepted), Of(kind, s.queue), Of(kind, s.written);
    assert Outgoing(kind, s.written, Exited) == w;
    if s.drainer.frame.kind == kind {
      OrderedLose(acc, q, w, s.drainer.frame);
    } else {
      assert Outgoing(kind, s.written, s.drainer) == w;
    }
  }

  /** Everything else leaves the queue and the drainer's side alone. */
  lemma FrameInOrder(kind: Kind, s: State, s': State)
    requires InOrder(kind, s)
    requires s'.accepted == s.accepted && s'.queue == s.queue && s'.written == s.written
    requires s'.drainer == s.drainer || (s.drainer.Receiving? && s'.drainer.Exited?)
    ensures InOrder(kind, s')
  {
    assert Outgoing(kind, s'.written, s'.drainer) == Outgoing(kind, s.written, s.drainer);
  }

  lemma KeepsInOrder(kind: Kind, s: State, a: Action)
    requires InOrder(kind, s) && KindsOk(s) && Enabled(s, a)
    requires kind.Control? ==> !a.Requeue?
    ensures InOrder(kind, Next(s, a))
  {
    match a
    case Enqueue(t) => EnqueueInOrder(kind, s, t);
    case Requeue(t) => RequeueInOrder(kind, s, t);
    case PopHead(t) => PopHeadInOrder(kind, s, t);
    case Receive => ReceiveInOrder(kind, s);
    case WriteDone => WriteDoneInOrder(kind, s);
    case WriteFailed => WriteFailedInOrder(kind, s);
    case _ => FrameInOrder(kind, s, Next(s, a));
  }

  lemma KeepsKinds(s: State, a: Action)
    requires KindsOk(s) && Enabled(s, a)
    ensures KindsOk(Next(s, a))
  {
  }

  // ---------------------------------------------------------------- every interleaving

  ghost function Exec(acts: seq<Action>): Option<State> {
    if acts == [] then Some(INITIAL)
    else
      var n := |acts| - 1;
      match Exec(acts[..n])
      case None => None
      case Some(s) => if Enabled(s, acts[n]) then Some(Next(s, acts[n])) else None
  }

  ghost predicate NoRequeue(acts: seq<Action>) {
    forall i :: 0 <= i < |acts| ==> !acts[i].Requeue?
  }

  lemma {:induction false} RunsKeepKinds(acts: seq<Action>)
    requires Exec(acts).Some?
    ensures KindsOk(Exec(acts).value)
  {
    if acts != [] {
      RunsKeepKinds(acts[..|acts| - 1]);
      KeepsKinds(Exec(acts[..|acts| - 1]).value, acts[|acts| - 1]);
    }
  }

  lemma {:induction false} RunsKeepOrder(kind: Kind, acts: seq<Action>)
    requires Exec(acts).Some? && (kind.Audio? || NoRequeue(acts))
    ensures InOrder(kind, Exec(acts).value)
  {
    if acts == [] {
      assert [] == [] + Of(kind, []);
      assert Outgoing(kind, [], Receiving) == [];
      EmptySubsequence<Frame>([]);
    } else {
      var n := |acts| - 1;
      RunsKeepOrder(kind, acts[..n]);
      RunsKeepKinds(acts[..n]);
      KeepsInOrder(kind, Exec(acts[..n]).value, acts[n]);
    }
  }

  lemma {:induction false} RunsConserve(acts: seq<Action>, f: Frame)
    requires Exec(acts).Some? && !Exec(acts).value.closed
    ensures Conserved(Exec(acts).value, f)
  {
    if acts != [] {
      var n := |acts| - 1;
      RunsConserve(acts[..n], f);
      KeepsConserved(Exec(acts[..n]).value, acts[n], f);
    }
  }

  lemma {:induction false} QueueIsBounded(acts: seq<Action>)
    requires Exec(acts).Some?
    ensures |Exec(acts).value.queue| <= CONN_WRITE_QUEUE_DEPTH
  {
    if acts != [] {
      QueueIsBounded(acts[..|acts| - 1]);
    }
  }

  /** While the connection is open, every control frame that was ever enqueued is queued, held by a
      rotating audio writer, held by the drainer, or written, as many times as it was enqueued: none is
      lost and none is doubled, however many writers interleave. */
  lemma {:induction false} ControlFramesConserved(acts: seq<Action>, f: Frame)
    requires Exec(acts).Some? && !Exec(acts).value.closed && f.kind.Control?
    ensures var s := Exec(acts).value;
            Times(s.accepted, f)
            == Times(s.queue, f) + CarriedTimes(Held, s.writers, f) + InDrainer(s.drainer, f) + Times(s.written, f)
  {
    RunsConserve(acts, f);
    RunsKeepKinds(acts);
    assert f !in Exec(acts).value.dropped;
  }

  lemma WrittenInOrder(kind: Kind, s: State)
    requires InOrder(kind, s)
    ensures Subsequence(Of(kind, s.written), Of(kind, s.accepted))
  {
    var acc, q, w := Of(kind, s.accepted), Of(kind, s.queue), Of(kind, s.written);
    var out := Outgoing(kind, s.written, s.drainer);
    var older :| acc == older + q && Subsequence(out, older);
    if out != w {
      SubsequenceWithoutLast(w, s.drainer.frame, older);
    }
    SubsequencePrefix(w, older, q);
  }

  /** Whatever the interleaving, and whether or not the connection survives, the audio written is an
      in-order subsequence of the audio accepted. */
  lemma {:induction false} AudioWrittenInOrder(acts: seq<Action>)
    requires Exec(acts).Some?
    ensures Subsequence(Of(Audio, Exec(acts).value.written), Of(Audio, Exec(acts).value.accepted))
  {
    RunsKeepOrder(Audio, acts);
    WrittenInOrder(Audio, Exec(acts).value);
  }

  /** As long as no audio writer rotates a control frame, control frames are written in order too. */
  lemma {:induction false} ControlWrittenInOrder(acts: seq<Action>)
    requires Exec(acts).Some? && NoRequeue(acts)
    ensures Subsequence(Of(Control, Exec(acts).value.written), Of(Control, Exec(acts).value.accepted))
  {
    RunsKeepOrder(Control, acts);
    WrittenInOrder(Control, Exec(acts).value);
  }

  /** Every drop removes the oldest audio frame still queued: the very next one of the accepted audio
      after those that already left. */
  lemma {:induction false} DropsOldest(acts: seq<Action>, t: WriterId)
    requires Exec(acts).Some? && Enabled(Exec(acts).value, PopHead(t))
    requires Exec(acts).value.queue[0].kind.Audio?
    ensures var s := Exec(acts).value; var s' := Next(s, PopHead(t));
            var accepted, queued := Of(Audio, s.accepted), Of(Audio, s.queue);
            && 0 < |queued| <= |accepted| && accepted[|accepted| - |queued|..] == queued
            && s'.dropped == s.dropped + [accepted[|accepted| - |queued|]]
            && Of(Audio, s'.queue) == queued[1..]
  {
    RunsKeepOrder(Audio, acts);
    OfFirst(Audio, Exec(acts).value.queue);
  }

  // ---------------------------------------------------------------- control frames can overtake

  lemma OneMore(acts: seq<Action>, a: Action)
    requires Exec(acts).Some? && Enabled(Exec(acts).value, a)
    ensures Exec(acts + [a]) == Some(Next(Exec(acts).value, a))
  {
    assert (acts + [a])[..|acts|] == acts;
  }

  function WithQueued(s: State, frames: seq<Frame>): State {
    s.(queue := s.queue + frames, accepted := s.accepted + frames)
  }

  lemma WithQueuedTwice(s: State, a: seq<Frame>, b: seq<Frame>)
    ensures WithQueued(WithQueued(s, a), b) == WithQueued(s, a + b)
  {
    assert s.queue + a + b == s.queue + (a + b);
    assert s.accepted + a + b == s.accepted + (a + b);
  }

  /** Some writer gets a frame into the queue. */
  lemma Submit(acts: seq<Action>, f: Frame) returns (all: seq<Action>)
    requires Exec(acts).Some?
    requires var s := Exec(acts).value; s.writers == map[] && !s.closed && HasRoom(s)
    ensures Exec(all) == Some(WithQueued(Exec(acts).value, [f]))
  {
    var start := if f.kind.Control? then StartControl(0, f) else StartAudio(0, f);
    OneMore(acts, start);
    OneMore(acts + [start], Enqueue(0));
    all := acts + [start] + [Enqueue(0)];
    assert Exec(all).value.writers == map[];
  }

  lemma {:induction false} SubmitMany(acts: seq<Action>, frames: seq<Frame>) returns (all: seq<Action>)
    requires Exec(acts).Some?
    requires var s := Exec(acts).value;
             s.writers == map[] && !s.closed && |s.queue| + |frames| <= CONN_WRITE_QUEUE_DEPTH
    ensures Exec(all) == Some(WithQueued(Exec(acts).value, frames))
    decreases |frames|
  {
    var s := Exec(acts).value;
    if frames == [] {
      all := acts;
      assert WithQueued(s, frames) == s;
    } else {
      var first, rest := frames[0], frames[1..];
      var one := Submit(acts, first);
      all := SubmitMany(one, rest);
      WithQueuedTwice(s, [first], rest);
      assert [first] + rest == frames;
    }
  }

  lemma TwoMore(acts: seq<Action>, a: Action, b: Action)
    requires Exec(acts).Some? && Enabled(Exec(acts).value, a) && Enabled(Next(Exec(acts).value, a), b)
    ensures Exec(acts + [a, b]) == Some(Next(Next(Exec(acts).value, a), b))
  {
    OneMore(acts, a);
    OneMore(acts + [a], b);
    assert acts + [a] + [b] == acts + [a, b];
  }

  lemma WriteHead(acts: seq<Action>)
    requires Exec(acts).Some? && Exec(acts).value.drainer.Receiving? && Exec(acts).value.queue != []
    ensures var s := Exec(acts).value;
            Exec(acts + [Receive, WriteDone])
            == Some(s.(queue := s.queue[1..], written := s.written + [s.queue[0]]))
  {
    TwoMore(acts, Receive, WriteDone);
  }

  /** The drainer writes out the whole queue. */
  lemma {:induction false} DrainAll(acts: seq<Action>) returns (all: seq<Action>)
    requires Exec(acts).Some? && Exec(acts).value.drainer.Receiving?
    ensures Exec(all) == Some(var s := Exec(acts).value; s.(queue := [], written := s.written + s.queue))
    decreases |Exec(acts).value.queue|
  {
    var s := Exec(acts).value;
    if s.queue == [] {
      all := acts;
      assert s.written + s.queue == s.written;
    } else {
      WriteHead(acts);
      all := DrainAll(acts + [Receive, WriteDone]);
      assert s.written + [s.queue[0]] + s.queue[1..] == s.written + s.queue;
    }
  }

  /** A full queue [c1, c2] ++ audio that an audio writer rotates once. */
  lemma RotateOnce(acts: seq<Action>, c1: Frame, rest: seq<Frame>, a: Frame) returns (all: seq<Action>)
    requires c1.kind.Control? && a.kind.Audio? && |rest| == CONN_WRITE_QUEUE_DEPTH - 1
    requires Exec(acts) == Some(INITIAL.(queue := [c1] + rest, accepted := [c1] + rest))
    ensures Exec(all) == Some(INITIAL.(queue := rest + [c1], accepted := [c1] + rest, writers := map[0 := AudioTry(a)]))
  {
    OneMore(acts, StartAudio(0, a));
    var b := acts + [StartAudio(0, a)];
    OneMore(b, FindFull(0));
    OneMore(b + [FindFull(0)], PopHead(0));
    assert ([c1] + rest)[1..] == rest;
    OneMore(b + [FindFull(0)] + [PopHead(0)], Requeue(0));
    all := b + [FindFull(0)] + [PopHead(0)] + [Requeue(0)];
    assert Exec(all).value.writers == map[0 := AudioTry(a)];
  }

  /** Control frames are not kept in order: for any two of them there is a run, on an open connection and
      with nothing lost, in which the second one enqueued is written first. */
  lemma ControlOvertakes(c1: Frame, c2: Frame, a: Frame) returns (acts: seq<Action>)
    requires c1.kind.Control? && c2.kind.Control? && a.kind.Audio?
    ensures Exec(acts).Some? && !Exec(acts).value.closed
    ensures Of(Control, Exec(acts).value.accepted) == [c1, c2]
    ensures Of(Control, Exec(acts).value.written) == [c2, c1]
  {
    var audio := seq(CONN_WRITE_QUEUE_DEPTH - 2, _ => a);
    var rest := [c2] + audio;
    var full := SubmitMany([], [c1] + rest);
    assert [] + ([c1] + rest) == [c1] + rest;
    var rotated := RotateOnce(full, c1, rest, a);
    acts := DrainAll(rotated);
    assert [] + (rest + [c1]) == rest + [c1];
    TwoControls(c1, c2, audio);
  }

  lemma TwoControls(c1: Frame, c2: Frame, audio: seq<Frame>)
    requires c1.kind.Control? && c2.kind.Control? && forall f :: f in audio ==> f.kind.Audio?
    ensures Of(Control, [c1] + ([c2] + audio)) == [c1, c2]
    ensures Of(Control, [c2] + audio + [c1]) == [c2, c1]
  {
    OneControl(c2, audio);
    var rest := [c2] + audio;
    OfFirst(Control, [c1] + rest);
    assert ([c1] + rest)[1..] == rest;
    OfAppend(Control, rest, c1);
  }

  lemma OneControl(c: Frame, audio: seq<Frame>)
    requires c.kind.Control? && forall f :: f in audio ==> f.kind.Audio?
    ensures Of(Control, [c] + audio) == [c]
  {
    OfNone(Control, audio);
    OfFirst(Control, [c] + audio);
    assert ([c] + audio)[1..] == audio;
  }

  // ---------------------------------------------------------------- writeAudio run alone

  predicate HasAudio(queue: seq<Frame>) {
    exists i :: 0 <= i < |queue| && queue[i].kind.Audio?
  }

  /** The frames before the oldest queued audio frame. */
  function LeadingControl(queue: seq<Frame>): (lead: seq<Frame>)
    ensures lead <= queue
    ensures forall f :: f in lead ==> f.kind.Control?
    ensures |lead| < |queue| ==> queue[|lead|].kind.Audio?
    ensures HasAudio(queue) <==> |lead| < |queue|
  {
    if queue == [] || queue[0].kind.Audio? then [] else [queue[0]] + LeadingControl(queue[1..])
  }

  /** The queue an undisturbed writeAudio leaves: the frame at the tail; if the queue was full, its
      oldest audio frame gone and the control frames in front of it moved behind the rest. */
  function AfterAudio(queue: seq<Frame>, cap: nat, frame: Frame): seq<Frame>
    requires |queue| < cap || HasAudio(queue)
  {
    if |queue| < cap then queue + [frame]
    else
      var lead := LeadingControl(queue);
      queue[|lead| + 1..] + lead + [frame]
  }

  lemma AudioBehindControl(queue: seq<Frame>)
    requires queue != [] && queue[0].kind.Control? && HasAudio(queue)
    ensures HasAudio(queue[1..])
  {
    var i :| 0 <= i < |queue| && queue[i].kind.Audio?;
    assert queue[1..][i - 1] == queue[i];
  }

  lemma RotateLead(queue: seq<Frame>)
    requires queue != [] && queue[0].kind.Control? && HasAudio(queue)
    ensures var q := queue[1..] + [queue[0]];
            && HasAudio(q) && |LeadingControl(q)| == |LeadingControl(queue)| - 1
            && q[|LeadingControl(q)| + 1..] + LeadingControl(q)
               == queue[|LeadingControl(queue)| + 1..] + LeadingControl(queue)
  {
    var rest, first := queue[1..], [queue[0]];
    AudioBehindControl(queue);
    LeadOfPrefix(rest, first);
    var lead := LeadingControl(rest);
    assert LeadingControl(queue) == first + lead && LeadingControl(rest + first) == lead;
    TailsMeet(queue, |lead|, lead);
  }

  lemma TailsMeet(queue: seq<Frame>, m: nat, lead: seq<Frame>)
    requires m + 1 < |queue|
    ensures (queue[1..] + [queue[0]])[m + 1..] + lead == queue[m + 2..] + ([queue[0]] + lead)
  {
    assert (queue[1..] + [queue[0]])[m + 1..] == queue[m + 2..] + [queue[0]];
  }

  lemma {:induction false} LeadOfPrefix(a: seq<Frame>, b: seq<Frame>)
    requires HasAudio(a)
    ensures HasAudio(a + b) && LeadingControl(a + b) == LeadingControl(a)
  {
    AudioInPrefix(a, b);
    assert (a + b)[0] == a[0];
    if a[0].kind.Control? {
      AudioBehindControl(a);
      LeadOfPrefix(a[1..], b);
      assert (a + b)[1..] == a[1..] + b;
    }
  }

  lemma AudioInPrefix(a: seq<Frame>, b: seq<Frame>)
    requires HasAudio(a)
    ensures HasAudio(a + b)
  {
    var i :| 0 <= i < |a| && a[i].kind.Audio?;
    assert (a + b)[i] == a[i];
  }

  datatype WriteError = ConnClosed | QueueJammed

  /** A connection used by one writer at a time. */
  class Conn {
    var queue: seq<Frame>
    var closed: bool
    const depth: nat

    constructor (depth: nat := CONN_WRITE_QUEUE_DEPTH)
      ensures queue == [] && !closed && this.depth == depth
    {
      queue, closed := [], false;
      this.depth := depth;
    }

    /** writeAudio with nobody else at the queue. A full queue of control frames alone is left out: see
        OnlyAudioEndsTheLoop. */
    method WriteAudio(frame: Frame) returns (err: Option<WriteError>)
      requires frame.kind.Audio? && |queue| <= depth
      requires closed || |queue| < depth || HasAudio(queue)
      modifies this`queue
      ensures !closed ==> err == None && queue == AfterAudio(old(queue), depth, frame)
      ensures closed ==> if err == None then |old(queue)| < depth && queue == old(queue) + [frame]
                         else err == Some(ConnClosed) && queue == old(queue)
    {
      ghost var before := queue;
      while true
        invariant |queue| <= depth
        invariant closed ==> queue == before
        invariant !closed ==> (|queue| < depth || HasAudio(queue)) && (|before| < depth || HasAudio(before))
        invariant !closed ==> AfterAudio(queue, depth, frame) == AfterAudio(before, depth, frame)
        decreases if |queue| < depth then 0 else 1 + |LeadingControl(queue)|
      {
        var sendFirst: bool := *;   // on a closed connection either ready case may be taken
        if |queue| < depth && (!closed || sendFirst) {
          queue := queue + [frame];
          return None;
        }
        if closed {
          return Some(ConnClosed);
        }
        var msg := queue[0];
        if msg.kind.Control? {
          RotateLead(queue);
          queue := queue[1..] + [msg];
        } else {
          assert LeadingControl(queue) == [];
          queue := queue[1..];
        }
      }
    }
  }

  /** One kind of frame in a queue whose oldest audio frame x has the control frames `lead` in front. */
  lemma OfCut(kind: Kind, lead: seq<Frame>, x: Frame, rest: seq<Frame>)
    requires x.kind.Audio? && forall f :: f in lead ==> f.kind.Control?
    ensures Of(kind, lead + ([x] + rest)) == (if kind.Audio? then [x] + Of(kind, rest) else lead + Of(kind, rest))
  {
    OfConcat(kind, lead, [x] + rest);
    OfFirst(kind, [x] + rest);
    assert ([x] + rest)[1..] == rest;
    OfLead(kind, lead);
    var r := Of(kind, rest);
    assert [] + ([x] + r) == [x] + r;
    assert [] + r == r;
  }

  lemma OfLead(kind: Kind, lead: seq<Frame>)
    requires forall f :: f in lead ==> f.kind.Control?
    ensures Of(kind, lead) == if kind.Audio? then [] else lead
  {
    if kind.Audio? {
      OfNone(kind, lead);
    } else {
      OfAll(kind, lead);
    }
  }

  lemma OfRotated(kind: Kind, lead: seq<Frame>, rest: seq<Frame>, frame: Frame)
    requires frame.kind.Audio? && forall f :: f in lead ==> f.kind.Control?
    ensures Of(kind, rest + lead + [frame]) == Of(kind, rest) + (if kind.Audio? then [frame] else lead)
  {
    OfAppend(kind, rest + lead, frame);
    OfConcat(kind, rest, lead);
    OfLead(kind, lead);
    var r := Of(kind, rest);
    if kind.Audio? {
      assert r + [] == r;
    } else {
      assert r + lead + [] == r + lead;
    }
  }

  /** The control frames behind the oldest queued audio frame. */
  function BehindAudio(queue: seq<Frame>): seq<Frame> {
    var lead := LeadingControl(queue);
    if |lead| < |queue| then Of(Control, queue[|lead| + 1..]) else []
  }

  /** On a full queue an undisturbed writeAudio drops the oldest audio frame, appends its own, and moves the
      control frames in front of the oldest audio behind all other control frames. */
  lemma FullQueueByKind(queue: seq<Frame>, cap: nat, frame: Frame)
    requires |queue| == cap && HasAudio(queue) && frame.kind.Audio?
    ensures var after := AfterAudio(queue, cap, frame);
            && Of(Audio, queue) != [] && Of(Audio, after) == Of(Audio, queue)[1..] + [frame]
            && Of(Control, queue) == LeadingControl(queue) + BehindAudio(queue)
            && Of(Control, after) == BehindAudio(queue) + LeadingControl(queue)
  {
    var lead := LeadingControl(queue);
    CutAtOldestAudio(queue);
    ByKind(lead, queue[|lead|], queue[|lead| + 1..], frame);
  }

  lemma CutAtOldestAudio(queue: seq<Frame>)
    requires HasAudio(queue)
    ensures var lead := LeadingControl(queue);
            && |lead| < |queue| && queue[|lead|].kind.Audio?
            && queue == lead + ([queue[|lead|]] + queue[|lead| + 1..])
  {
    var lead := LeadingControl(queue);
    CutAt(queue, |lead|);
    assert queue[..|lead|] == lead;
  }

  lemma CutAt<T>(x: seq<T>, i: nat)
    requires i < |x|
    ensures x == x[..i] + ([x[i]] + x[i + 1..])
  {
  }

  lemma ByKind(lead: seq<Frame>, x: Frame, rest: seq<Frame>, frame: Frame)
    requires x.kind.Audio? && frame.kind.Audio? && forall f :: f in lead ==> f.kind.Control?
    ensures var queue, after := lead + ([x] + rest), rest + lead + [frame];
            && Of(Audio, queue) != [] && Of(Audio, after) == Of(Audio, queue)[1..] + [frame]
            && Of(Control, queue) == lead + Of(Control, rest) && Of(Control, after) == Of(Control, rest) + lead
  {
    OfCut(Audio, lead, x, rest);
    OfCut(Control, lead, x, rest);
    OfRotated(Audio, lead, rest, frame);
    OfRotated(Control, lead, rest, frame);
  }

  /** An undisturbed writeAudio keeps the order of control frames if and only if it finds room, or the control
      frames in front of the oldest audio and those behind it commute. When no control frame occurs twice,
      they commute exactly when there are none in front or none behind. */
  lemma ControlOrderAlone(queue: seq<Frame>, cap: nat, frame: Frame)
    requires |queue| <= cap && (|queue| < cap || HasAudio(queue)) && frame.kind.Audio?
    ensures ControlKept(queue, cap, frame)
       <==> |queue| < cap
            || LeadingControl(queue) + BehindAudio(queue) == BehindAudio(queue) + LeadingControl(queue)
    ensures Distinct(Of(Control, queue)) ==>
              (ControlKept(queue, cap, frame) <==> |queue| < cap || queue[0].kind.Audio? || BehindAudio(queue) == [])
  {
    if |queue| < cap {
      OfAppend(Control, queue, frame);
      assert Of(Control, queue) + [] == Of(Control, queue);
    } else {
      FullQueueByKind(queue, cap, frame);
      DistinctDoNotCommute(LeadingControl(queue), BehindAudio(queue));
    }
  }

  predicate ControlKept(queue: seq<Frame>, cap: nat, frame: Frame)
    requires |queue| < cap || HasAudio(queue)
  {
    Of(Control, AfterAudio(queue, cap, frame)) == Of(Control, queue)
  }

  lemma DistinctDoNotCommute(a: seq<Frame>, b: seq<Frame>)
    ensures a == [] || b == [] ==> a + b == b + a
    ensures Distinct(a + b) && a + b == b + a ==> a == [] || b == []
  {
    if a != [] && b != [] && a + b == b + a {
      assert (a + b)[0] == a[0] && (a + b)[|a|] == b[0];
      assert (b + a)[0] == b[0];
    }
  }

  datatype Solo = Done(queue: seq<Frame>) | Again(queue: seq<Frame>)

  /** One iteration of writeAudio's loop on an open connection that nobody else touches. */
  function Iterate(queue: seq<Frame>, cap: nat, frame: Frame): Solo {
    if |queue| < cap then Done(queue + [frame])
    else if queue == [] then Again(queue)
    else if queue[0].kind.Audio? then Again(queue[1..])
    else Again(queue[1..] + [queue[0]])
  }

  function IterateN(queue: seq<Frame>, cap: nat, frame: Frame, n: nat): Solo
    decreases n
  {
    if n == 0 then Again(queue)
    else match Iterate(queue, cap, frame)
      case Done(q) => Done(q)
      case Again(q) => IterateN(q, cap, frame, n - 1)
  }

  /** With audio queued, one pass over the leading control frames, one drop and one send end the loop. */
  lemma {:induction false} AudioEndsTheLoop(queue: seq<Frame>, cap: nat, frame: Frame)
    requires |queue| <= cap && cap > 0 && (|queue| < cap || HasAudio(queue))
    ensures IterateN(queue, cap, frame, if |queue| < cap then 1 else |LeadingControl(queue)| + 2)
         == Done(AfterAudio(queue, cap, frame))
    decreases if |queue| < cap then 0 else 1 + |LeadingControl(queue)|
  {
    if |queue| == cap {
      if queue[0].kind.Control? {
        RotateLead(queue);
        AudioEndsTheLoop(queue[1..] + [queue[0]], cap, frame);
      } else {
        assert IterateN(queue, cap, frame, 2) == IterateN(queue[1..], cap, frame, 1);
        assert IterateN(queue[1..], cap, frame, 1) == Iterate(queue[1..], cap, frame);
        assert queue[1..] + [] + [frame] == queue[1..] + [frame];
      }
    } else {
      assert IterateN(queue, cap, frame, 1) == Iterate(queue, cap, frame);
    }
  }

  lemma {:induction false} ControlOnlySpins(queue: seq<Frame>, cap: nat, frame: Frame, n: nat)
    requires |queue| == cap > 0 && !HasAudio(queue)
    ensures IterateN(queue, cap, frame, n).Again?
    decreases n
  {
    if n > 0 {
      var q := queue[1..] + [queue[0]];
      assert queue[0].kind.Control?;
      forall i | 0 <= i < |q| ensures q[i].kind.Control? {
        assert q[i] == queue[if i < |queue| - 1 then i + 1 else 0];
      }
      ControlOnlySpins(q, cap, frame, n - 1);
    }
  }

  /** Run alone on an open connection, writeAudio ends if and only if the queue has room or holds an
      audio frame: a full queue of control frames is rotated for ever. */
  lemma OnlyAudioEndsTheLoop(queue: seq<Frame>, cap: nat, frame: Frame)
    requires |queue| <= cap && cap > 0
    ensures (exists n :: IterateN(queue, cap, frame, n).Done?) <==> |queue| < cap || HasAudio(queue)
  {
    if |queue| < cap || HasAudio(queue) {
      AudioEndsTheLoop(queue, cap, frame);
    } else {
      forall n: nat ensures !IterateN(queue, cap, frame, n).Done? {
        ControlOnlySpins(queue, cap, frame, n);
      }
    }
  }

  // ---------------------------------------------------------------- one writer's steps alone

  /** A step of writer t inside writeAudio. */
  predicate StepOf(a: Action, t: WriterId) {
    && (a.Enqueue? || a.GiveUp? || a.FindFull? || a.PopHead? || a.FindEmpty? || a.Requeue? || a.Jam?)
    && a.t == t
  }

  /** In this continuation of the run nobody but writer t steps: no other writer, and not the drainer. */
  ghost predicate Alone(acts: seq<Action>, all: seq<Action>, t: WriterId) {
    acts <= all && Exec(all).Some? && forall k :: |acts| <= k < |all| ==> StepOf(all[k], t)
  }

  /** Writer t goes round a queue of control frames alone, wherever in its loop it stands. */
  ghost predicate Spinning(s: State, t: WriterId) {
    && !s.closed && !HasAudio(s.queue) && t in s.writers
    && match s.writers[t]
       case AudioTry(_) => |s.queue| == CONN_WRITE_QUEUE_DEPTH
       case AudioPop(_) => |s.queue| == CONN_WRITE_QUEUE_DEPTH
       case AudioRequeue(_, held) => |s.queue| == CONN_WRITE_QUEUE_DEPTH - 1 && held.kind.Control?
       case _ => false
  }

  lemma SpinningStep(s: State, a: Action, t: WriterId)
    requires Spinning(s, t) && Enabled(s, a) && StepOf(a, t)
    ensures Spinning(Next(s, a), t)
  {
    if a.PopHead? {
      assert forall i :: 0 <= i < |s.queue| - 1 ==> s.queue[1..][i] == s.queue[i + 1];
    } else if a.Requeue? {
      assert forall i :: 0 <= i < |s.queue| ==> (s.queue + [s.writers[t].held])[i] == s.queue[i];
    }
  }

  lemma SpinningCanStep(s: State, t: WriterId) returns (a: Action)
    requires Spinning(s, t)
    ensures Enabled(s, a) && StepOf(a, t)
  {
    a := match s.writers[t]
         case AudioTry(_) => FindFull(t)
         case AudioPop(_) => PopHead(t)
         case _ => Requeue(t);
  }

  /** By itself it never leaves. */
  lemma {:induction false} SpinsAlone(acts: seq<Action>, all: seq<Action>, t: WriterId)
    requires Exec(acts).Some? && Spinning(Exec(acts).value, t) && Alone(acts, all, t)
    ensures Spinning(Exec(all).value, t)
    decreases |all|
  {
    if |all| > |acts| {
      var n := |all| - 1;
      assert acts == all[..|acts|] == all[..n][..|acts|];
      SpinsAlone(acts, all[..n], t);
      SpinningStep(Exec(all[..n]).value, all[n], t);
    } else {
      assert all == acts;
    }
  }

  /** And it can go round as often as one likes. */
  lemma {:induction false} SpinsOn(acts: seq<Action>, t: WriterId, n: nat) returns (all: seq<Action>)
    requires Exec(acts).Some? && Spinning(Exec(acts).value, t)
    ensures Alone(acts, all, t) && |all| == |acts| + n && Spinning(Exec(all).value, t)
  {
    if n == 0 {
      all := acts;
    } else {
      var before := SpinsOn(acts, t, n - 1);
      var s := Exec(before).value;
      var a := SpinningCanStep(s, t);
      OneMore(before, a);
      SpinningStep(s, a, t);
      all := before + [a];
    }
  }

  /** A run from the initial state to a full queue of any control frames, and any number of steps that an audio
      writer then takes round it, alone, on an open connection. */
  lemma SpinningRun(frames: seq<Frame>, audio: Frame, n: nat) returns (start: seq<Action>, all: seq<Action>)
    requires |frames| == CONN_WRITE_QUEUE_DEPTH && (forall f :: f in frames ==> f.kind.Control?) && audio.kind.Audio?
    ensures Exec(start).Some? && Exec(start).value.queue == Exec(start).value.accepted == frames
    ensures Exec(start).value.writers == map[0 := AudioTry(audio)]
    ensures Alone(start, all, 0) && |all| == |start| + n
    ensures Spinning(Exec(all).value, 0) && Exec(all).value.accepted == frames
  {
    var full := SubmitMany([], frames);
    assert [] + frames == frames;
    OneMore(full, StartAudio(0, audio));
    start := full + [StartAudio(0, audio)];
    assert Exec(start).value.writers == map[0 := AudioTry(audio)];
    all := SpinsOn(start, 0, n);
    AcceptsNothing(start, all, 0);
  }

  lemma {:induction false} AcceptsNothing(acts: seq<Action>, all: seq<Action>, t: WriterId)
    requires Exec(acts).Some? && Spinning(Exec(acts).value, t) && Alone(acts, all, t)
    ensures Exec(all).value.accepted == Exec(acts).value.accepted
    decreases |all|
  {
    if |all| > |acts| {
      var n := |all| - 1;
      assert acts == all[..|acts|] == all[..n][..|acts|];
      AcceptsNothing(acts, all[..n], t);
      SpinsAlone(acts, all[..n], t);
    } else {
      assert all == acts;
    }
  }

  /** One round of the loop on a full queue: the oldest audio frame goes, or the control frame at the head goes
      to the tail. */
  lemma OneRound(acts: seq<Action>, t: WriterId) returns (all: seq<Action>)
    requires Exec(acts).Some?
    requires var s := Exec(acts).value;
             t in s.writers && s.writers[t].AudioTry? && !s.closed && |s.queue| == CONN_WRITE_QUEUE_DEPTH
    ensures Alone(acts, all, t)
    ensures var s, s' := Exec(acts).value, Exec(all).value;
            && s'.writers == s.writers && !s'.closed
            && s'.queue == s.queue[1..] + Only(Control, s.queue[0])
  {
    var s := Exec(acts).value;
    TwoMore(acts, FindFull(t), PopHead(t));
    all := acts + [FindFull(t), PopHead(t)];
    if s.queue[0].kind.Control? {
      OneMore(all, Requeue(t));
      all := all + [Requeue(t)];
    }
    assert Exec(all).value.writers == s.writers;
  }

  lemma AloneTwice(acts: seq<Action>, b: seq<Action>, all: seq<Action>, t: WriterId)
    requires Alone(acts, b, t) && Alone(b, all, t)
    ensures Alone(acts, all, t)
  {
    assert forall k :: 0 <= k < |b| ==> all[k] == b[k];
  }

  /** With room or audio in the queue the writer can get its frame in by itself, and then leaves the stated
      queue. */
  lemma {:induction false} EndsAlone(acts: seq<Action>, t: WriterId) returns (all: seq<Action>)
    requires Exec(acts).Some?
    requires var s := Exec(acts).value;
             && t in s.writers && s.writers[t].AudioTry? && !s.closed && |s.queue| <= CONN_WRITE_QUEUE_DEPTH
             && (HasRoom(s) || HasAudio(s.queue))
    ensures Alone(acts, all, t) && t !in Exec(all).value.writers
    ensures var s := Exec(acts).value;
            Exec(all).value.queue == AfterAudio(s.queue, CONN_WRITE_QUEUE_DEPTH, s.writers[t].frame)
    decreases if HasRoom(Exec(acts).value) then 0 else 1 + |LeadingControl(Exec(acts).value.queue)|
  {
    var s := Exec(acts).value;
    if HasRoom(s) {
      OneMore(acts, Enqueue(t));
      all := acts + [Enqueue(t)];
    } else {
      var b := OneRound(acts, t);
      RoundKeepsResult(s.queue, s.writers[t].frame);
      all := EndsAlone(b, t);
      AloneTwice(acts, b, all, t);
    }
  }

  lemma RoundKeepsResult(queue: seq<Frame>, frame: Frame)
    requires |queue| == CONN_WRITE_QUEUE_DEPTH && HasAudio(queue)
    ensures var q := queue[1..] + Only(Control, queue[0]);
            && (|q| < CONN_WRITE_QUEUE_DEPTH || (HasAudio(q) && |LeadingControl(q)| < |LeadingControl(queue)|))
            && AfterAudio(q, CONN_WRITE_QUEUE_DEPTH, frame) == AfterAudio(queue, CONN_WRITE_QUEUE_DEPTH, frame)
  {
    if queue[0].kind.Control? {
      RotateLead(queue);
    } else {
      assert queue[1..] + [] == queue[1..];
      assert LeadingControl(queue) == [];
      assert queue[1..] + [] + [frame] == queue[1..] + [frame];
    }
  }

  /** In every reachable state with an open connection: a writer about to try can leave its loop while nobody
      else steps, neither another writer nor the drainer, if and only if the queue has room or holds audio. */
  lemma {:induction false} LeavesAloneExactlyWithRoomOrAudio(acts: seq<Action>, t: WriterId)
    requires Exec(acts).Some? && !Exec(acts).value.closed
    requires t in Exec(acts).value.writers && Exec(acts).value.writers[t].AudioTry?
    ensures (exists all :: Alone(acts, all, t) && t !in Exec(all).value.writers)
       <==> HasRoom(Exec(acts).value) || HasAudio(Exec(acts).value.queue)
  {
    var s := Exec(acts).value;
    QueueIsBounded(acts);
    if HasRoom(s) || HasAudio(s.queue) {
      var all := EndsAlone(acts, t);
    } else {
      forall all | Alone(acts, all, t) ensures t in Exec(all).value.writers {
        SpinsAlone(acts, all, t);
      }
    }
  }
}
