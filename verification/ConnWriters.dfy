/** The two ends of the write queue: what becomes of every frame a writer is called with, and of every frame in
    the queue. */
module ConnWriters {
  import opened Wrappers
  import opened ConnQueue

  // ---------------------------------------------------------------- no frame is lost before it is queued

  /** The frames that writers were called with in these steps, in order. */
  function Started(acts: seq<Action>): seq<Frame> {
    if acts == [] then []
    else
      var n := |acts| - 1;
      Started(acts[..n]) + (if acts[n].StartControl? || acts[n].StartAudio? then [acts[n].frame] else [])
  }

  /** f was started as often as it is waiting with its writer or was accepted. */
  ghost predicate StartedConserved(started: seq<Frame>, s: State, f: Frame) {
    Times(started, f) == CarriedTimes(Own, s.writers, f) + Times(s.accepted, f)
  }

  lemma StartConserved(started: seq<Frame>, s: State, a: Action, f: Frame)
    requires StartedConserved(started, s, f) && Enabled(s, a) && (a.StartControl? || a.StartAudio?)
    ensures StartedConserved(started + [a.frame], Next(s, a), f)
  {
    TimesAppend(started, a.frame, f);
    assert s.writers - {a.t} == s.writers;
    CarriedAfterUpdate(Own, s.writers, a.t, Next(s, a).writers[a.t], f);
  }

  lemma EnqueueConserved(started: seq<Frame>, s: State, t: WriterId, f: Frame)
    requires StartedConserved(started, s, f) && Enabled(s, Enqueue(t))
    ensures StartedConserved(started, Next(s, Enqueue(t)), f)
  {
    CarriedWithout(Own, s.writers, t, f);
    TimesAppend(s.accepted, s.writers[t].frame, f);
  }

  /** A writer that moves on inside its call keeps its frame. */
  lemma MoveConserved(started: seq<Frame>, s: State, a: Action, f: Frame)
    requires StartedConserved(started, s, f) && Enabled(s, a)
    requires a.FindFull? || a.PopHead? || a.FindEmpty? || a.Requeue?
    ensures StartedConserved(started, Next(s, a), f)
  {
    CarriedWithout(Own, s.writers, a.t, f);
    CarriedAfterUpdate(Own, s.writers, a.t, Next(s, a).writers[a.t], f);
  }

  lemma KeepsStarted(started: seq<Frame>, s: State, a: Action, f: Frame)
    requires StartedConserved(started, s, f) && Enabled(s, a) && !Next(s, a).closed
    ensures StartedConserved(started + (if a.StartControl? || a.StartAudio? then [a.frame] else []), Next(s, a), f)
  {
    assert started + [] == started;
    if a.StartControl? || a.StartAudio? {
      StartConserved(started, s, a, f);
    } else if a.Enqueue? {
      EnqueueConserved(started, s, a.t, f);
    } else if a.FindFull? || a.PopHead? || a.FindEmpty? || a.Requeue? {
      MoveConserved(started, s, a, f);
    }
  }

  /** Closing is for ever. */
  lemma ClosedStays(s: State, a: Action)
    requires Enabled(s, a) && s.closed
    ensures Next(s, a).closed
  {
  }

  lemma {:induction false} RunsConserveStarted(acts: seq<Action>, f: Frame)
    requires Exec(acts).Some? && !Exec(acts).value.closed
    ensures StartedConserved(Started(acts), Exec(acts).value, f)
  {
    if acts != [] {
      var n := |acts| - 1;
      RunsConserveStarted(acts[..n], f);
      KeepsStarted(Started(acts[..n]), Exec(acts[..n]).value, acts[n], f);
    }
  }

  /** While the connection is open, every frame that a writer was ever called with waits with its writer, or was
      accepted; and a control frame among them is, as often as it was started, waiting with a writer that has
      not given up on it, queued, held by a rotating audio writer, held by the drainer, or written. */
  lemma {:induction false} NothingStartedIsLost(acts: seq<Action>, f: Frame)
    requires Exec(acts).Some? && !Exec(acts).value.closed
    ensures var s := Exec(acts).value;
            && Times(Started(acts), f) == CarriedTimes(Own, s.writers, f) + Times(s.accepted, f)
            && (f.kind.Control? ==>
                  && Times(Started(acts), f)
                     == CarriedTimes(Own, s.writers, f) + Times(s.queue, f) + CarriedTimes(Held, s.writers, f)
                        + InDrainer(s.drainer, f) + Times(s.written, f)
                  && forall t :: t in s.writers && s.writers[t].frame == f ==>
                       s.writers[t].ControlTry? || s.writers[t].ControlWait?)
  {
    RunsConserveStarted(acts, f);
    if f.kind.Control? {
      ControlFramesConserved(acts, f);
      RunsKeepKinds(acts);
    }
  }

  /** A writer leaves, or has its frame taken from it, only by getting it accepted or with the connection closed. */
  lemma {:induction false} WritersLeaveByEnqueueing(acts: seq<Action>, a: Action, t: WriterId)
    requires Exec(acts).Some? && Enabled(Exec(acts).value, a) && t in Exec(acts).value.writers
    ensures var s := Exec(acts).value; var s' := Next(s, a);
            || (t in s'.writers && s'.writers[t].frame == s.writers[t].frame)
            || (t !in s'.writers && s'.accepted == s.accepted + [s.writers[t].frame]
                && s'.queue == s.queue + [s.writers[t].frame])
            || (t !in s'.writers && s'.closed)
  {
  }

  // ---------------------------------------------------------------- writers are never stuck

  /** A control writer gets its frame in as soon as there is room; with none, and the connection open, all it can
      do is wait, or give up and close the connection. */
  lemma {:induction false} ControlWriterSteps(acts: seq<Action>, t: WriterId)
    requires Exec(acts).Some? && t in Exec(acts).value.writers
    requires Exec(acts).value.writers[t].ControlTry? || Exec(acts).value.writers[t].ControlWait?
    ensures var s := Exec(acts).value;
            && (HasRoom(s) ==> Enabled(s, Enqueue(t)))
            && (s.closed ==> Enabled(s, GiveUp(t)))
            && (!HasRoom(s) && !s.closed ==>
                  if s.writers[t].ControlTry?
                  then && Enabled(s, FindFull(t))
                       && Next(s, FindFull(t)) == s.(writers := s.writers[t := ControlWait(s.writers[t].frame)])
                  else Enabled(s, TimeOut(t)) && Next(s, TimeOut(t)).closed && t !in Next(s, TimeOut(t)).writers)
  {
  }

  /** On a closed connection every writer can leave by its own steps. */
  lemma {:induction false} ClosedWritersLeave(acts: seq<Action>, t: WriterId) returns (all: seq<Action>)
    requires Exec(acts).Some? && Exec(acts).value.closed && t in Exec(acts).value.writers
    ensures Exec(all).Some? && acts <= all && |all| <= |acts| + 2 && t !in Exec(all).value.writers
    ensures forall k :: |acts| <= k < |all| ==> StepOf(all[k], t)
  {
    var s := Exec(acts).value;
    if s.writers[t].AudioRequeue? {
      var a := if HasRoom(s) then Requeue(t) else Jam(t);
      OneMore(acts, a);
      all := acts + [a];
      if a.Requeue? {
        OneMore(all, GiveUp(t));
        all := all + [GiveUp(t)];
      }
    } else {
      OneMore(acts, GiveUp(t));
      all := acts + [GiveUp(t)];
    }
  }

  /** So can every writer once the connection is closed on it, or a write has failed. */
  lemma {:induction false} ClosingReleasesWriters(acts: seq<Action>, t: WriterId, closing: Action)
    returns (all: seq<Action>)
    requires Exec(acts).Some? && t in Exec(acts).value.writers
    requires closing == CloseConn || (closing == WriteFailed && Exec(acts).value.drainer.Writing?)
    ensures Exec(all).Some? && acts + [closing] <= all && |all| <= |acts| + 3 && t !in Exec(all).value.writers
    ensures forall k :: |acts| < k < |all| ==> StepOf(all[k], t)
  {
    OneMore(acts, closing);
    all := ClosedWritersLeave(acts + [closing], t);
  }

  // ---------------------------------------------------------------- the drainer works while the connection is open

  lemma {:induction false} DrainerLives(acts: seq<Action>)
    requires Exec(acts).Some? && !Exec(acts).value.closed
    ensures !Exec(acts).value.drainer.Exited?
  {
    if acts != [] {
      var n := |acts| - 1;
      if !Exec(acts[..n]).value.closed {
        DrainerLives(acts[..n]);
      } else {
        ClosedStays(Exec(acts[..n]).value, acts[n]);
      }
    }
  }

  /** In every reachable state with an open connection: the drainer's own steps, if its writes succeed, write out
      the frame in its hand and the whole queue, in order. */
  lemma {:induction false} QueueIsWritten(acts: seq<Action>) returns (all: seq<Action>)
    requires Exec(acts).Some? && !Exec(acts).value.closed
    ensures var s := Exec(acts).value;
            var hand := if s.drainer.Writing? then [s.drainer.frame] else [];
            Exec(all) == Some(s.(queue := [], drainer := Receiving, written := s.written + hand + s.queue))
  {
    DrainerLives(acts);
    var s := Exec(acts).value;
    if s.drainer.Writing? {
      OneMore(acts, WriteDone);
      all := DrainAll(acts + [WriteDone]);
    } else {
      all := DrainAll(acts);
      assert s.written + [] == s.written;
    }
  }
}
