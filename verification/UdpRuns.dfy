/** The UDP server over whole runs: any interleaving of mints, attaches, detaches, received datagrams,
    sends, sweeps, with any clock readings. Every mint draws a fresh token; a peer may be minted a new one
    at any time. */
module UdpRuns {
  import opened Wrappers
  import opened Wire
  import opened UdpServer

  datatype Acceptance = Acceptance(peer: PeerId, token: Token, addr: Addr)

  /** The server with its history: who every token was minted for, and every hello ever accepted. */
  datatype World = World(s: State, minted: map<Token, PeerId>, accepted: set<Acceptance>)

  const INITIAL_RUN := World(INITIAL, map[], {})

  datatype Action =
    | MintFor(peer: PeerId, token: Token)
    | AttachIt(peer: PeerId)
    | DetachIt(peer: PeerId)
    | Receive(pkt: seq<byte>, src: Addr, allowed: bool, now: int)
    | SendAudio(peer: PeerId, frame: seq<byte>, now: int)
    | SweepAt(now: int)

  /** Tokens are fresh, and a frame handed to a sender is one the relay has unpacked before. */
  predicate Enabled(w: World, a: Action) {
    match a
    case MintFor(_, token) => token !in w.minted
    case SendAudio(_, frame, _) => ParseAudio(frame).Ok?
    case _ => true
  }

  /** The hello step a binds an endpoint. */
  predicate Accepts(s: State, a: Action) {
    && a.Receive? && |a.pkt| > 0 && a.pkt[0] == UDP_HELLO_TYPE
    && HandleHello(s, a.pkt, a.src, a.allowed, a.now).1 == Bound
  }

  function AcceptedBy(s: State, a: Action): Acceptance
    requires Accepts(s, a)
  {
    var h := ParseHello(a.pkt).value;
    Acceptance(h.peer, h.token, a.src)
  }

  /** One pass of the read loop: dispatch on the type byte. Yields what is written back to the source. */
  function ReadOne(s: State, pkt: seq<byte>, src: Addr, allowed: bool, now: int): (State, Option<seq<byte>>) {
    if |pkt| < 1 then (s, None)
    else if pkt[0] == AUDIO_FRAME_TYPE then (HandleAudio(s, pkt, src, allowed, now).0, None)
    else if pkt[0] == UDP_HELLO_TYPE then
      var (s', outcome) := HandleHello(s, pkt, src, allowed, now);
      (s', if outcome == Bound then Some(PeerFrameBytes(UDP_WELCOME_TYPE, ParseHello(pkt).value.peer)) else None)
    else if pkt[0] == UDP_PING_TYPE then
      var (s', pong) := HandlePing(s, pkt, src, now);
      (s', if pong then Some(PeerFrameBytes(UDP_PONG_TYPE, ParsePing(pkt).value)) else None)
    else (s, None)
  }

  function StateAfter(s: State, a: Action): State {
    match a
    case MintFor(p, token) => Mint(s, p, token)
    case AttachIt(p) => Attach(s, p)
    case DetachIt(p) => Detach(s, p)
    case Receive(pkt, src, allowed, now) => ReadOne(s, pkt, src, allowed, now).0
    case SendAudio(p, _, now) => CheckSender(s, p, now).0
    case SweepAt(now) => ExpireIdle(s, now)
  }

  function Next(w: World, a: Action): World {
    World(StateAfter(w.s, a),
          if a.MintFor? then w.minted[a.token := a.peer] else w.minted,
          if Accepts(w.s, a) then w.accepted + {AcceptedBy(w.s, a)} else w.accepted)
  }

  /** What the server puts on the network in this step: at most one datagram, as (payload, destination). */
  function Emits(s: State, a: Action): Option<(seq<byte>, Addr)> {
    match a
    case Receive(pkt, src, allowed, now) =>
      (match ReadOne(s, pkt, src, allowed, now).1
       case None => None
       case Some(reply) => Some((reply, src)))
    case SendAudio(p, frame, now) =>
      (match CheckSender(s, p, now).1
       case None => None
       case Some(addr) => Some((frame, addr)))
    case _ => None
  }

  // ---------------------------------------------------------------- the invariant

  /** Tokens in force were minted for the peer they are in force for; so was every accepted one. */
  ghost predicate TokensMinted(w: World) {
    && (forall p :: p in w.s.tokenById ==> w.s.tokenById[p] in w.minted && w.minted[w.s.tokenById[p]] == p)
    && (forall x :: x in w.accepted ==> x.token in w.minted && w.minted[x.token] == x.peer)
  }

  /** A token that is still in force and was once accepted is held by a binding at that very endpoint. */
  ghost predicate UsedTokenIsBound(s: State, x: Acceptance) {
    x.peer in s.tokenById && s.tokenById[x.peer] == x.token ==>
      && x.peer in s.udpAddr && s.udpAddr[x.peer] == x.addr
      && x.addr in s.peerByAddr && s.peerByAddr[x.addr].token == x.token
  }

  ghost predicate OneEndpoint(w: World) {
    forall x, y :: x in w.accepted && y in w.accepted && x.token == y.token ==> x == y
  }

  ghost predicate Inv(w: World) {
    && Bijection(w.s) && TokensMinted(w) && OneEndpoint(w)
    && (forall x :: x in w.accepted ==> UsedTokenIsBound(w.s, x))
  }

  /** No step that accepts nothing brings a used token back into force without its binding. */
  lemma StepKeepsUsed(w: World, a: Action, x: Acceptance)
    requires Inv(w) && Enabled(w, a) && x in w.accepted && !Accepts(w.s, a)
    ensures UsedTokenIsBound(Next(w, a).s, x)
  {
    assert UsedTokenIsBound(w.s, x);
  }

  lemma AcceptanceIsConsistent(w: World, a: Action, x: Acceptance)
    requires Inv(w) && Accepts(w.s, a) && x in w.accepted
    ensures x.token == AcceptedBy(w.s, a).token ==> x == AcceptedBy(w.s, a)
    ensures UsedTokenIsBound(Next(w, a).s, x) && UsedTokenIsBound(Next(w, a).s, AcceptedBy(w.s, a))
  {
    assert UsedTokenIsBound(w.s, x);
  }

  lemma StepKeepsMinted(w: World, a: Action)
    requires Inv(w) && Enabled(w, a)
    ensures TokensMinted(Next(w, a))
  {
  }

  lemma StepKeepsBijection(s: State, a: Action)
    requires Bijection(s)
    ensures Bijection(StateAfter(s, a))
  {
    match a
    case MintFor(p, token) => HandlersKeepBijection(s, p, token, [], 0, false, 0);
    case AttachIt(p) =>
    case DetachIt(p) => RemovalsKeepBijection(s, p, 0);
    case Receive(pkt, src, allowed, now) =>
      var anyone: PeerId, anything: Token := *, *;
      HandlersKeepBijection(s, anyone, anything, pkt, src, allowed, now);
    case SendAudio(p, _, now) => RemovalsKeepBijection(s, p, now);
    case SweepAt(now) => SweepKeepsBijection(s, now);
  }

  lemma KeepsInv(w: World, a: Action)
    requires Inv(w) && Enabled(w, a)
    ensures Inv(Next(w, a))
  {
    StepKeepsBijection(w.s, a);
    StepKeepsMinted(w, a);
    forall x | x in Next(w, a).accepted ensures UsedTokenIsBound(Next(w, a).s, x) {
      if !Accepts(w.s, a) {
        StepKeepsUsed(w, a, x);
      } else if x in w.accepted {
        AcceptanceIsConsistent(w, a, x);
      } else {
        assert x == AcceptedBy(w.s, a);
      }
    }
    forall x, y | x in Next(w, a).accepted && y in Next(w, a).accepted && x.token == y.token ensures x == y {
      if Accepts(w.s, a) {
        if x in w.accepted {
          AcceptanceIsConsistent(w, a, x);
        }
        if y in w.accepted {
          AcceptanceIsConsistent(w, a, y);
        }
      }
    }
  }

  // ---------------------------------------------------------------- runs

  ghost function Exec(acts: seq<Action>): Option<World> {
    if acts == [] then Some(INITIAL_RUN)
    else
      var n := |acts| - 1;
      match Exec(acts[..n])
      case None => None
      case Some(w) => if Enabled(w, acts[n]) then Some(Next(w, acts[n])) else None
  }

  lemma {:induction false} RunsKeepInv(acts: seq<Action>)
    requires Exec(acts).Some?
    ensures Inv(Exec(acts).value)
  {
    if acts != [] {
      var n := |acts| - 1;
      RunsKeepInv(acts[..n]);
      KeepsInv(Exec(acts[..n]).value, acts[n]);
    }
  }

  /** The server accepts this hello at step k of the run. */
  ghost predicate AcceptsAt(acts: seq<Action>, k: nat, x: Acceptance) {
    && k < |acts| && Exec(acts[..k]).Some?
    && var s := Exec(acts[..k]).value.s; Accepts(s, acts[k]) && AcceptedBy(s, acts[k]) == x
  }

  /** The history records exactly the acceptances of the run. */
  lemma {:induction false} HistoryIsTheRun(acts: seq<Action>, x: Acceptance)
    requires Exec(acts).Some?
    ensures x in Exec(acts).value.accepted <==> exists k :: AcceptsAt(acts, k, x)
  {
    if acts != [] {
      var n := |acts| - 1;
      var before := acts[..n];
      HistoryIsTheRun(before, x);
      forall k: nat | k < n ensures AcceptsAt(acts, k, x) <==> AcceptsAt(before, k, x) {
        assert before[..k] == acts[..k];
      }
      if x in Exec(acts).value.accepted && x !in Exec(before).value.accepted {
        assert AcceptsAt(acts, n, x);
      }
    }
  }

  /** One token, one endpoint: over a whole run, two accepted hellos that carry the same token name the
      same peer and come from the same address, whatever was lost, swept, detached or re-minted between. */
  lemma OneTokenOneEndpoint(acts: seq<Action>, i: nat, j: nat, x: Acceptance, y: Acceptance)
    requires Exec(acts).Some? && AcceptsAt(acts, i, x) && AcceptsAt(acts, j, y)
    requires x.token == y.token
    ensures x == y
  {
    RunsKeepInv(acts);
    HistoryIsTheRun(acts, x);
    HistoryIsTheRun(acts, y);
  }

  /** A hello with a token that was accepted before is accepted again (its welcome may have been lost)
      exactly when it is not rate limited, the token is still in force and it comes from the same address. */
  lemma RetriesOnlyFromTheSameEndpoint(w: World, x: Acceptance, pkt: seq<byte>, src: Addr, allowed: bool, now: int)
    requires Inv(w) && x in w.accepted
    requires ParseHello(pkt) == Ok(Hello(x.peer, x.token))
    ensures HandleHello(w.s, pkt, src, allowed, now).1 == Bound <==>
            allowed && src == x.addr && x.peer in w.s.tokenById && w.s.tokenById[x.peer] == x.token
  {
    assert UsedTokenIsBound(w.s, x);
  }

  /** A lease that is lost is lost with its token: once the binding that an acceptance made is gone or
      holds another token, no later hello with that token is accepted. */
  lemma LostLeaseCannotBeRetaken(w: World, x: Acceptance, pkt: seq<byte>, src: Addr, allowed: bool, now: int)
    requires Inv(w) && x in w.accepted
    requires x.addr !in w.s.peerByAddr || w.s.peerByAddr[x.addr].token != x.token
    requires ParseHello(pkt).Ok? && ParseHello(pkt).value.token == x.token
    ensures HandleHello(w.s, pkt, src, allowed, now).1 != Bound
  {
    assert UsedTokenIsBound(w.s, x);
  }

  // ---------------------------------------------------------------- a peer that is heard stays bound

  /** p's endpoint is a, and it was heard from at `since` or later. */
  ghost predicate HeardSince(s: State, p: PeerId, a: Addr, since: int) {
    && p in s.udpAddr && s.udpAddr[p] == a
    && a in s.peerByAddr && s.peerByAddr[a].peer == p && s.peerByAddr[a].lastSeen >= since
  }

  /** The step does not detach p and reads the clock, if it reads it, between `since` and the timeout. */
  predicate Within(a: Action, p: PeerId, since: int) {
    match a
    case DetachIt(q) => q != p
    case Receive(_, _, _, now) => since <= now < since + PEER_IDLE_TIMEOUT
    case SendAudio(_, _, now) => since <= now < since + PEER_IDLE_TIMEOUT
    case SweepAt(now) => since <= now < since + PEER_IDLE_TIMEOUT
    case _ => true
  }

  lemma StepKeepsHeard(s: State, act: Action, p: PeerId, a: Addr, since: int)
    requires Bijection(s) && HeardSince(s, p, a, since) && Within(act, p, since)
    ensures HeardSince(StateAfter(s, act), p, a, since)
  {
  }

  /** Once a peer has been heard from its endpoint, nothing that happens within the timeout (other peers'
      hellos, sweeps, sends, re-mints, even more hellos of its own) takes the endpoint away, short of its
      own detach: sends to it go over UDP. */
  lemma {:induction false} HeardPeerStaysBound(acts: seq<Action>, more: seq<Action>, p: PeerId, a: Addr,
                                             since: int, now: int)
    requires Exec(acts).Some? && HeardSince(Exec(acts).value.s, p, a, since)
    requires Exec(acts + more).Some? && forall i :: 0 <= i < |more| ==> Within(more[i], p, since)
    requires now < since + PEER_IDLE_TIMEOUT
    ensures HeardSince(Exec(acts + more).value.s, p, a, since)
    ensures CheckSender(Exec(acts + more).value.s, p, now).1 == Some(a)
    decreases |more|
  {
    if more == [] {
      assert acts + more == acts;
    } else {
      var n := |more| - 1;
      assert (acts + more)[..|acts + more| - 1] == acts + more[..n];
      assert (acts + more)[|acts + more| - 1] == more[n];
      HeardPeerStaysBound(acts, more[..n], p, a, since, now);
      RunsKeepInv(acts + more[..n]);
      StepKeepsHeard(Exec(acts + more[..n]).value.s, more[n], p, a, since);
    }
  }

  // ---------------------------------------------------------------- what a datagram does, in every reachable state

  lemma OneMore(acts: seq<Action>, a: Action)
    requires Exec(acts).Some? && Enabled(Exec(acts).value, a)
    ensures Exec(acts + [a]) == Some(Next(Exec(acts).value, a))
  {
    assert (acts + [a])[..|acts|] == acts;
  }

  predicate IsPingOf(pkt: seq<byte>, p: PeerId) {
    |pkt| == UDP_PING_SIZE && pkt[0] == UDP_PING_TYPE && pkt[4..20] == p
  }

  predicate IsAudioOf(pkt: seq<byte>, p: PeerId) {
    ParseAudio(pkt).Ok? && pkt[4..20] == p
  }

  /** A ping of a bound peer from its endpoint is heard, and answered with that peer's pong and nothing else. */
  lemma {:induction false} PingIsHeardAndAnswered(acts: seq<Action>, p: PeerId, pkt: seq<byte>, src: Addr,
                                                  allowed: bool, now: int)
    requires Exec(acts).Some?
    requires var s := Exec(acts).value.s; p in s.udpAddr && s.udpAddr[p] == src && IsPingOf(pkt, p)
    ensures var a := Receive(pkt, src, allowed, now);
            && Exec(acts + [a]).Some? && HeardSince(Exec(acts + [a]).value.s, p, src, now)
            && Emits(Exec(acts).value.s, a) == Some((PeerFrameBytes(UDP_PONG_TYPE, p), src))
  {
    RunsKeepInv(acts);
    OneMore(acts, Receive(pkt, src, allowed, now));
  }

  /** An audio frame of a bound peer from its endpoint, within its rate, is heard, and not answered. */
  lemma {:induction false} AudioIsHeard(acts: seq<Action>, p: PeerId, pkt: seq<byte>, src: Addr, now: int)
    requires Exec(acts).Some?
    requires var s := Exec(acts).value.s; p in s.udpAddr && s.udpAddr[p] == src && IsAudioOf(pkt, p)
    ensures var a := Receive(pkt, src, true, now);
            && Exec(acts + [a]).Some? && HeardSince(Exec(acts + [a]).value.s, p, src, now)
            && Emits(Exec(acts).value.s, a) == None
            && HandleAudio(Exec(acts).value.s, pkt, src, true, now).1 == Accepted(p)
  {
    RunsKeepInv(acts);
    OneMore(acts, Receive(pkt, src, true, now));
  }

  /** An authentic hello within its rate, whose peer and source are bound to each other or both free, is heard
      and answered with that peer's welcome. */
  lemma {:induction false} HelloIsHeardAndAnswered(acts: seq<Action>, pkt: seq<byte>, src: Addr, now: int)
    requires Exec(acts).Some? && Authentic(Exec(acts).value.s, pkt)
    requires var s := Exec(acts).value.s;
             forall a :: a in s.peerByAddr ==> (s.peerByAddr[a].peer == pkt[4..20] <==> a == src)
    ensures var a := Receive(pkt, src, true, now);
            && Exec(acts + [a]).Some? && HeardSince(Exec(acts + [a]).value.s, pkt[4..20], src, now)
            && Emits(Exec(acts).value.s, a) == Some((PeerFrameBytes(UDP_WELCOME_TYPE, pkt[4..20]), src))
  {
    RunsKeepInv(acts);
    HelloAccepted(Exec(acts).value.s, pkt, src, true, now, pkt[4..20]);
    OneMore(acts, Receive(pkt, src, true, now));
  }

  /** Every other datagram leaves the server as it was and is not answered: replies go to bound peers only, and
      are no longer than what they answer. */
  lemma {:induction false} NothingElseIsHeard(acts: seq<Action>, pkt: seq<byte>, src: Addr, allowed: bool, now: int)
    requires Exec(acts).Some?
    ensures var s := Exec(acts).value.s; var a := Receive(pkt, src, allowed, now);
            && Exec(acts + [a]).Some?
            && (Exec(acts + [a]).value.s != s || Emits(s, a).Some? ==>
                  && |pkt| >= UDP_PING_SIZE
                  && var p := pkt[4..20]; var s' := Exec(acts + [a]).value.s;
                  && p in s'.udpAddr && s'.udpAddr[p] == src
                  && (Accepts(s, a)
                      || (p in s.udpAddr && s.udpAddr[p] == src
                          && (IsPingOf(pkt, p) || (allowed && IsAudioOf(pkt, p))))))
            && (Emits(s, a).Some? ==>
                  var (reply, dst) := Emits(s, a).value; dst == src && |reply| <= |pkt| && reply[4..20] == pkt[4..20])
  {
    RunsKeepInv(acts);
    OneMore(acts, Receive(pkt, src, allowed, now));
    RepliesNameTheSender(Exec(acts).value.s, pkt, src, allowed, now);
  }

  lemma RepliesNameTheSender(s: State, pkt: seq<byte>, src: Addr, allowed: bool, now: int)
    ensures var reply := ReadOne(s, pkt, src, allowed, now).1;
            reply.Some? ==> |reply.value| == UDP_PING_SIZE <= |pkt| && reply.value[4..20] == pkt[4..20]
  {
    var reply := ReadOne(s, pkt, src, allowed, now).1;
    if reply.Some? {
      assert PeerFrameBytes(UDP_WELCOME_TYPE, pkt[4..20])[4..20] == pkt[4..20];
      assert PeerFrameBytes(UDP_PONG_TYPE, pkt[4..20])[4..20] == pkt[4..20];
    }
  }

  /** A frame for a peer goes to its endpoint as it is, exactly while its lease lives. */
  lemma {:induction false} SendGoesToTheLease(acts: seq<Action>, p: PeerId, frame: seq<byte>, now: int)
    requires Exec(acts).Some? && ParseAudio(frame).Ok?
    ensures var s := Exec(acts).value.s; var a := SendAudio(p, frame, now);
            && Exec(acts + [a]).Some? && Bijection(s)
            && Emits(s, a) == match ViewOf(s, p).lease
                              case None => None
                              case Some(b) =>
                                if now - b.lastSeen < PEER_IDLE_TIMEOUT then Some((frame, b.addr)) else None
  {
    RunsKeepInv(acts);
    OneMore(acts, SendAudio(p, frame, now));
    if p in Exec(acts).value.s.udpAddr {
      assert Exec(acts).value.s.peerByAddr[Exec(acts).value.s.udpAddr[p]].addr == Exec(acts).value.s.udpAddr[p];
    }
  }

  /** From every reachable state: a peer that is attached, minted a fresh token, and says hello with it from a
      free address is bound there, if it was bound nowhere. */
  lemma {:induction false} FreshPeerBinds(acts: seq<Action>, p: PeerId, token: Token, src: Addr, now: int)
    requires Exec(acts).Some? && token !in Exec(acts).value.minted
    requires p !in Exec(acts).value.s.udpAddr && src !in Exec(acts).value.s.peerByAddr
    ensures var hello := Receive(HelloBytes(Hello(p, token)), src, true, now);
            var before := acts + [AttachIt(p)] + [MintFor(p, token)];
            && Exec(before).Some? && Exec(before + [hello]).Some?
            && HeardSince(Exec(before + [hello]).value.s, p, src, now)
            && Emits(Exec(before).value.s, hello) == Some((PeerFrameBytes(UDP_WELCOME_TYPE, p), src))
  {
    var pkt := HelloBytes(Hello(p, token));
    OneMore(acts, AttachIt(p));
    OneMore(acts + [AttachIt(p)], MintFor(p, token));
    RunsKeepInv(acts);
    assert pkt[4..20] == p && pkt[20..52] == token;
    HelloIsHeardAndAnswered(acts + [AttachIt(p)] + [MintFor(p, token)], pkt, src, now);
  }

  /** The server's own steps, peer by peer: what each of them does to any peer q in any reachable state. */
  lemma {:induction false} OwnStepsPeerByPeer(acts: seq<Action>, a: Action, q: PeerId)
    requires Exec(acts).Some? && !a.Receive? && Enabled(Exec(acts).value, a)
    ensures Exec(acts + [a]).Some? && Bijection(Exec(acts).value.s) && Bijection(Exec(acts + [a]).value.s)
    ensures var v, v' := ViewOf(Exec(acts).value.s, q), ViewOf(Exec(acts + [a]).value.s, q);
            match a
            case MintFor(p, token) => v' == if q == p then v.(token := Some(token)) else v
            case AttachIt(p) => v' == if q == p then v.(attached := true) else v
            case DetachIt(p) => v' == if q == p then View(false, None, None) else v
            case SendAudio(p, _, now) => v' == if q == p then Lapsed(v, now) else v
            case SweepAt(now) => v' == Lapsed(v, now)
  {
    RunsKeepInv(acts);
    OneMore(acts, a);
    var s := Exec(acts).value.s;
    match a
    case MintFor(p, token) => MintAndAttachViews(s, p, token, q);
    case AttachIt(p) =>
      var any: Token := *;
      MintAndAttachViews(s, p, any, q);
    case DetachIt(p) => DetachView(s, p, q);
    case SendAudio(p, _, now) => LapseViews(s, p, now, q);
    case SweepAt(now) => LapseViews(s, q, now, q);
  }

  // ---------------------------------------------------------------- a peer that keeps being heard

  /** A datagram by which the bound peer p is heard from a. */
  predicate Voice(act: Action, p: PeerId, a: Addr) {
    act.Receive? && act.src == a && (IsPingOf(act.pkt, p) || (act.allowed && IsAudioOf(act.pkt, p)))
  }

  /** When p was last heard in these steps, or `since`. */
  function LastVoice(more: seq<Action>, p: PeerId, a: Addr, since: int): int {
    if more == [] then since
    else
      var n := |more| - 1;
      if Voice(more[n], p, a) then more[n].now else LastVoice(more[..n], p, a, since)
  }

  /** Every step comes less than the timeout after p was last heard before it, and none detaches p. */
  predicate NeverSilent(more: seq<Action>, p: PeerId, a: Addr, since: int) {
    forall k :: 0 <= k < |more| ==> Within(more[k], p, LastVoice(more[..k], p, a, since))
  }

  lemma VoiceIsHeard(w: World, act: Action, p: PeerId, a: Addr, since: int)
    requires Inv(w) && HeardSince(w.s, p, a, since) && Voice(act, p, a)
    ensures HeardSince(Next(w, act).s, p, a, act.now)
  {
  }

  /** A peer that is heard again within every timeout, by a ping or by audio, stays bound to its endpoint for
      the whole run, however long, and sends to it go there. */
  lemma {:induction false} KeptAlive(acts: seq<Action>, more: seq<Action>, p: PeerId, a: Addr, since: int, now: int)
    requires Exec(acts).Some? && HeardSince(Exec(acts).value.s, p, a, since)
    requires Exec(acts + more).Some? && NeverSilent(more, p, a, since)
    requires now < LastVoice(more, p, a, since) + PEER_IDLE_TIMEOUT
    ensures HeardSince(Exec(acts + more).value.s, p, a, LastVoice(more, p, a, since))
    ensures CheckSender(Exec(acts + more).value.s, p, now).1 == Some(a)
    decreases |more|
  {
    if more == [] {
      assert acts + more == acts;
    } else {
      var n := |more| - 1;
      var before := acts + more[..n];
      assert (acts + more)[..|acts + more| - 1] == before;
      assert forall k :: 0 <= k < n ==> more[..n][..k] == more[..k];
      var last := LastVoice(more[..n], p, a, since);
      KeptAlive(acts, more[..n], p, a, since, last);
      RunsKeepInv(before);
      if Voice(more[n], p, a) {
        VoiceIsHeard(Exec(before).value, more[n], p, a, last);
      } else {
        StepKeepsHeard(Exec(before).value.s, more[n], p, a, last);
      }
    }
  }
}
