/** internal/udp/server.go: which peer may use which UDP endpoint. Tokens are minted per session, a hello
    binds its source address to the token's peer, pings and audio renew the lease, and the sweep, the
    sender and a detach take it away. Each handler's critical section is a function; the class performs
    them on its maps.

    Endpoints are compared by value. The limiters' answers and the clock are inputs. */
module UdpServer {
  import opened Wrappers
  import opened Wire

  type Addr = nat

  const PEER_IDLE_TIMEOUT := 15_000_000_000   // nanoseconds

  datatype Binding = Binding(peer: PeerId, addr: Addr, token: Token, lastSeen: int)

  /** peerByID as a set of identities, and every peer's own address field as one map. */
  datatype State = State(
    peerByAddr: map<Addr, Binding>,
    attached: set<PeerId>,
    tokenById: map<PeerId, Token>,
    udpAddr: map<PeerId, Addr>)

  const INITIAL := State(map[], {}, map[], map[])

  predicate Expired(b: Binding, now: int) {
    now - b.lastSeen >= PEER_IDLE_TIMEOUT
  }

  // ---------------------------------------------------------------- critical sections

  function Mint(s: State, p: PeerId, token: Token): State {
    s.(tokenById := s.tokenById[p := token])
  }

  function Attach(s: State, p: PeerId): State {
    s.(attached := s.attached + {p})
  }

  /** Drops the binding at address a if it is p's. */
  function Unbind(s: State, p: PeerId, a: Addr): map<Addr, Binding> {
    if a in s.peerByAddr && s.peerByAddr[a].peer == p then s.peerByAddr - {a} else s.peerByAddr
  }

  function Detach(s: State, p: PeerId): State {
    State(if p in s.udpAddr then Unbind(s, p, s.udpAddr[p]) else s.peerByAddr,
          s.attached - {p}, s.tokenById - {p}, s.udpAddr - {p})
  }

  datatype HelloOutcome = BadHello | UnknownPeer | WrongToken | RateLimited | EndpointRebind | EndpointInUse | Bound

  function HandleHello(s: State, pkt: seq<byte>, src: Addr, allowed: bool, now: int): (State, HelloOutcome) {
    match ParseHello(pkt)
    case Err(_) => (s, BadHello)
    case Ok(Hello(p, token)) =>
      if p !in s.attached || p !in s.tokenById then (s, UnknownPeer)
      else if token != s.tokenById[p] then (s, WrongToken)
      else if !allowed then (s, RateLimited)
      else if p in s.udpAddr && s.udpAddr[p] != src then (s, EndpointRebind)
      else if src in s.peerByAddr && s.peerByAddr[src].peer != p then (s, EndpointInUse)
      else (s.(udpAddr := s.udpAddr[p := src], peerByAddr := s.peerByAddr[src := Binding(p, src, token, now)]), Bound)
  }

  function Renew(s: State, src: Addr, now: int): State
    requires src in s.peerByAddr
  {
    s.(peerByAddr := s.peerByAddr[src := s.peerByAddr[src].(lastSeen := now)])
  }

  /** Whether a pong is sent. */
  function HandlePing(s: State, pkt: seq<byte>, src: Addr, now: int): (State, bool) {
    match ParsePing(pkt)
    case Err(_) => (s, false)
    case Ok(p) =>
      if src !in s.peerByAddr || s.peerByAddr[src].peer != p then (s, false)
      else (Renew(s, src, now), true)
  }

  datatype AudioOutcome = UnknownSource | AudioRateLimited | BadAudio | SpoofedPeer | Accepted(peer: PeerId)

  function HandleAudio(s: State, pkt: seq<byte>, src: Addr, allowed: bool, now: int): (State, AudioOutcome) {
    if src !in s.peerByAddr then (s, UnknownSource)
    else if !allowed then (s, AudioRateLimited)
    else match ParseAudio(pkt)
      case Err(_) => (s, BadAudio)
      case Ok(f) =>
        if f.header.source != s.peerByAddr[src].peer then (s, SpoofedPeer)
        else (Renew(s, src, now), Accepted(s.peerByAddr[src].peer))
  }

  /** The locked part of a peer's UDP sender: the address to write to, or none for the WebSocket. */
  function CheckSender(s: State, p: PeerId, now: int): (State, Option<Addr>) {
    if p !in s.udpAddr then (s, None)
    else
      var a := s.udpAddr[p];
      if a in s.peerByAddr && s.peerByAddr[a].peer == p && !Expired(s.peerByAddr[a], now) then (s, Some(a))
      else
        (State(Unbind(s, p, a), s.attached,
               if p in s.tokenById && a in s.peerByAddr && s.tokenById[p] == s.peerByAddr[a].token
               then s.tokenById - {p} else s.tokenById,
               s.udpAddr - {p}),
         None)
  }

  /** The peer's own endpoint is one whose lease has run out. */
  predicate LeaseOver(s: State, p: PeerId, now: int) {
    p in s.udpAddr && s.udpAddr[p] in s.peerByAddr
    && var b := s.peerByAddr[s.udpAddr[p]]; b.peer == p && Expired(b, now)
  }

  /** The sweep once all bindings but those in `todo` have been visited: expired ones are gone, with the
      endpoint and the token they gave. */
  function SweptExcept(s: State, todo: set<Addr>, now: int): State {
    State(
      map a | a in s.peerByAddr && (a in todo || !Expired(s.peerByAddr[a], now)) :: s.peerByAddr[a],
      s.attached,
      map p | p in s.tokenById
              && !(LeaseOver(s, p, now) && s.udpAddr[p] !in todo && s.tokenById[p] == s.peerByAddr[s.udpAddr[p]].token)
           :: s.tokenById[p],
      map p | p in s.udpAddr && !(LeaseOver(s, p, now) && s.udpAddr[p] !in todo) :: s.udpAddr[p])
  }

  function ExpireIdle(s: State, now: int): State {
    SweptExcept(s, {}, now)
  }

  // ---------------------------------------------------------------- the maps stay a bijection

  ghost predicate AddrsMatchKeys(s: State) {
    forall a :: a in s.peerByAddr ==> s.peerByAddr[a].addr == a
  }

  /** The address map sends a to p's binding exactly when p's address is a, and bound peers are
      attached. */
  ghost predicate Bijection(s: State) {
    && AddrsMatchKeys(s)
    && (forall a :: a in s.peerByAddr ==>
          var p := s.peerByAddr[a].peer; p in s.attached && p in s.udpAddr && s.udpAddr[p] == a)
    && (forall p :: p in s.udpAddr ==> s.udpAddr[p] in s.peerByAddr && s.peerByAddr[s.udpAddr[p]].peer == p)
  }

  lemma BindingKeepsBijection(s: State, p: PeerId, src: Addr, b: Binding)
    requires Bijection(s) && p in s.attached && b.peer == p && b.addr == src
    requires p in s.udpAddr ==> s.udpAddr[p] == src
    requires src in s.peerByAddr ==> s.peerByAddr[src].peer == p
    ensures Bijection(s.(udpAddr := s.udpAddr[p := src], peerByAddr := s.peerByAddr[src := b]))
  {
  }

  lemma RenewKeepsBijection(s: State, src: Addr, now: int)
    requires Bijection(s) && src in s.peerByAddr
    ensures Bijection(Renew(s, src, now))
  {
  }

  lemma HandlersKeepBijection(s: State, p: PeerId, token: Token, pkt: seq<byte>, src: Addr, allowed: bool, now: int)
    requires Bijection(s)
    ensures Bijection(Mint(s, p, token)) && Bijection(Attach(s, p))
    ensures Bijection(HandleHello(s, pkt, src, allowed, now).0)
    ensures Bijection(HandlePing(s, pkt, src, now).0)
    ensures Bijection(HandleAudio(s, pkt, src, allowed, now).0)
  {
    if src in s.peerByAddr {
      RenewKeepsBijection(s, src, now);
    }
    if HandleHello(s, pkt, src, allowed, now).1 == Bound {
      var h := ParseHello(pkt).value;
      BindingKeepsBijection(s, h.peer, src, Binding(h.peer, src, h.token, now));
    }
  }

  lemma SweepKeepsBijection(s: State, now: int)
    requires Bijection(s)
    ensures Bijection(ExpireIdle(s, now))
  {
  }

  lemma RemovalsKeepBijection(s: State, p: PeerId, now: int)
    requires Bijection(s)
    ensures Bijection(Detach(s, p)) && Bijection(CheckSender(s, p, now).0) && Bijection(ExpireIdle(s, now))
  {
    SweepKeepsBijection(s, now);
  }

  // ---------------------------------------------------------------- what is accepted

  /** The packet carries the token in force for an attached peer. */
  predicate Authentic(s: State, pkt: seq<byte>) {
    && |pkt| == UDP_HELLO_SIZE && pkt[0] == UDP_HELLO_TYPE
    && pkt[4..20] in s.attached && pkt[4..20] in s.tokenById && s.tokenById[pkt[4..20]] == pkt[20..52]
  }

  /** A hello binds exactly when it is authentic, within its rate, and its peer and its source address are
      bound to each other or both free; the limiter is asked about authentic peers only; every refusal
      leaves the state alone; and an acceptance touches no other peer. */
  lemma HelloAccepted(s: State, pkt: seq<byte>, src: Addr, allowed: bool, now: int, q: PeerId)
    requires Bijection(s)
    ensures var (s', outcome) := HandleHello(s, pkt, src, allowed, now);
            && (outcome == Bound <==>
                  && Authentic(s, pkt) && allowed
                  && (forall a :: a in s.peerByAddr ==> (s.peerByAddr[a].peer == pkt[4..20] <==> a == src)))
            && (!Authentic(s, pkt) ==> HandleHello(s, pkt, src, true, now) == HandleHello(s, pkt, src, false, now))
            && (outcome != Bound ==> s' == s)
            && (outcome == Bound ==>
                  && s'.udpAddr[pkt[4..20]] == src
                  && s'.peerByAddr[src] == Binding(pkt[4..20], src, pkt[20..52], now)
                  && s'.attached == s.attached && s'.tokenById == s.tokenById
                  && (q != pkt[4..20] ==>
                        && (q in s'.udpAddr <==> q in s.udpAddr)
                        && (q in s.udpAddr ==>
                              && s'.udpAddr[q] == s.udpAddr[q]
                              && s'.peerByAddr[s.udpAddr[q]] == s.peerByAddr[s.udpAddr[q]])))
  {
  }

  /** When the peer at a's lease was last renewed. */
  function LastSeen(s: State, p: PeerId): int
    requires Bijection(s) && p in s.udpAddr
  {
    s.peerByAddr[s.udpAddr[p]].lastSeen
  }

  /** The peer, seen from its own side, is heard from: the datagram came from its endpoint and names it. */
  predicate Hears(s: State, p: PeerId, pkt: seq<byte>, src: Addr) {
    p in s.udpAddr && s.udpAddr[p] == src && |pkt| >= 20 && pkt[4..20] == p
  }

  /** A ping or an audio frame renews a bound peer's lease exactly when it is well formed, comes from that
      peer's endpoint and names that peer; it moves no other peer's lease, and no endpoint or token. A pong
      goes out exactly when some peer's lease was renewed, and audio is accepted for that peer alone. */
  lemma OnlyTheBoundPeerRenews(s: State, pkt: seq<byte>, src: Addr, allowed: bool, now: int, p: PeerId)
    requires Bijection(s) && p in s.udpAddr
    ensures var (s', pong) := HandlePing(s, pkt, src, now);
            var ping := |pkt| == UDP_PING_SIZE && pkt[0] == UDP_PING_TYPE;
            && Bijection(s') && s'.udpAddr == s.udpAddr && s'.tokenById == s.tokenById
            && LastSeen(s', p) == (if ping && Hears(s, p, pkt, src) then now else LastSeen(s, p))
            && (pong <==> ping && exists q :: Hears(s, q, pkt, src))
    ensures var (s', outcome) := HandleAudio(s, pkt, src, allowed, now);
            var audio := allowed && ParseAudio(pkt).Ok?;
            && Bijection(s') && s'.udpAddr == s.udpAddr && s'.tokenById == s.tokenById
            && LastSeen(s', p) == (if audio && Hears(s, p, pkt, src) then now else LastSeen(s, p))
            && (outcome == Accepted(p) <==> audio && Hears(s, p, pkt, src))
  {
    if src in s.peerByAddr {
      RenewKeepsBijection(s, src, now);
      RenewMovesOne(s, src, now, p);
      assert |pkt| >= 20 ==> (Hears(s, pkt[4..20], pkt, src) <==> s.peerByAddr[src].peer == pkt[4..20]);
    }
  }

  lemma RenewMovesOne(s: State, src: Addr, now: int, p: PeerId)
    requires Bijection(s) && src in s.peerByAddr && Bijection(Renew(s, src, now)) && p in s.udpAddr
    ensures LastSeen(Renew(s, src, now), p) == if s.udpAddr[p] == src then now else LastSeen(s, p)
    ensures s.udpAddr[p] == src <==> s.peerByAddr[src].peer == p
  {
  }

  /** After a detach the peer has no session, token, address or binding; everybody else keeps theirs. */
  lemma DetachIsExact(s: State, p: PeerId, q: PeerId, a: Addr)
    requires Bijection(s) && q != p
    ensures var s' := Detach(s, p);
            && p !in s'.attached && p !in s'.tokenById && p !in s'.udpAddr
            && (a in s'.peerByAddr <==> a in s.peerByAddr && s.peerByAddr[a].peer != p)
            && (a in s'.peerByAddr ==> s'.peerByAddr[a] == s.peerByAddr[a])
            && (q in s'.attached <==> q in s.attached)
            && (q in s'.tokenById <==> q in s.tokenById) && (q in s.tokenById ==> s'.tokenById[q] == s.tokenById[q])
            && (q in s'.udpAddr <==> q in s.udpAddr) && (q in s.udpAddr ==> s'.udpAddr[q] == s.udpAddr[q])
  {
  }

  // ---------------------------------------------------------------- leases

  /** After a sweep every remaining lease is younger than the timeout and none of those was touched; a
      removed one was at least that old, and its peer lost its endpoint and the token that gave it. */
  lemma SweepIsExact(s: State, now: int, a: Addr)
    requires Bijection(s) && a in s.peerByAddr
    ensures var s' := ExpireIdle(s, now); var b := s.peerByAddr[a];
            if now - b.lastSeen < PEER_IDLE_TIMEOUT
            then && a in s'.peerByAddr && s'.peerByAddr[a] == b
                 && b.peer in s'.udpAddr && s'.udpAddr[b.peer] == a
                 && (b.peer in s.tokenById ==> b.peer in s'.tokenById && s'.tokenById[b.peer] == s.tokenById[b.peer])
            else && a !in s'.peerByAddr && b.peer !in s'.udpAddr
                 && (b.peer in s'.tokenById ==>
                       b.peer in s.tokenById && s'.tokenById[b.peer] == s.tokenById[b.peer] != b.token)
    ensures forall c :: c in ExpireIdle(s, now).peerByAddr ==>
              c in s.peerByAddr && now - ExpireIdle(s, now).peerByAddr[c].lastSeen < PEER_IDLE_TIMEOUT
  {
    assert s.udpAddr[s.peerByAddr[a].peer] == a;
  }

  /** The sender either uses a live lease and changes nothing, or leaves the peer with no binding, no
      address and no token that the lost binding was made with; other peers are untouched. */
  lemma SenderUsesLiveLeaseOrFallsBack(s: State, p: PeerId, now: int, q: PeerId)
    requires Bijection(s) && q != p
    ensures var (s', target) := CheckSender(s, p, now);
            && (target.Some? <==> p in s.udpAddr && now - s.peerByAddr[s.udpAddr[p]].lastSeen < PEER_IDLE_TIMEOUT)
            && (target.Some? ==> s' == s && target.value == s.udpAddr[p] && s.peerByAddr[target.value].peer == p)
            && (target.None? ==>
                  && p !in s'.udpAddr
                  && (forall a :: a in s'.peerByAddr ==> s'.peerByAddr[a].peer != p)
                  && (p in s.udpAddr && p in s'.tokenById ==> s'.tokenById[p] != s.peerByAddr[s.udpAddr[p]].token))
            && (q in s'.udpAddr <==> q in s.udpAddr)
            && (q in s.udpAddr ==>
                             s'.udpAddr[q] == s.udpAddr[q] && s'.peerByAddr[s.udpAddr[q]] == s.peerByAddr[s.udpAddr[q]])
            && (q in s'.tokenById <==> q in s.tokenById)
  {
  }

  // ---------------------------------------------------------------- peer by peer

  /** All that the server has about one peer. */
  datatype View = View(attached: bool, token: Option<Token>, lease: Option<Binding>)

  function ViewOf(s: State, p: PeerId): View
    requires Bijection(s)
  {
    View(p in s.attached,
         if p in s.tokenById then Some(s.tokenById[p]) else None,
         if p in s.udpAddr then Some(s.peerByAddr[s.udpAddr[p]]) else None)
  }

  /** There is nothing else in the state. */
  lemma ViewsAreAll(s: State, t: State)
    requires Bijection(s) && Bijection(t) && forall p :: ViewOf(s, p) == ViewOf(t, p)
    ensures s == t
  {
    forall p ensures p in s.attached <==> p in t.attached {
      assert ViewOf(s, p) == ViewOf(t, p);
    }
    forall p ensures p in s.tokenById <==> p in t.tokenById {
      assert ViewOf(s, p) == ViewOf(t, p);
    }
    forall p | p in s.tokenById ensures s.tokenById[p] == t.tokenById[p] {
      assert ViewOf(s, p) == ViewOf(t, p);
    }
    LeasesAreAll(s, t);
    LeasesAreAll(t, s);
    assert s.udpAddr == t.udpAddr && s.peerByAddr == t.peerByAddr;
  }

  lemma LeasesAreAll(s: State, t: State)
    requires Bijection(s) && Bijection(t) && forall p :: ViewOf(s, p) == ViewOf(t, p)
    ensures forall p :: p in s.udpAddr ==> p in t.udpAddr && t.udpAddr[p] == s.udpAddr[p]
    ensures forall a :: a in s.peerByAddr ==> a in t.peerByAddr && t.peerByAddr[a] == s.peerByAddr[a]
  {
    forall p | p in s.udpAddr ensures p in t.udpAddr && t.udpAddr[p] == s.udpAddr[p] {
      assert ViewOf(s, p) == ViewOf(t, p);
      assert s.peerByAddr[s.udpAddr[p]].addr == s.udpAddr[p];
      assert t.peerByAddr[t.udpAddr[p]].addr == t.udpAddr[p];
    }
    forall a | a in s.peerByAddr ensures a in t.peerByAddr && t.peerByAddr[a] == s.peerByAddr[a] {
      var p := s.peerByAddr[a].peer;
      assert ViewOf(s, p) == ViewOf(t, p) && s.udpAddr[p] == a;
    }
  }

  /** A mint replaces one peer's token, and an attach attaches one peer; nothing else moves. */
  lemma MintAndAttachViews(s: State, p: PeerId, token: Token, q: PeerId)
    requires Bijection(s)
    ensures Bijection(Mint(s, p, token)) && Bijection(Attach(s, p))
    ensures ViewOf(Mint(s, p, token), q) == if q == p then ViewOf(s, q).(token := Some(token)) else ViewOf(s, q)
    ensures ViewOf(Attach(s, p), q) == if q == p then ViewOf(s, q).(attached := true) else ViewOf(s, q)
  {
  }

  lemma DetachView(s: State, p: PeerId, q: PeerId)
    requires Bijection(s)
    ensures Bijection(Detach(s, p))
    ensures ViewOf(Detach(s, p), q) == if q == p then View(false, None, None) else ViewOf(s, q)
  {
  }

  /** An accepted hello gives its peer a lease made with its token, now, and moves nothing else. */
  lemma HelloView(s: State, pkt: seq<byte>, src: Addr, allowed: bool, now: int, q: PeerId)
    requires Bijection(s)
    ensures var (s', outcome) := HandleHello(s, pkt, src, allowed, now);
            && Bijection(s')
            && ViewOf(s', q) == if outcome == Bound && q == pkt[4..20]
                                then ViewOf(s, q).(lease := Some(Binding(q, src, pkt[20..52], now)))
                                else ViewOf(s, q)
  {
    if HandleHello(s, pkt, src, allowed, now).1 == Bound {
      BindingKeepsBijection(s, pkt[4..20], src, Binding(pkt[4..20], src, pkt[20..52], now));
    }
  }

  /** A renewal moves the clock of one lease. */
  lemma RenewView(s: State, src: Addr, now: int, q: PeerId)
    requires Bijection(s) && src in s.peerByAddr
    ensures Bijection(Renew(s, src, now))
    ensures ViewOf(Renew(s, src, now), q)
         == if q == s.peerByAddr[src].peer then ViewOf(s, q).(lease := Some(s.peerByAddr[src].(lastSeen := now)))
            else ViewOf(s, q)
  {
    RenewKeepsBijection(s, src, now);
  }

  /** What is left of a peer whose lease has run out: neither the lease nor the token that gave it. */
  function Lapsed(v: View, now: int): View {
    if v.lease.Some? && Expired(v.lease.value, now)
    then v.(lease := None, token := if v.token == Some(v.lease.value.token) then None else v.token)
    else v
  }

  /** The sweep lets every lease lapse that has run out; the sender lets that of its own peer lapse. */
  lemma LapseViews(s: State, p: PeerId, now: int, q: PeerId)
    requires Bijection(s)
    ensures Bijection(ExpireIdle(s, now)) && ViewOf(ExpireIdle(s, now), q) == Lapsed(ViewOf(s, q), now)
    ensures var (s', target) := CheckSender(s, p, now);
            && Bijection(s') && ViewOf(s', q) == (if q == p then Lapsed(ViewOf(s, q), now) else ViewOf(s, q))
            && target == match ViewOf(s', p).lease case None => None case Some(b) => Some(b.addr)
  {
    SweepKeepsBijection(s, now);
    SweepView(s, now, q);
  }

  lemma SweepView(s: State, now: int, q: PeerId)
    requires Bijection(s) && Bijection(ExpireIdle(s, now))
    ensures ViewOf(ExpireIdle(s, now), q) == Lapsed(ViewOf(s, q), now)
  {
    if q in s.udpAddr {
      assert LeaseOver(s, q, now) <==> Expired(s.peerByAddr[s.udpAddr[q]], now);
    }
  }

  /** Which refusal is reported: the first check that fails, in the handler's order. */
  lemma HelloOutcomes(s: State, pkt: seq<byte>, src: Addr, allowed: bool, now: int)
    requires Bijection(s)
    ensures var outcome := HandleHello(s, pkt, src, allowed, now).1;
            var formed := |pkt| == UDP_HELLO_SIZE && pkt[0] == UDP_HELLO_TYPE;
            && (outcome == BadHello <==> !formed)
            && (outcome == UnknownPeer <==>
                  formed && !(ViewOf(s, pkt[4..20]).attached && ViewOf(s, pkt[4..20]).token.Some?))
            && (outcome == WrongToken <==>
                  && formed && ViewOf(s, pkt[4..20]).attached && ViewOf(s, pkt[4..20]).token.Some?
                  && ViewOf(s, pkt[4..20]).token.value != pkt[20..52])
            && (outcome == RateLimited <==> Authentic(s, pkt) && !allowed)
            && (outcome == EndpointRebind <==>
                  && Authentic(s, pkt) && allowed
                  && ViewOf(s, pkt[4..20]).lease.Some? && ViewOf(s, pkt[4..20]).lease.value.addr != src)
            && (outcome == EndpointInUse <==>
                  && Authentic(s, pkt) && allowed && ViewOf(s, pkt[4..20]).lease.None?
                  && exists q :: ViewOf(s, q).lease.Some? && ViewOf(s, q).lease.value.addr == src)
  {
    forall q | ViewOf(s, q).lease.Some? && ViewOf(s, q).lease.value.addr == src
      ensures src in s.peerByAddr && s.peerByAddr[src].peer == q
    {
      assert s.peerByAddr[s.udpAddr[q]].addr == s.udpAddr[q];
    }
    if src in s.peerByAddr {
      assert ViewOf(s, s.peerByAddr[src].peer).lease == Some(s.peerByAddr[src]);
      assert s.peerByAddr[src].addr == src;
    }
  }

  /** And for audio: an unknown source first, then the rate, the frame, and the name in it. */
  lemma AudioOutcomes(s: State, pkt: seq<byte>, src: Addr, allowed: bool, now: int)
    requires Bijection(s)
    ensures var outcome := HandleAudio(s, pkt, src, allowed, now).1;
            var known := exists q :: ViewOf(s, q).lease.Some? && ViewOf(s, q).lease.value.addr == src;
            && (outcome == UnknownSource <==> !known)
            && (outcome == AudioRateLimited <==> known && !allowed)
            && (outcome == BadAudio <==> known && allowed && ParseAudio(pkt).Err?)
            && (outcome == SpoofedPeer <==> known && allowed && ParseAudio(pkt).Ok? && !Hears(s, pkt[4..20], pkt, src))
  {
    forall q | ViewOf(s, q).lease.Some? && ViewOf(s, q).lease.value.addr == src
      ensures src in s.peerByAddr && s.peerByAddr[src].peer == q
    {
      assert s.peerByAddr[s.udpAddr[q]].addr == s.udpAddr[q];
    }
    if src in s.peerByAddr {
      assert ViewOf(s, s.peerByAddr[src].peer).lease == Some(s.peerByAddr[src]);
      assert s.peerByAddr[src].addr == src;
    }
  }

  // ---------------------------------------------------------------- the class

  class Server {
    var peerByAddr: map<Addr, Binding>
    var attached: set<PeerId>
    var tokenById: map<PeerId, Token>
    var udpAddr: map<PeerId, Addr>

    function Abstract(): State
      reads this
    {
      State(peerByAddr, attached, tokenById, udpAddr)
    }

    constructor ()
      ensures Abstract() == INITIAL
    {
      peerByAddr, attached, tokenById, udpAddr := map[], {}, map[], map[];
    }

    /** A failed entropy source leaves the state alone. */
    method MintToken(p: PeerId, random: Option<Token>) returns (token: Option<Token>)
      modifies this`tokenById
      ensures token == random
      ensures Abstract() == if random.Some? then Mint(old(Abstract()), p, random.value) else old(Abstract())
    {
      if random.Some? {
        tokenById := tokenById[p := random.value];
      }
      token := random;
    }

    method AttachPeer(p: PeerId)
      modifies this`attached
      ensures Abstract() == Attach(old(Abstract()), p)
    {
      attached := attached + {p};
    }

    method DetachPeer(p: PeerId)
      modifies this
      ensures Abstract() == Detach(old(Abstract()), p)
    {
      attached := attached - {p};
      tokenById := tokenById - {p};
      if p in udpAddr {
        var a := udpAddr[p];
        if a in peerByAddr && peerByAddr[a].peer == p {
          peerByAddr := peerByAddr - {a};
        }
      }
      udpAddr := udpAddr - {p};
    }

    method OnHello(pkt: seq<byte>, src: Addr, allowed: bool, now: int) returns (outcome: HelloOutcome)
      modifies this
      ensures (Abstract(), outcome) == HandleHello(old(Abstract()), pkt, src, allowed, now)
    {
      var parsed := ParseHello(pkt);
      if parsed.Err? {
        return BadHello;
      }
      var hello := parsed.value;
      if hello.peer !in attached || hello.peer !in tokenById {
        return UnknownPeer;
      }
      var token := tokenById[hello.peer];
      if hello.token != token {
        return WrongToken;
      }
      if !allowed {
        return RateLimited;
      }
      if hello.peer in udpAddr && udpAddr[hello.peer] != src {
        return EndpointRebind;
      }
      if src in peerByAddr && peerByAddr[src].peer != hello.peer {
        return EndpointInUse;
      }
      udpAddr := udpAddr[hello.peer := src];
      peerByAddr := peerByAddr[src := Binding(hello.peer, src, token, now)];
      return Bound;
    }

    method OnPing(pkt: seq<byte>, src: Addr, now: int) returns (pong: bool)
      modifies this`peerByAddr
      ensures (Abstract(), pong) == HandlePing(old(Abstract()), pkt, src, now)
    {
      var parsed := ParsePing(pkt);
      if parsed.Err? || src !in peerByAddr || peerByAddr[src].peer != parsed.value {
        return false;
      }
      peerByAddr := peerByAddr[src := peerByAddr[src].(lastSeen := now)];
      return true;
    }

    method OnAudio(pkt: seq<byte>, src: Addr, allowed: bool, now: int) returns (outcome: AudioOutcome)
      modifies this`peerByAddr
      ensures (Abstract(), outcome) == HandleAudio(old(Abstract()), pkt, src, allowed, now)
    {
      if src !in peerByAddr {
        return UnknownSource;
      }
      var b := peerByAddr[src];
      if !allowed {
        return AudioRateLimited;
      }
      var parsed := ParseAudio(pkt);
      if parsed.Err? {
        return BadAudio;
      }
      if parsed.value.header.source != b.peer {
        return SpoofedPeer;
      }
      peerByAddr := peerByAddr[src := b.(lastSeen := now)];
      return Accepted(b.peer);
    }

    method PrepareSend(p: PeerId, now: int) returns (target: Option<Addr>)
      modifies this
      ensures (Abstract(), target) == CheckSender(old(Abstract()), p, now)
    {
      if p !in udpAddr {
        return None;
      }
      var a := udpAddr[p];
      if a !in peerByAddr || peerByAddr[a].peer != p || Expired(peerByAddr[a], now) {
        var candidate := if a in peerByAddr then Some(peerByAddr[a]) else None;
        if candidate.Some? && candidate.value.peer == p {
          peerByAddr := peerByAddr - {a};
        }
        udpAddr := udpAddr - {p};
        if p in tokenById && candidate.Some? && tokenById[p] == candidate.value.token {
          tokenById := tokenById - {p};
        }
        return None;
      }
      return Some(a);
    }

    /** The sweep as the code does it: one binding after another, in any order, deleting on the way. */
    method Sweep(now: int)
      requires AddrsMatchKeys(Abstract())
      modifies this
      ensures Abstract() == ExpireIdle(old(Abstract()), now)
    {
      ghost var s := Abstract();
      var todo := peerByAddr.Keys;
      SweepStarts(s, now);
      while todo != {}
        invariant todo <= s.peerByAddr.Keys && Abstract() == SweptExcept(s, todo, now)
        decreases |todo|
      {
        var key :| key in todo;
        SweepVisits(s, todo, key, now);
        var candidate := peerByAddr[key];
        if now - candidate.lastSeen >= PEER_IDLE_TIMEOUT {
          peerByAddr := peerByAddr - {key};
          if candidate.peer in udpAddr && udpAddr[candidate.peer] == candidate.addr {
            udpAddr := udpAddr - {candidate.peer};
            if candidate.peer in tokenById && tokenById[candidate.peer] == candidate.token {
              tokenById := tokenById - {candidate.peer};
            }
          }
        }
        todo := todo - {key};
      }
    }
  }

  // ---------------------------------------------------------------- the sweep, binding by binding

  /** One turn of the sweep's loop. */
  function Visit(s: State, key: Addr, now: int): State
    requires key in s.peerByAddr
  {
    var b := s.peerByAddr[key];
    if !Expired(b, now) then s
    else
      var s1 := s.(peerByAddr := s.peerByAddr - {key});
      if b.peer in s.udpAddr && s.udpAddr[b.peer] == b.addr then
        s1.(udpAddr := s.udpAddr - {b.peer},
            tokenById := if b.peer in s.tokenById && s.tokenById[b.peer] == b.token
                         then s.tokenById - {b.peer} else s.tokenById)
      else s1
  }

  lemma SweepStarts(s: State, now: int)
    ensures SweptExcept(s, s.peerByAddr.Keys, now) == s
  {
    var s' := SweptExcept(s, s.peerByAddr.Keys, now);
    assert s'.peerByAddr == s.peerByAddr;
    assert s'.tokenById == s.tokenById;
    assert s'.udpAddr == s.udpAddr;
  }

  lemma SweepVisits(s: State, todo: set<Addr>, key: Addr, now: int)
    requires AddrsMatchKeys(s) && key in todo && todo <= s.peerByAddr.Keys
    ensures key in SweptExcept(s, todo, now).peerByAddr
    ensures Visit(SweptExcept(s, todo, now), key, now) == SweptExcept(s, todo - {key}, now)
  {
    assert Visit(SweptExcept(s, todo, now), key, now).peerByAddr == SweptExcept(s, todo - {key}, now).peerByAddr;
    VisitEndpoints(s, todo, key, now);
    VisitTokens(s, todo, key, now);
  }

  lemma VisitEndpoints(s: State, todo: set<Addr>, key: Addr, now: int)
    requires AddrsMatchKeys(s) && key in todo && todo <= s.peerByAddr.Keys
    ensures Visit(SweptExcept(s, todo, now), key, now).udpAddr == SweptExcept(s, todo - {key}, now).udpAddr
  {
    assert s.peerByAddr[key].addr == key;
  }

  lemma VisitTokens(s: State, todo: set<Addr>, key: Addr, now: int)
    requires AddrsMatchKeys(s) && key in todo && todo <= s.peerByAddr.Keys
    ensures Visit(SweptExcept(s, todo, now), key, now).tokenById == SweptExcept(s, todo - {key}, now).tokenById
  {
    var r, r' := SweptExcept(s, todo, now), SweptExcept(s, todo - {key}, now);
    var b := s.peerByAddr[key];
    assert b.addr == key;
    if !(LeaseOver(s, b.peer, now) && s.udpAddr[b.peer] == key) {
      assert r'.tokenById == r.tokenById;
    }
  }
}
