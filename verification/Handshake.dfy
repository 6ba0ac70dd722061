/** The bridge's UDP proxy (cmd/bridge/main.go) talking to the UDP server over a network that loses,
    copies, delays and reorders datagrams. Only the server sends from its own address and only the bridge
    from its upstream socket; everything else on the network and on the loopback interface is arbitrary.

    The network is the set of datagrams ever sent: delivering one does not remove it, and nothing forces
    a delivery. The bridge's upstream address is the one the server sees. */
module Handshake {
  import opened Wrappers
  import opened Wire
  import opened UdpServer
  import UdpRuns

  // ---------------------------------------------------------------- the bridge

  /** What one proxy is started with: the peer and token of its WebSocket welcome, and both endpoints. */
  datatype Config = Config(peer: PeerId, token: Token, upstream: Addr, server: Addr)

  /** pendingAddr and pluginAddr. */
  datatype Bridge = Bridge(pending: Option<Addr>, plugin: Option<Addr>)

  const UNBOUND := Bridge(None, None)

  /** The local endpoint the bridge has settled on, bound or not. */
  function Source(b: Bridge): Option<Addr> {
    if b.plugin.Some? then b.plugin else b.pending
  }

  predicate IsWelcomeFor(pkt: seq<byte>, p: PeerId) {
    |pkt| == UDP_PING_SIZE && pkt[0] == UDP_WELCOME_TYPE && pkt[4..20] == p
  }

  /** A datagram from the loopback side: the new state, and whether it is forwarded to the server. */
  function FromPlugin(cfg: Config, b: Bridge, pkt: seq<byte>, src: Addr): (Bridge, bool) {
    if b.plugin.Some? then (b, src == b.plugin.value)
    else if ParseHello(pkt) != Ok(Hello(cfg.peer, cfg.token)) then (b, false)
    else if b.pending.Some? && src != b.pending.value then (b, false)
    else (b.(pending := Some(src)), true)
  }

  /** A datagram from the network: the new state, and the local address it is delivered to. */
  function FromUpstream(cfg: Config, b: Bridge, pkt: seq<byte>, src: Addr): (Bridge, Option<Addr>) {
    if src != cfg.server then (b, None)
    else if b.plugin.Some? then (b, b.plugin)
    else if IsWelcomeFor(pkt, cfg.peer) && b.pending.Some? then (Bridge(None, b.pending), b.pending)
    else (b, None)
  }

  /** The proxy's two loop bodies on its own fields. */
  class Proxy {
    const cfg: Config
    var pending: Option<Addr>
    var plugin: Option<Addr>

    function Abstract(): Bridge
      reads this
    {
      Bridge(pending, plugin)
    }

    constructor (cfg: Config)
      ensures this.cfg == cfg && Abstract() == UNBOUND
    {
      this.cfg := cfg;
      pending, plugin := None, None;
    }

    method OnLoopback(pkt: seq<byte>, src: Addr) returns (forward: bool)
      modifies this`pending
      ensures (Abstract(), forward) == FromPlugin(cfg, old(Abstract()), pkt, src)
    {
      if plugin.Some? {
        if src != plugin.value {
          return false;
        }
      } else {
        var hello := ParseHello(pkt);
        if hello.Err? || hello.value.peer != cfg.peer || hello.value.token != cfg.token {
          return false;
        }
        if pending.Some? && src != pending.value {
          return false;
        }
        if pending.None? {
          pending := Some(src);
        }
      }
      return true;
    }

    method OnNetwork(pkt: seq<byte>, src: Addr) returns (deliver: Option<Addr>)
      modifies this
      ensures (Abstract(), deliver) == FromUpstream(cfg, old(Abstract()), pkt, src)
    {
      if src != cfg.server {
        return None;
      }
      var dst := plugin;
      if dst.None? {
        if |pkt| != UDP_PING_SIZE || pkt[0] != UDP_WELCOME_TYPE || pkt[4..20] != cfg.peer || pending.None? {
          return None;
        }
        dst := pending;
        plugin := dst;
        pending := None;
      }
      return dst;
    }
  }

  // ---------------------------------------------------------------- both machines and the network

  datatype Datagram = Datagram(payload: seq<byte>, src: Addr, dst: Addr)

  /** `sent` is everything ever put on the network; `forwarded` the local sources of what the bridge passed
      on; `delivered` what the bridge handed back, with the local address it went to. */
  datatype World = World(
    srv: UdpRuns.World,
    bridge: Bridge,
    sent: set<Datagram>,
    forwarded: set<Addr>,
    delivered: set<(Datagram, Addr)>)

  const INITIAL := World(UdpRuns.INITIAL_RUN, UNBOUND, {}, {}, {})

  datatype Action =
    | ServerStep(act: UdpRuns.Action)
    | Loopback(pkt: seq<byte>, src: Addr)
    | Network(d: Datagram)
    | Inject(d: Datagram)

  /** The server reads only what was sent to it, the bridge's upstream socket likewise, and no one else
      sends from either of those two addresses. */
  predicate Enabled(cfg: Config, w: World, a: Action) {
    match a
    case ServerStep(act) =>
      UdpRuns.Enabled(w.srv, act) && (act.Receive? ==> Datagram(act.pkt, act.src, cfg.server) in w.sent)
    case Loopback(_, _) => true
    case Network(d) => d in w.sent && d.dst == cfg.upstream
    case Inject(d) => d.src != cfg.server && d.src != cfg.upstream
  }

  function Next(cfg: Config, w: World, a: Action): World {
    match a
    case ServerStep(act) =>
      w.(srv := UdpRuns.Next(w.srv, act),
         sent := match UdpRuns.Emits(w.srv.s, act)
                 case None => w.sent
                 case Some((payload, dst)) => w.sent + {Datagram(payload, cfg.server, dst)})
    case Loopback(pkt, src) =>
      var (bridge, forward) := FromPlugin(cfg, w.bridge, pkt, src);
      if forward then
        w.(bridge := bridge,
           sent := w.sent + {Datagram(pkt, cfg.upstream, cfg.server)}, forwarded := w.forwarded + {src})
      else w.(bridge := bridge)
    case Network(d) =>
      var (bridge, deliver) := FromUpstream(cfg, w.bridge, d.payload, d.src);
      w.(bridge := bridge,
         delivered := if deliver.Some? then w.delivered + {(d, deliver.value)} else w.delivered)
    case Inject(d) => w.(sent := w.sent + {d})
  }

  // ---------------------------------------------------------------- the invariant

  function Mine(cfg: Config): UdpRuns.Acceptance {
    UdpRuns.Acceptance(cfg.peer, cfg.token, cfg.upstream)
  }

  /** Until the bridge is bound, it has sent nothing but its own hello, and the server has accepted
      nothing else from its address. */
  ghost predicate OnlyHellosBefore(cfg: Config, w: World) {
    w.bridge.plugin.None? ==>
      && (forall d :: d in w.sent && d.src == cfg.upstream ==> ParseHello(d.payload) == Ok(Hello(cfg.peer, cfg.token)))
      && (forall x :: x in w.srv.accepted && x.addr == cfg.upstream ==> x == Mine(cfg))
  }

  /** Every welcome from the server answers a hello accepted from where it went. */
  ghost predicate WelcomesAnswer(cfg: Config, w: World) {
    forall d :: d in w.sent && d.src == cfg.server && IsWelcome(d.payload) ==>
      exists x :: x in w.srv.accepted && x.peer == d.payload[4..20] && x.addr == d.dst
  }

  predicate IsWelcome(pkt: seq<byte>) {
    |pkt| == UDP_PING_SIZE && pkt[0] == UDP_WELCOME_TYPE
  }

  ghost predicate BridgeOk(cfg: Config, w: World) {
    && (w.bridge.plugin.Some? ==> w.bridge.pending.None? && Mine(cfg) in w.srv.accepted)
    && (forall a :: a in w.forwarded ==> Source(w.bridge) == Some(a))
    && (forall x :: x in w.delivered ==>
          w.bridge.plugin == Some(x.1) && x.0.src == cfg.server && x.0.dst == cfg.upstream)
  }

  ghost predicate Inv(cfg: Config, w: World) {
    && UdpRuns.Inv(w.srv) && OnlyHellosBefore(cfg, w) && WelcomesAnswer(cfg, w) && BridgeOk(cfg, w)
  }

  /** A welcome is only ever emitted by the step that accepts a hello, to the place it came from. */
  lemma EmittedWelcome(w: UdpRuns.World, act: UdpRuns.Action)
    requires UdpRuns.Enabled(w, act)
    requires UdpRuns.Emits(w.s, act).Some? && IsWelcome(UdpRuns.Emits(w.s, act).value.0)
    ensures UdpRuns.Accepts(w.s, act)
    ensures var (payload, dst) := UdpRuns.Emits(w.s, act).value;
            var x := UdpRuns.AcceptedBy(w.s, act); x.peer == payload[4..20] && x.addr == dst
  {
    var payload := UdpRuns.Emits(w.s, act).value.0;
    if act.Receive? {
      assert act.pkt[0] == UDP_HELLO_TYPE;
      assert PeerFrameBytes(UDP_WELCOME_TYPE, ParseHello(act.pkt).value.peer)[4..20] == ParseHello(act.pkt).value.peer;
    }
  }

  lemma ServerStepKeepsInv(cfg: Config, w: World, act: UdpRuns.Action)
    requires cfg.upstream != cfg.server
    requires Inv(cfg, w) && Enabled(cfg, w, ServerStep(act))
    ensures Inv(cfg, Next(cfg, w, ServerStep(act)))
  {
    var w' := Next(cfg, w, ServerStep(act));
    UdpRuns.KeepsInv(w.srv, act);
    forall d | d in w'.sent && d.src == cfg.server && IsWelcome(d.payload)
      ensures exists x :: x in w'.srv.accepted && x.peer == d.payload[4..20] && x.addr == d.dst
    {
      if d in w.sent {
        var x :| x in w.srv.accepted && x.peer == d.payload[4..20] && x.addr == d.dst;
        assert x in w'.srv.accepted;
      } else {
        EmittedWelcome(w.srv, act);
        assert UdpRuns.AcceptedBy(w.srv.s, act) in w'.srv.accepted;
      }
    }
  }

  lemma NetworkStepKeepsInv(cfg: Config, w: World, d: Datagram)
    requires Inv(cfg, w) && Enabled(cfg, w, Network(d))
    ensures Inv(cfg, Next(cfg, w, Network(d)))
  {
    if w.bridge.plugin.None? && d.src == cfg.server && IsWelcomeFor(d.payload, cfg.peer) && w.bridge.pending.Some? {
      var x :| x in w.srv.accepted && x.peer == d.payload[4..20] && x.addr == d.dst;
      assert x == Mine(cfg);
    }
  }

  lemma KeepsInv(cfg: Config, w: World, a: Action)
    requires cfg.upstream != cfg.server
    requires Inv(cfg, w) && Enabled(cfg, w, a)
    ensures Inv(cfg, Next(cfg, w, a))
    ensures Source(w.bridge).Some? ==> Source(Next(cfg, w, a).bridge) == Source(w.bridge)
  {
    match a
    case ServerStep(act) => ServerStepKeepsInv(cfg, w, act);
    case Loopback(pkt, src) =>
    case Network(d) => NetworkStepKeepsInv(cfg, w, d);
    case Inject(d) =>
  }

  // ---------------------------------------------------------------- runs

  ghost function Exec(cfg: Config, acts: seq<Action>): Option<World> {
    if acts == [] then Some(INITIAL)
    else
      var n := |acts| - 1;
      match Exec(cfg, acts[..n])
      case None => None
      case Some(w) => if Enabled(cfg, w, acts[n]) then Some(Next(cfg, w, acts[n])) else None
  }

  lemma {:induction false} RunsKeepInv(cfg: Config, acts: seq<Action>)
    requires cfg.upstream != cfg.server
    requires Exec(cfg, acts).Some?
    ensures Inv(cfg, Exec(cfg, acts).value)
  {
    if acts != [] {
      var n := |acts| - 1;
      RunsKeepInv(cfg, acts[..n]);
      KeepsInv(cfg, Exec(cfg, acts[..n]).value, acts[n]);
    }
  }

  /** At step k the server reads a hello it accepts, and x says whose, with which token, from where. */
  ghost predicate AcceptsAt(cfg: Config, acts: seq<Action>, k: nat, x: UdpRuns.Acceptance) {
    && k < |acts| && acts[k].ServerStep? && Exec(cfg, acts[..k]).Some?
    && var s := Exec(cfg, acts[..k]).value.srv.s;
       UdpRuns.Accepts(s, acts[k].act) && UdpRuns.AcceptedBy(s, acts[k].act) == x
  }

  lemma {:induction false} HistoryIsTheRun(cfg: Config, acts: seq<Action>, x: UdpRuns.Acceptance)
    requires Exec(cfg, acts).Some?
    ensures x in Exec(cfg, acts).value.srv.accepted <==> exists k :: AcceptsAt(cfg, acts, k, x)
  {
    if acts != [] {
      var n := |acts| - 1;
      var before := acts[..n];
      HistoryIsTheRun(cfg, before, x);
      forall k: nat | k < n ensures AcceptsAt(cfg, acts, k, x) <==> AcceptsAt(cfg, before, k, x) {
        assert before[..k] == acts[..k];
      }
      if x in Exec(cfg, acts).value.srv.accepted && x !in Exec(cfg, before).value.srv.accepted {
        assert AcceptsAt(cfg, acts, n, x);
      }
    }
  }

  /** Handshake agreement: in every run, when the bridge is bound the server has, at an earlier step,
      bound exactly that peer with exactly that token to exactly the bridge's upstream socket; and at no
      step of the run does it accept that token from anywhere else or for anyone else. */
  lemma {:induction false} Agreement(cfg: Config, acts: seq<Action>, k: nat, x: UdpRuns.Acceptance)
    requires cfg.upstream != cfg.server
    requires Exec(cfg, acts).Some? && Exec(cfg, acts).value.bridge.plugin.Some?
    ensures exists j :: AcceptsAt(cfg, acts, j, Mine(cfg))
    ensures AcceptsAt(cfg, acts, k, x) && x.token == cfg.token ==> x == Mine(cfg)
  {
    RunsKeepInv(cfg, acts);
    HistoryIsTheRun(cfg, acts, Mine(cfg));
    HistoryIsTheRun(cfg, acts, x);
  }

  /** The local source never changes once chosen, it is the only one whose datagrams are ever passed on,
      and everything handed back goes to it and came from the server. */
  lemma {:induction false} OneLocalSource(cfg: Config, acts: seq<Action>, k: nat)
    requires cfg.upstream != cfg.server
    requires Exec(cfg, acts).Some? && k <= |acts|
    ensures Exec(cfg, acts[..k]).Some?
    ensures var w, early := Exec(cfg, acts).value, Exec(cfg, acts[..k]).value;
            && (Source(early.bridge).Some? ==> Source(w.bridge) == Source(early.bridge))
            && (forall a :: a in w.forwarded ==> Source(w.bridge) == Some(a))
            && (forall d :: d in w.delivered ==>
                  Source(w.bridge) == Some(d.1) && d.0.src == cfg.server && d.0.dst == cfg.upstream)
  {
    RunsKeepInv(cfg, acts);
    SourceStays(cfg, acts, k);
  }

  lemma {:induction false} SourceStays(cfg: Config, acts: seq<Action>, k: nat)
    requires cfg.upstream != cfg.server
    requires Exec(cfg, acts).Some? && k <= |acts|
    ensures Exec(cfg, acts[..k]).Some?
    ensures var w, early := Exec(cfg, acts).value, Exec(cfg, acts[..k]).value;
            Source(early.bridge).Some? ==> Source(w.bridge) == Source(early.bridge)
  {
    if k == |acts| {
      assert acts[..k] == acts;
    } else {
      var n := |acts| - 1;
      SourceStays(cfg, acts[..n], k);
      assert acts[..n][..k] == acts[..k];
      RunsKeepInv(cfg, acts[..n]);
      KeepsInv(cfg, Exec(cfg, acts[..n]).value, acts[n]);
    }
  }

  // ---------------------------------------------------------------- the handshake can always complete

  lemma OneMore(cfg: Config, acts: seq<Action>, a: Action)
    requires Exec(cfg, acts).Some? && Enabled(cfg, Exec(cfg, acts).value, a)
    ensures Exec(cfg, acts + [a]) == Some(Next(cfg, Exec(cfg, acts).value, a))
  {
    assert (acts + [a])[..|acts|] == acts;
  }

  /** From every reachable state with the bridge unbound (whatever was lost before, a welcome included), if
      the token is in force and neither the peer nor the upstream socket is bound elsewhere, one hello from
      the local source, delivered and answered, binds both ends. */
  lemma HandshakeCompletes(cfg: Config, acts: seq<Action>, src: Addr, now: int) returns (more: seq<Action>)
    requires Exec(cfg, acts).Some?
    requires var w := Exec(cfg, acts).value; var s := w.srv.s;
             && w.bridge.plugin.None? && (w.bridge.pending.Some? ==> w.bridge.pending.value == src)
             && cfg.peer in s.attached && cfg.peer in s.tokenById && s.tokenById[cfg.peer] == cfg.token
             && (cfg.peer in s.udpAddr ==> s.udpAddr[cfg.peer] == cfg.upstream)
             && (cfg.upstream in s.peerByAddr ==> s.peerByAddr[cfg.upstream].peer == cfg.peer)
    ensures Exec(cfg, acts + more).Some? && |more| == 3
    ensures var w := Exec(cfg, acts + more).value;
            && w.bridge.plugin == Some(src)
            && cfg.peer in w.srv.s.udpAddr && w.srv.s.udpAddr[cfg.peer] == cfg.upstream
  {
    var hello := HelloBytes(Hello(cfg.peer, cfg.token));
    var welcome := PeerFrameBytes(UDP_WELCOME_TYPE, cfg.peer);
    HelloRoundTrip(Hello(cfg.peer, cfg.token));
    assert welcome[4..20] == cfg.peer;
    var a1 := Loopback(hello, src);
    var a2 := ServerStep(UdpRuns.Receive(hello, cfg.upstream, true, now));
    var a3 := Network(Datagram(welcome, cfg.server, cfg.upstream));
    more := [a1, a2, a3];
    OneMore(cfg, acts, a1);
    OneMore(cfg, acts + [a1], a2);
    OneMore(cfg, acts + [a1] + [a2], a3);
    assert acts + [a1] + [a2] + [a3] == acts + more;
  }

  // ---------------------------------------------------------------- what the bridge passes on

  /** In every reachable state a datagram from the loopback side goes to the server, as it is and once, exactly
      when it comes from the source the bridge is bound to, or, before the bridge is bound, when it is the
      session's hello and no other source was first. A bound bridge stays as it is, and an unbound one is
      never bound by the loopback side. */
  lemma {:induction false} LoopbackGoesToTheServer(cfg: Config, acts: seq<Action>, pkt: seq<byte>, src: Addr)
    requires Exec(cfg, acts).Some?
    ensures Exec(cfg, acts + [Loopback(pkt, src)]).Some?
    ensures var w, w' := Exec(cfg, acts).value, Exec(cfg, acts + [Loopback(pkt, src)]).value;
            var mine := |pkt| == UDP_HELLO_SIZE && pkt[0] == UDP_HELLO_TYPE
                        && pkt[4..20] == cfg.peer && pkt[20..52] == cfg.token;
            var passes := if w.bridge.plugin.Some? then w.bridge.plugin == Some(src)
                          else mine && (w.bridge.pending.None? || w.bridge.pending == Some(src));
            && w'.sent == (if passes then w.sent + {Datagram(pkt, cfg.upstream, cfg.server)} else w.sent)
            && w'.bridge.plugin == w.bridge.plugin
            && Source(w'.bridge) == (if passes then Some(src) else Source(w.bridge))
            && w'.srv == w.srv && w'.delivered == w.delivered
  {
    OneMore(cfg, acts, Loopback(pkt, src));
    BoundHasNoPending(cfg, acts);
  }

  /** A datagram from the network is delivered, as it is and once, exactly when it comes from the server and the
      bridge is bound or is being bound by it: by the welcome of its own peer, while a source is pending. */
  lemma {:induction false} NetworkGoesToTheSource(cfg: Config, acts: seq<Action>, d: Datagram)
    requires Exec(cfg, acts).Some? && d in Exec(cfg, acts).value.sent && d.dst == cfg.upstream
    ensures Exec(cfg, acts + [Network(d)]).Some?
    ensures var w, w' := Exec(cfg, acts).value, Exec(cfg, acts + [Network(d)]).value;
            var binds := && w.bridge.plugin.None? && w.bridge.pending.Some? && d.src == cfg.server
                         && IsWelcome(d.payload) && d.payload[4..20] == cfg.peer;
            var to := if d.src != cfg.server then None else if binds then w.bridge.pending else w.bridge.plugin;
            && w'.delivered == (if to.Some? then w.delivered + {(d, to.value)} else w.delivered)
            && w'.bridge == (if binds then Bridge(None, w.bridge.pending) else w.bridge)
            && w'.srv == w.srv && w'.sent == w.sent && w'.forwarded == w.forwarded
  {
    OneMore(cfg, acts, Network(d));
  }

  lemma {:induction false} BoundHasNoPending(cfg: Config, acts: seq<Action>)
    requires Exec(cfg, acts).Some?
    ensures var b := Exec(cfg, acts).value.bridge; b.plugin.Some? ==> b.pending.None?
  {
    if acts != [] {
      BoundHasNoPending(cfg, acts[..|acts| - 1]);
    }
  }

  // ---------------------------------------------------------------- from the plugin to the server and back

  /** Three steps: the plugin's datagram to the server, the server's answer, and the answer to the plugin. */
  function ThereAndBack(cfg: Config, pkt: seq<byte>, reply: seq<byte>, src: Addr, now: int): seq<Action> {
    [Loopback(pkt, src)] + [ServerStep(UdpRuns.Receive(pkt, cfg.upstream, true, now))]
    + [Network(Datagram(reply, cfg.server, cfg.upstream))]
  }

  /** Through a bound bridge, while the server has its peer bound to the upstream socket: a ping of the plugin is
      heard by the server, and its pong reaches the plugin. */
  lemma {:induction false} PingThroughTheBridge(cfg: Config, acts: seq<Action>, src: Addr, now: int)
    requires Exec(cfg, acts).Some?
    requires var w := Exec(cfg, acts).value;
             && w.bridge.plugin == Some(src)
             && cfg.peer in w.srv.s.udpAddr && w.srv.s.udpAddr[cfg.peer] == cfg.upstream
    ensures var ping, pong := PeerFrameBytes(UDP_PING_TYPE, cfg.peer), PeerFrameBytes(UDP_PONG_TYPE, cfg.peer);
            var all := acts + ThereAndBack(cfg, ping, pong, src, now);
            && Exec(cfg, all).Some?
            && UdpRuns.HeardSince(Exec(cfg, all).value.srv.s, cfg.peer, cfg.upstream, now)
            && (Datagram(pong, cfg.server, cfg.upstream), src) in Exec(cfg, all).value.delivered
  {
    var ping, pong := PeerFrameBytes(UDP_PING_TYPE, cfg.peer), PeerFrameBytes(UDP_PONG_TYPE, cfg.peer);
    var a1, a2 := Loopback(ping, src), ServerStep(UdpRuns.Receive(ping, cfg.upstream, true, now));
    var a3 := Network(Datagram(pong, cfg.server, cfg.upstream));
    LoopbackGoesToTheServer(cfg, acts, ping, src);
    ServerRun(cfg, acts + [a1]);
    assert UdpRuns.IsPingOf(ping, cfg.peer);
    var server := ServerActs(acts + [a1]);
    UdpRuns.PingIsHeardAndAnswered(server, cfg.peer, ping, cfg.upstream, true, now);
    UdpRuns.OneMore(server, a2.act);
    OneMore(cfg, acts + [a1], a2);
    NetworkGoesToTheSource(cfg, acts + [a1] + [a2], Datagram(pong, cfg.server, cfg.upstream));
    assert acts + [a1] + [a2] + [a3] == acts + ThereAndBack(cfg, ping, pong, src, now);
  }

  /** An audio frame of the plugin is heard by the server and accepted as its peer's. */
  lemma {:induction false} AudioThroughTheBridge(cfg: Config, acts: seq<Action>, pkt: seq<byte>, src: Addr, now: int)
    requires Exec(cfg, acts).Some?
    requires var w := Exec(cfg, acts).value;
             && w.bridge.plugin == Some(src) && UdpRuns.IsAudioOf(pkt, cfg.peer)
             && cfg.peer in w.srv.s.udpAddr && w.srv.s.udpAddr[cfg.peer] == cfg.upstream
    ensures var all := acts + [Loopback(pkt, src)] + [ServerStep(UdpRuns.Receive(pkt, cfg.upstream, true, now))];
            && Exec(cfg, all).Some?
            && UdpRuns.HeardSince(Exec(cfg, all).value.srv.s, cfg.peer, cfg.upstream, now)
            && HandleAudio(Exec(cfg, acts).value.srv.s, pkt, cfg.upstream, true, now).1 == Accepted(cfg.peer)
  {
    var a1, a2 := Loopback(pkt, src), ServerStep(UdpRuns.Receive(pkt, cfg.upstream, true, now));
    LoopbackGoesToTheServer(cfg, acts, pkt, src);
    ServerRun(cfg, acts + [a1]);
    var server := ServerActs(acts + [a1]);
    UdpRuns.AudioIsHeard(server, cfg.peer, pkt, cfg.upstream, now);
    UdpRuns.OneMore(server, a2.act);
    OneMore(cfg, acts + [a1], a2);
  }

  /** A frame the server sends to its peer while the lease lives reaches the plugin. */
  lemma {:induction false} FrameThroughTheBridge(cfg: Config, acts: seq<Action>, frame: seq<byte>, src: Addr, now: int)
    requires Exec(cfg, acts).Some? && ParseAudio(frame).Ok?
    requires var w := Exec(cfg, acts).value;
             && w.bridge.plugin == Some(src)
             && UdpRuns.HeardSince(w.srv.s, cfg.peer, cfg.upstream, now - PEER_IDLE_TIMEOUT + 1)
    ensures var d := Datagram(frame, cfg.server, cfg.upstream);
            var all := acts + [ServerStep(UdpRuns.SendAudio(cfg.peer, frame, now))] + [Network(d)];
            Exec(cfg, all).Some? && (d, src) in Exec(cfg, all).value.delivered
  {
    var a1 := ServerStep(UdpRuns.SendAudio(cfg.peer, frame, now));
    ServerRun(cfg, acts);
    var server := ServerActs(acts);
    UdpRuns.SendGoesToTheLease(server, cfg.peer, frame, now);
    UdpRuns.RunsKeepInv(server);
    OneMore(cfg, acts, a1);
    NetworkGoesToTheSource(cfg, acts + [a1], Datagram(frame, cfg.server, cfg.upstream));
  }

  /** The server's part of a run is a run of the server. */
  function ServerActs(acts: seq<Action>): seq<UdpRuns.Action> {
    if acts == [] then []
    else
      var n := |acts| - 1;
      ServerActs(acts[..n]) + (if acts[n].ServerStep? then [acts[n].act] else [])
  }

  lemma {:induction false} ServerRun(cfg: Config, acts: seq<Action>)
    requires Exec(cfg, acts).Some?
    ensures UdpRuns.Exec(ServerActs(acts)) == Some(Exec(cfg, acts).value.srv)
  {
    if acts != [] {
      var n := |acts| - 1;
      ServerRun(cfg, acts[..n]);
      if acts[n].ServerStep? {
        UdpRuns.OneMore(ServerActs(acts[..n]), acts[n].act);
      } else {
        assert ServerActs(acts[..n]) + [] == ServerActs(acts[..n]);
      }
    }
  }
}
