/** The path a node uses towards a peer: upgrades, downgrades and routing under a policy. */
module Paths {
  import opened Wrappers

  datatype PathKind = RelayUdp | DirectUdp | RelayTcp | DirectTcp

  datatype Policy = Auto | OnlyRelayUdp | OnlyRelayTcp | DirectAny | OnlyDirectUdp | OnlyDirectTcp

  /** An upgrade to `kind` is permitted. */
  predicate Allows(policy: Policy, kind: PathKind) {
    match policy
    case Auto => true
    case OnlyRelayUdp => false
    case OnlyRelayTcp => false
    case DirectAny => kind == DirectUdp || kind == DirectTcp
    case OnlyDirectUdp => kind == DirectUdp
    case OnlyDirectTcp => kind == DirectTcp
  }

  type Address = nat

  /** The peer's address and the local one it was learned on. */
  datatype Endpoint = Endpoint(remote: Address, local: Address)

  type ConnId = nat

  datatype Peer = Peer(
    path: PathKind,
    direct: Option<Endpoint>,
    conn: Option<ConnId>,
    endpoints: seq<Address>,
    lastPong: int)

  const NEW_PEER: Peer := Peer(RelayUdp, None, None, [], 0)

  const DEAD_AFTER_MS: int := 30_000

  predicate DirectPathDead(now: int, lastPong: int) {
    lastPong > 0 && now - lastPong > DEAD_AFTER_MS
  }

  datatype Arrival = ByDirectUdp(endpoint: Endpoint) | ByDirectTcp(conn: ConnId) | ByRelayUdp | ByRelayTcp

  // ---------- the transitions ----------

  function ApplyPolicy(p: Peer, policy: Policy): Peer {
    match policy
    case Auto => if p.path == RelayTcp then p.(path := RelayUdp) else p
    case OnlyRelayUdp => p.(path := RelayUdp)
    case OnlyRelayTcp => p.(path := RelayTcp)
    case DirectAny => p
    case OnlyDirectUdp => p.(path := DirectUdp)
    case OnlyDirectTcp => p.(path := DirectTcp)
  }

  function AttachTcp(p: Peer, policy: Policy, conn: ConnId): Peer {
    var attached := p.(conn := Some(conn));
    if Allows(policy, DirectTcp) && (p.path == RelayUdp || p.path == RelayTcp)
    then attached.(path := DirectTcp) else attached
  }

  /** An authenticated frame; `pong` tells whether it is a PONG. */
  function HandleFrame(p: Peer, policy: Policy, arrival: Arrival, pong: bool, now: int): Peer {
    var q := if arrival.ByDirectTcp? then AttachTcp(p, policy, arrival.conn) else p;
    if !pong then q
    else
      var r := q.(lastPong := now);
      if arrival.ByDirectUdp? && Allows(policy, DirectUdp)
      then r.(direct := Some(arrival.endpoint), path := DirectUdp) else r
  }

  function Probe(p: Peer, policy: Policy, now: int): Peer {
    if policy == Auto && DirectPathDead(now, p.lastPong) then
      (match p.path
       case DirectUdp => p.(direct := None, path := RelayUdp)
       case DirectTcp => p.(conn := None, path := RelayUdp)
       case RelayUdp => p
       case RelayTcp => p)
    else p
  }

  // ---------- routing ----------

  datatype Route =
    | ViaLearnedUdp(endpoint: Endpoint)
    | ViaKnownUdp(remote: Address)
    | ViaRelayUdp
    | ViaTcp(conn: ConnId)
    | ViaRelayTcp(udpFallback: bool)
    | Dropped

  /** Connections of which `closed` is known are of no use. */
  predicate Usable(p: Peer, closed: set<ConnId>) { p.conn.Some? && p.conn.value !in closed }

  function RouteFrame(p: Peer, policy: Policy, closed: set<ConnId>): Route {
    var relayFallback := policy == Auto;
    match policy
    case Auto => RouteOn(p, p.path, closed, relayFallback)
    case OnlyRelayUdp => RouteOn(p, RelayUdp, closed, relayFallback)
    case OnlyRelayTcp => RouteOn(p, RelayTcp, closed, relayFallback)
    case OnlyDirectUdp => RouteOn(p, DirectUdp, closed, relayFallback)
    case OnlyDirectTcp => RouteOn(p, DirectTcp, closed, relayFallback)
    case DirectAny =>
      if p.path == DirectUdp || p.path == DirectTcp then RouteOn(p, p.path, closed, relayFallback)
      else if Usable(p, closed) then RouteOn(p, DirectTcp, closed, relayFallback)
      else if p.direct.Some? then RouteOn(p, DirectUdp, closed, relayFallback)
      else Dropped
  }

  function RouteOn(p: Peer, path: PathKind, closed: set<ConnId>, relayFallback: bool): Route {
    match path
    case DirectUdp =>
      if p.direct.Some? then ViaLearnedUdp(p.direct.value)
      else if p.endpoints != [] then ViaKnownUdp(p.endpoints[0])
      else if relayFallback then ViaRelayUdp
      else Dropped
    case DirectTcp =>
      if Usable(p, closed) then ViaTcp(p.conn.value)
      else if relayFallback then ViaRelayUdp
      else Dropped
    case RelayTcp => ViaRelayTcp(relayFallback)
    case RelayUdp => ViaRelayUdp
  }

  predicate UsesRelay(r: Route) { r.ViaRelayUdp? || r.ViaRelayTcp? }

  predicate GoesDirect(r: Route) { r.ViaLearnedUdp? || r.ViaKnownUdp? || r.ViaTcp? }

  // ---------- the session object ----------

  class PeerSession {
    var path: PathKind
    var direct: Option<Endpoint>
    var conn: Option<ConnId>
    var endpoints: seq<Address>
    var lastPong: int

    function View(): Peer
      reads this
    {
      Peer(path, direct, conn, endpoints, lastPong)
    }

    constructor ()
      ensures View() == NEW_PEER
    {
      path, direct, conn, endpoints, lastPong := RelayUdp, None, None, [], 0;
    }

    method SyncPolicy(policy: Policy)
      modifies this`path
      ensures View() == ApplyPolicy(old(View()), policy)
    {
      match policy
      case Auto => if path == RelayTcp { path := RelayUdp; }
      case OnlyRelayUdp => path := RelayUdp;
      case OnlyRelayTcp => path := RelayTcp;
      case DirectAny =>
      case OnlyDirectUdp => path := DirectUdp;
      case OnlyDirectTcp => path := DirectTcp;
    }

    method AttachPeerTcp(policy: Policy, newConn: ConnId, closed: set<ConnId>)
      modifies this`path, this`conn
      ensures View() == AttachTcp(old(View()), policy, newConn)
    {
      var replace := true;
      if conn.Some? {
        replace := conn.value in closed || conn.value != newConn;
      }
      if replace { conn := Some(newConn); }
      if Allows(policy, DirectTcp) && (path == RelayUdp || path == RelayTcp) {
        path := DirectTcp;
      }
    }

    method OnFrame(policy: Policy, arrival: Arrival, pong: bool, now: int, closed: set<ConnId>)
      modifies this
      ensures View() == HandleFrame(old(View()), policy, arrival, pong, now)
    {
      if arrival.ByDirectTcp? { AttachPeerTcp(policy, arrival.conn, closed); }
      if pong {
        lastPong := now;
        if arrival.ByDirectUdp? && Allows(policy, DirectUdp) {
          direct := Some(arrival.endpoint);
          if path != DirectUdp { path := DirectUdp; }
        }
      }
    }

    method ProbePeer(policy: Policy, now: int)
      modifies this
      ensures View() == Probe(old(View()), policy, now)
    {
      if policy == OnlyRelayUdp || policy == OnlyRelayTcp { return; }
      var current := path;
      if current == DirectUdp || current == DirectTcp {
        if DirectPathDead(now, lastPong) && policy == Auto {
          if current == DirectUdp { direct := None; } else { conn := None; }
          path := RelayUdp;
        }
      }
    }
  }

  // ---------- laws of routing ----------

  /** Direct policies never leak through a relay, relay policies never go direct, and only Auto falls back. */
  lemma RoutingObeysPolicy(p: Peer, policy: Policy, closed: set<ConnId>)
    ensures policy in {DirectAny, OnlyDirectUdp, OnlyDirectTcp} ==> !UsesRelay(RouteFrame(p, policy, closed))
    ensures policy in {OnlyRelayUdp, OnlyRelayTcp} ==> !GoesDirect(RouteFrame(p, policy, closed))
    ensures RouteFrame(p, policy, closed) == ViaRelayTcp(true) ==> policy == Auto
    ensures RouteFrame(p, policy, closed).ViaTcp? ==> RouteFrame(p, policy, closed).conn !in closed
    ensures RouteFrame(p, policy, closed) == Dropped <==>
            || (policy == OnlyDirectUdp && p.direct.None? && p.endpoints == [])
            || (policy == OnlyDirectTcp && !Usable(p, closed))
            || (policy == DirectAny && match p.path
                                       case DirectUdp => p.direct.None? && p.endpoints == []
                                       case DirectTcp => !Usable(p, closed)
                                       case _ => p.direct.None? && !Usable(p, closed))
  {
  }

  /** The policy, and under Auto and DirectAny the peer, decide for direct UDP. */
  predicate UdpDecided(p: Peer, policy: Policy, connected: bool) {
    || policy == OnlyDirectUdp
    || (policy == Auto && p.path == DirectUdp)
    || (policy == DirectAny && (p.path == DirectUdp || (p.path != DirectTcp && !connected && p.direct.Some?)))
  }

  predicate TcpDecided(p: Peer, policy: Policy, connected: bool) {
    || policy == OnlyDirectTcp
    || (policy == Auto && p.path == DirectTcp)
    || (policy == DirectAny && (p.path == DirectTcp || (p.path != DirectUdp && connected)))
  }

  /** Each route, exactly when it is taken and with which endpoint or connection. */
  lemma RouteIff(p: Peer, policy: Policy, closed: set<ConnId>, e: Endpoint, a: Address, c: ConnId)
    ensures var r := RouteFrame(p, policy, closed);
            var connected := p.conn.Some? && p.conn.value !in closed;
            var udp, tcp := UdpDecided(p, policy, connected), TcpDecided(p, policy, connected);
            && (r == ViaLearnedUdp(e) <==> udp && p.direct == Some(e))
            && (r == ViaKnownUdp(a) <==> udp && p.direct.None? && p.endpoints != [] && p.endpoints[0] == a)
            && (r == ViaTcp(c) <==> tcp && p.conn == Some(c) && c !in closed)
            && (r == ViaRelayTcp(false) <==> policy == OnlyRelayTcp)
            && (r == ViaRelayTcp(true) <==> policy == Auto && p.path == RelayTcp)
            && (r == ViaRelayUdp <==>
                  || policy == OnlyRelayUdp
                  || (policy == Auto && p.path == RelayUdp)
                  || (policy == Auto && p.path == DirectUdp && p.direct.None? && p.endpoints == [])
                  || (policy == Auto && p.path == DirectTcp && !connected))
  {
  }

  // ---------- what each event does ----------

  /** Pins set the path, Auto clears a leftover relay TCP, nothing else of the peer changes. */
  lemma PolicyApplied(p: Peer, policy: Policy)
    ensures var path := ApplyPolicy(p, policy).path;
            && ApplyPolicy(p, policy) == p.(path := path)
            && (policy == OnlyRelayUdp ==> path == RelayUdp) && (policy == OnlyRelayTcp ==> path == RelayTcp)
            && (policy == OnlyDirectUdp ==> path == DirectUdp) && (policy == OnlyDirectTcp ==> path == DirectTcp)
            && (policy == DirectAny ==> path == p.path)
            && (policy == Auto ==> path == if p.path == RelayTcp then RelayUdp else p.path)
  {
  }

  /** A connection is kept; it lifts the path from a relay iff the policy is Auto, DirectAny or direct TCP. */
  lemma AttachIs(p: Peer, policy: Policy, conn: ConnId)
    ensures var lifts := (policy == Auto || policy == DirectAny || policy == OnlyDirectTcp)
                         && (p.path == RelayUdp || p.path == RelayTcp);
            AttachTcp(p, policy, conn) == p.(conn := Some(conn), path := if lifts then DirectTcp else p.path)
  {
  }

  /** A PONG is noted; over direct UDP, under Auto, DirectAny or direct UDP, it teaches endpoint and path. */
  lemma FrameIs(p: Peer, policy: Policy, arrival: Arrival, pong: bool, now: int)
    ensures var attached := if arrival.ByDirectTcp? then AttachTcp(p, policy, arrival.conn) else p;
            var teaches := pong && arrival.ByDirectUdp? &&
                           (policy == Auto || policy == DirectAny || policy == OnlyDirectUdp);
            var p' := HandleFrame(p, policy, arrival, pong, now);
            && (!pong ==> p' == attached)
            && (pong && !teaches ==> p' == attached.(lastPong := now))
            && (teaches ==> p' == p.(lastPong := now, direct := Some(arrival.endpoint), path := DirectUdp))
  {
  }

  /** A probe changes something only under Auto, on a direct path, when the last PONG is over 30 s old. */
  lemma ProbeIs(p: Peer, policy: Policy, now: int)
    ensures var dead := policy == Auto && p.lastPong > 0 && now - p.lastPong > 30_000;
            var p' := Probe(p, policy, now);
            && (dead && p.path == DirectUdp ==> p' == p.(direct := None, path := RelayUdp))
            && (dead && p.path == DirectTcp ==> p' == p.(conn := None, path := RelayUdp))
            && (!dead || p.path == RelayUdp || p.path == RelayTcp ==> p' == p)
  {
  }

  // ---------- runs under one policy ----------

  /** The events are these effects; a refresh replaces the known endpoints. */
  lemma EventIs(p: Peer, policy: Policy, e: Event)
    ensures Do(p, policy, e) ==
            match e
            case Frame(arrival, pong, now) => HandleFrame(p, policy, arrival, pong, now)
            case Attach(conn) => AttachTcp(p, policy, conn)
            case ProbeTick(now) => Probe(p, policy, now)
            case Resync => p.(path := ApplyPolicy(p, policy).path)
            case Refresh(endpoints) => Peer(p.path, p.direct, p.conn, endpoints, p.lastPong)
  {
  }

  datatype Event =
    | Frame(arrival: Arrival, pong: bool, now: int)
    | Attach(conn: ConnId)
    | ProbeTick(now: int)
    | Resync
    | Refresh(endpoints: seq<Address>)

  function Do(p: Peer, policy: Policy, e: Event): Peer {
    match e
    case Frame(arrival, pong, now) => HandleFrame(p, policy, arrival, pong, now)
    case Attach(conn) => AttachTcp(p, policy, conn)
    case ProbeTick(now) => Probe(p, policy, now)
    case Resync => ApplyPolicy(p, policy)
    case Refresh(endpoints) => p.(endpoints := endpoints)
  }

  function Run(p: Peer, policy: Policy, events: seq<Event>): Peer {
    if events == [] then p else Do(Run(p, policy, events[..|events| - 1]), policy, events[|events| - 1])
  }

  /** Clocks read positive times. */
  predicate Timed(events: seq<Event>) {
    forall e :: e in events && e.Frame? ==> e.now > 0
  }

  predicate AutoOk(p: Peer) {
    && (p.direct.Some? <==> p.path == DirectUdp)
    && p.path != RelayTcp
    && (p.path == DirectUdp ==> p.lastPong > 0)
  }

  /**
    Under Auto a learned endpoint and the direct UDP path come and go together,
    and relay TCP is never used. A new peer starts that way.
   */
  lemma {:induction false} AutoInvariant(p: Peer, events: seq<Event>)
    requires AutoOk(p) && Timed(events)
    ensures AutoOk(Run(p, Auto, events)) && AutoOk(NEW_PEER)
  {
    if events != [] { AutoInvariant(p, events[..|events| - 1]); }
  }

  /** A direct UDP path that has been silent for over 30 s is given up by the next probe, any other is kept. */
  lemma AutoFallsBack(p: Peer, events: seq<Event>, now: int)
    requires AutoOk(p) && Timed(events)
    ensures var q := Run(p, Auto, events);
            q.path == DirectUdp ==>
              if now - q.lastPong > DEAD_AFTER_MS
              then Probe(q, Auto, now) == q.(path := RelayUdp, direct := None)
              else Probe(q, Auto, now) == q
  {
    AutoInvariant(p, events);
  }

  /** Under Auto nothing is ever dropped, and direct UDP goes to the learned endpoint only. */
  lemma AutoRoutes(p: Peer, events: seq<Event>, closed: set<ConnId>)
    requires AutoOk(p) && Timed(events)
    ensures var r := RouteFrame(Run(p, Auto, events), Auto, closed);
            r.ViaLearnedUdp? || r.ViaRelayUdp? || r.ViaTcp?
  {
    AutoInvariant(p, events);
  }

  /** From whatever policy a peer comes, one direct PONG under Auto puts it in order for good. */
  lemma DirectPongRestoresOrder(p: Peer, endpoint: Endpoint, now: int, events: seq<Event>)
    requires now > 0 && Timed(events)
    ensures var q := HandleFrame(ApplyPolicy(p, Auto), Auto, ByDirectUdp(endpoint), true, now);
            AutoOk(q) && AutoOk(Run(q, Auto, events))
  {
    AutoInvariant(HandleFrame(ApplyPolicy(p, Auto), Auto, ByDirectUdp(endpoint), true, now), events);
  }

  function PinnedPath(policy: Policy): PathKind
    requires policy in {OnlyRelayUdp, OnlyRelayTcp, OnlyDirectUdp, OnlyDirectTcp}
  {
    match policy
    case OnlyRelayUdp => RelayUdp
    case OnlyRelayTcp => RelayTcp
    case OnlyDirectUdp => DirectUdp
    case OnlyDirectTcp => DirectTcp
  }

  /** A pinned path is not moved by frames, connections or probes. */
  lemma {:induction false} PinHolds(p: Peer, policy: Policy, events: seq<Event>)
    requires policy in {OnlyRelayUdp, OnlyRelayTcp, OnlyDirectUdp, OnlyDirectTcp}
    ensures Run(ApplyPolicy(p, policy), policy, events).path == PinnedPath(policy)
  {
    if events != [] { PinHolds(p, policy, events[..|events| - 1]); }
  }

  /** DirectAny keeps a direct path for good, and every learned endpoint with it. */
  lemma {:induction false} DirectAnyNeverDemotes(p: Peer, events: seq<Event>)
    requires p.path == DirectUdp || p.path == DirectTcp
    ensures var q := Run(p, DirectAny, events);
            (q.path == DirectUdp || q.path == DirectTcp) && (p.direct.Some? ==> q.direct.Some?)
  {
    if events != [] { DirectAnyNeverDemotes(p, events[..|events| - 1]); }
  }

  // ---------- across a change of policy ----------

  predicate ProbesOnly(events: seq<Event>) {
    forall e :: e in events ==> e.ProbeTick? || e.Resync? || e.Attach?
  }

  /**
    A peer that never answered and was pinned to direct UDP stays there when the
    policy returns to Auto: without a PONG no probe brings it back to the relay,
    and its frames go on to an endpoint nobody has been heard from.
   */
  lemma {:induction false} PinOutlivesPolicy(endpoints: seq<Address>, events: seq<Event>, closed: set<ConnId>)
    requires endpoints != [] && ProbesOnly(events)
    ensures var pinned := ApplyPolicy(NEW_PEER.(endpoints := endpoints), OnlyDirectUdp);
            var p := Run(pinned, Auto, events);
            && p.path == DirectUdp && p.direct.None? && p.lastPong == 0 && p.endpoints == endpoints
            && RouteFrame(p, Auto, closed) == ViaKnownUdp(endpoints[0])
  {
    if events != [] {
      var last := events[|events| - 1];
      assert last.ProbeTick? || last.Resync? || last.Attach?;
      PinOutlivesPolicy(endpoints, events[..|events| - 1], closed);
    }
  }

  /** A probe under Auto gives a direct path up iff a PONG was ever seen and none for 30 s. */
  lemma DemotedIff(p: Peer, now: int)
    requires p.path == DirectUdp || p.path == DirectTcp
    ensures Probe(p, Auto, now).path == RelayUdp <==> p.lastPong > 0 && now - p.lastPong > DEAD_AFTER_MS
    ensures Probe(p, Auto, now).path != RelayUdp ==> Probe(p, Auto, now) == p
  {
  }

  // ---------- runs through changes of policy ----------

  datatype Node = Node(peer: Peer, policy: Policy)

  /** A change of policy is applied to the path at once. */
  datatype Step = SetPolicy(policy: Policy) | Happens(event: Event)

  function Advance(n: Node, s: Step): Node {
    match s
    case SetPolicy(policy) => Node(ApplyPolicy(n.peer, policy), policy)
    case Happens(event) => n.(peer := Do(n.peer, n.policy, event))
  }

  function Life(n: Node, steps: seq<Step>): Node {
    if steps == [] then n else Advance(Life(n, steps[..|steps| - 1]), steps[|steps| - 1])
  }

  predicate IsDirect(path: PathKind) { path == DirectUdp || path == DirectTcp }

  predicate IsPong(s: Step) { s.Happens? && s.event.Frame? && s.event.pong }

  /** Clocks read positive times. */
  predicate TimedStep(s: Step) { s.Happens? && s.event.Frame? ==> s.event.now > 0 }

  predicate BringsTcp(s: Step) {
    s.Happens? && (s.event.Attach? || (s.event.Frame? && s.event.arrival.ByDirectTcp?))
  }

  /** The policy that the step applies, if it applies one. */
  function Applied(policy: Policy, s: Step): Option<Policy> {
    if s.SetPolicy? then Some(s.policy) else if s.event.Resync? then Some(policy) else None
  }

  /** The step pins the path direct, or brings a TCP connection that the policy in force allows. */
  predicate Raises(policy: Policy, s: Step) {
    Applied(policy, s) in {Some(OnlyDirectUdp), Some(OnlyDirectTcp)} || (BringsTcp(s) && Allows(policy, DirectTcp))
  }

  predicate Lowers(policy: Policy, s: Step) {
    Applied(policy, s) in {Some(OnlyRelayUdp), Some(OnlyRelayTcp)}
  }

  function PolicyAt(policy: Policy, steps: seq<Step>): Policy {
    if steps == [] then policy
    else
      var s := steps[|steps| - 1];
      if s.SetPolicy? then s.policy else PolicyAt(policy, steps[..|steps| - 1])
  }

  predicate RaisedAt(policy: Policy, steps: seq<Step>, i: nat)
    requires i < |steps|
  {
    Raises(PolicyAt(policy, steps[..i]), steps[i])
  }

  predicate LoweredAt(policy: Policy, steps: seq<Step>, i: nat)
    requires i < |steps|
  {
    Lowers(PolicyAt(policy, steps[..i]), steps[i])
  }

  /** Some step made the path direct and no relay pin came after it. */
  ghost predicate StillRaised(policy: Policy, steps: seq<Step>) {
    exists i: nat :: RaisedSince(policy, steps, i)
  }

  lemma SameInPrefix(policy: Policy, steps: seq<Step>, i: nat)
    requires i + 1 < |steps|
    ensures RaisedAt(policy, steps[..|steps| - 1], i) == RaisedAt(policy, steps, i)
    ensures LoweredAt(policy, steps[..|steps| - 1], i) == LoweredAt(policy, steps, i)
  {
    var n := |steps| - 1;
    assert steps[..n][..i] == steps[..i];
  }

  /** Raised by step `i`, and not lowered since. */
  ghost predicate RaisedSince(policy: Policy, steps: seq<Step>, i: nat) {
    i < |steps| && RaisedAt(policy, steps, i) && forall j :: i < j < |steps| ==> !LoweredAt(policy, steps, j)
  }

  lemma RaisedSinceNext(policy: Policy, steps: seq<Step>, i: nat)
    requires i + 1 < |steps|
    ensures var n := |steps| - 1;
            RaisedSince(policy, steps, i) <==> RaisedSince(policy, steps[..n], i) && !LoweredAt(policy, steps, n)
  {
    var n := |steps| - 1;
    forall j | 0 <= j < n
      ensures RaisedAt(policy, steps[..n], j) == RaisedAt(policy, steps, j)
      ensures LoweredAt(policy, steps[..n], j) == LoweredAt(policy, steps, j)
    {
      SameInPrefix(policy, steps, j);
    }
  }

  lemma StillRaisedNext(policy: Policy, steps: seq<Step>)
    requires steps != []
    ensures var n := |steps| - 1;
            StillRaised(policy, steps)
            <==> RaisedAt(policy, steps, n) || (StillRaised(policy, steps[..n]) && !LoweredAt(policy, steps, n))
  {
    var n := |steps| - 1;
    if i: nat :| RaisedSince(policy, steps, i) {
      if i < n { RaisedSinceNext(policy, steps, i); }
    }
    if RaisedAt(policy, steps, n) { assert RaisedSince(policy, steps, n); }
    if i: nat :| RaisedSince(policy, steps[..n], i) { RaisedSinceNext(policy, steps, i); }
  }

  lemma {:induction false} LifePolicy(n: Node, steps: seq<Step>)
    ensures Life(n, steps).policy == PolicyAt(n.policy, steps)
  {
    if steps != [] { LifePolicy(n, steps[..|steps| - 1]); }
  }

  /** One step without a PONG, towards a peer that has never answered. */
  lemma QuietStep(n: Node, s: Step)
    requires n.peer.lastPong == 0 && !IsPong(s)
    ensures Advance(n, s).peer.lastPong == 0
    ensures IsDirect(Advance(n, s).peer.path) <==>
             Raises(n.policy, s) || (IsDirect(n.peer.path) && !Lowers(n.policy, s))
  {
  }

  /** Until the first PONG a path is direct iff it was pinned or a TCP connection came, and no relay pin followed. */
  lemma {:induction false} QuietPath(policy: Policy, steps: seq<Step>)
    requires forall s :: s in steps ==> !IsPong(s)
    ensures var p := Life(Node(NEW_PEER, policy), steps).peer;
            p.lastPong == 0 && (IsDirect(p.path) <==> StillRaised(policy, steps))
  {
    if steps != [] {
      var n := |steps| - 1;
      QuietPath(policy, steps[..n]);
      LifePolicy(Node(NEW_PEER, policy), steps[..n]);
      QuietStep(Life(Node(NEW_PEER, policy), steps[..n]), steps[n]);
      StillRaisedNext(policy, steps);
    }
  }

  /** The time of the last PONG. */
  function LastPongOf(steps: seq<Step>): Option<int> {
    if steps == [] then None
    else
      var s := steps[|steps| - 1];
      if IsPong(s) then Some(s.event.now) else LastPongOf(steps[..|steps| - 1])
  }

  lemma {:induction false} LastPongIsKept(policy: Policy, steps: seq<Step>)
    requires forall s :: s in steps ==> TimedStep(s)
    ensures var p := Life(Node(NEW_PEER, policy), steps).peer;
            && p.lastPong == (if LastPongOf(steps).Some? then LastPongOf(steps).value else 0)
            && (LastPongOf(steps).Some? ==> p.lastPong > 0)
  {
    if steps != [] {
      var n := |steps| - 1;
      LastPongIsKept(policy, steps[..n]);
      PongStep(Life(Node(NEW_PEER, policy), steps[..n]), steps[n]);
      assert steps[n] in steps && TimedStep(steps[n]);
    }
  }

  lemma {:induction false} NoPongIff(steps: seq<Step>)
    ensures LastPongOf(steps).None? <==> forall s :: s in steps ==> !IsPong(s)
  {
    if steps != [] {
      var n := |steps| - 1;
      NoPongIff(steps[..n]);
      assert steps == steps[..n] + [steps[n]];
    }
  }

  lemma PongStep(n: Node, s: Step)
    ensures Advance(n, s).peer.lastPong == if IsPong(s) then s.event.now else n.peer.lastPong
  {
  }

  /**
    "A direct path implies that a PONG was seen", over every run from a new peer
    and through every change of policy: it fails exactly in the runs without a
    PONG in which a direct pin, or a TCP connection that the policy allowed, was
    not followed by a relay pin.
   */
  lemma DirectWithoutPongIff(policy: Policy, steps: seq<Step>)
    requires forall s :: s in steps ==> TimedStep(s)
    ensures var p := Life(Node(NEW_PEER, policy), steps).peer;
            IsDirect(p.path) && p.lastPong == 0
            <==> (forall s :: s in steps ==> !IsPong(s)) && StillRaised(policy, steps)
  {
    LastPongIsKept(policy, steps);
    NoPongIff(steps);
    if forall s :: s in steps ==> !IsPong(s) { QuietPath(policy, steps); }
  }

  /**
    Over every such run: the next probe gives a direct path up iff a PONG came, and none in the last 30
    s, and the policy is Auto.
   */
  lemma SilentPathGivenUpIff(policy: Policy, steps: seq<Step>, now: int)
    requires forall s :: s in steps ==> TimedStep(s)
    ensures var n := Life(Node(NEW_PEER, policy), steps);
            IsDirect(n.peer.path) ==>
              (!IsDirect(Advance(n, Happens(ProbeTick(now))).peer.path)
               <==> && PolicyAt(policy, steps) == Auto
                    && LastPongOf(steps).Some? && now - LastPongOf(steps).value > DEAD_AFTER_MS)
  {
    LastPongIsKept(policy, steps);
    LifePolicy(Node(NEW_PEER, policy), steps);
  }

  /**
    Without any change of policy: a TCP connection that carries no PONG keeps its
    peer on direct TCP under Auto for good, whatever probes there are.
   */
  lemma {:induction false} HalfOpenTcpStays(conn: ConnId, events: seq<Event>)
    requires forall e :: e in events ==> !(e.Frame? && e.pong)
    ensures var p := Run(AttachTcp(NEW_PEER, Auto, conn), Auto, events);
            p.path == DirectTcp && p.lastPong == 0 && p.conn.Some?
  {
    if events != [] { HalfOpenTcpStays(conn, events[..|events| - 1]); }
  }

  /** The endpoint of the last direct PONG that taught one, unless a probe has given it up since. */
  function LastLearned(policy: Policy, steps: seq<Step>): Option<Endpoint> {
    if steps == [] then None
    else
      var n := |steps| - 1;
      var before, s := Life(Node(NEW_PEER, policy), steps[..n]), steps[n];
      if IsPong(s) && s.event.arrival.ByDirectUdp? && before.policy in {Auto, DirectAny, OnlyDirectUdp}
      then Some(s.event.arrival.endpoint)
      else if s.Happens? && s.event.ProbeTick? && before.policy == Auto && before.peer.path == DirectUdp
              && before.peer.lastPong > 0 && s.event.now - before.peer.lastPong > 30_000
      then None
      else LastLearned(policy, steps[..n])
  }

  /** Over any run, the learned endpoint is that of the latest direct PONG. */
  lemma {:induction false} LearnedIsLatest(policy: Policy, steps: seq<Step>)
    ensures Life(Node(NEW_PEER, policy), steps).peer.direct == LastLearned(policy, steps)
  {
    if steps != [] {
      var n := |steps| - 1;
      LearnedIsLatest(policy, steps[..n]);
      LearnedStep(Life(Node(NEW_PEER, policy), steps[..n]), steps[n]);
    }
  }

  lemma LearnedStep(n: Node, s: Step)
    ensures Advance(n, s).peer.direct ==
            if IsPong(s) && s.event.arrival.ByDirectUdp? && n.policy in {Auto, DirectAny, OnlyDirectUdp}
            then Some(s.event.arrival.endpoint)
            else if s.Happens? && s.event.ProbeTick? && n.policy == Auto && n.peer.path == DirectUdp
                    && n.peer.lastPong > 0 && s.event.now - n.peer.lastPong > 30_000
            then None
            else n.peer.direct
  {
    if s.Happens? && s.event.Frame? {
      FrameIs(n.peer, n.policy, s.event.arrival, s.event.pong, s.event.now);
    }
  }
}
