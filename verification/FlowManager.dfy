/** User-space TCP flows over frames: opening, sequence numbers out, in-order delivery in. */
module FlowManager {
  import opened Wrappers
  import opened Endec
  import opened Text
  import opened FlowWire

  const FLOW_MAX_DATAGRAM: nat := 65_400
  const ID_DRAWS: nat := 16

  datatype FlowKind = OutTcp(awaitingReply: bool) | InTcp | Udp(outbound: bool)

  datatype FlowCtx = FlowCtx(netId: nat, peer: u64, kind: FlowKind, nextSend: u32, nextRecv: u32)

  /** A frame handed to the engine for sealing. */
  datatype Outgoing = Outgoing(netId: nat, peer: u64, message: FlowMsg)

  /** A chunk handed to the stream of a flow. */
  datatype Delivery = Delivery(flowId: u32, chunk: Bytes)

  datatype ProtoKind = TcpService | UdpService

  /** A local service that peers of a network may reach. */
  datatype ExposeRule = ExposeRule(port: nat, proto: ProtoKind, dest: Bytes)

  type Exposes = map<nat, seq<ExposeRule>>

  /** A connect to a local service that has started and not ended. */
  datatype Connect = Connect(flowId: u32, netId: nat, peer: u64, dest: Bytes)

  /** A local UDP socket serves one port of one flow. */
  datatype LocalKey = LocalKey(netId: nat, flowId: u32, port: nat)

  /** A datagram handed out: to the handle of an own flow, or by a local socket to a service. */
  datatype Handed =
    | ToHandle(flowId: u32, addr: Bytes, data: Bytes)
    | ToService(key: LocalKey, dest: Bytes, data: Bytes)

  /** What decides about a datagram from outside: room at the handle, an own address in the network, a socket bound. */
  datatype Local = Local(room: bool, hasAddress: bool, bound: bool)

  const NO_LOCAL: Local := Local(false, false, false)

  datatype FlowState = FlowState(
    flows: map<u32, FlowCtx>,
    connecting: set<u32>,
    running: multiset<Connect>,
    locals: set<LocalKey>,
    exposes: Exposes,
    sent: seq<Outgoing>,
    delivered: seq<Delivery>,
    datagrams: seq<Handed>)

  const NO_FLOWS: FlowState := FlowState(map[], {}, multiset{}, {}, map[], [], [], [])

  function WrapNext(x: u32): u32 { (x + 1) % (U32_MAX + 1) }

  function NewFlow(netId: nat, peer: u64, kind: FlowKind): FlowCtx { FlowCtx(netId, peer, kind, 0, 0) }

  /** DATA takes the next number of its flow, 0 if the flow is gone; everything else carries 0. */
  function SendFrame(st: FlowState, netId: nat, peer: u64, flowId: u32, flags: u8, payload: Bytes): FlowState {
    if |payload| > FLOW_MAX_DATAGRAM then st
    else if flags == FLAG_DATA && flowId in st.flows then
      var ctx := st.flows[flowId];
      st.(flows := st.flows[flowId := ctx.(nextSend := WrapNext(ctx.nextSend))],
          sent := st.sent + [Outgoing(netId, peer, FlowMsg(flowId, ctx.nextSend, flags, payload))])
    else st.(sent := st.sent + [Outgoing(netId, peer, FlowMsg(flowId, 0, flags, payload))])
  }

  function OtherLocals(locals: set<LocalKey>, flowId: u32): set<LocalKey> {
    set k | k in locals && k.flowId != flowId
  }

  function CloseFlow(st: FlowState, flowId: u32, notifyPeer: bool): FlowState {
    if flowId !in st.flows then st
    else
      var ctx := st.flows[flowId];
      var rest := st.(flows := st.flows - {flowId}, locals := OtherLocals(st.locals, flowId));
      if notifyPeer then SendFrame(rest, ctx.netId, ctx.peer, flowId, FLAG_CLOSE, []) else rest
  }

  /** DATA: deliver in sequence, cut the flow at the first gap. */
  function OnData(st: FlowState, m: FlowMsg): FlowState {
    if m.flowId !in st.flows then st
    else
      var ctx := st.flows[m.flowId];
      if ctx.kind.Udp? || m.seqNo != ctx.nextRecv then CloseFlow(st, m.flowId, true)
      else st.(flows := st.flows[m.flowId := ctx.(nextRecv := WrapNext(ctx.nextRecv))],
               delivered := st.delivered + [Delivery(m.flowId, m.payload)])
  }

  /** The reply to an OPEN is taken once. */
  function OnOpened(st: FlowState, flowId: u32): FlowState {
    if flowId in st.flows && st.flows[flowId].kind == OutTcp(true)
    then st.(flows := st.flows[flowId := st.flows[flowId].(kind := OutTcp(false))])
    else st
  }

  /** Where the first rule for this protocol and port leads. */
  function FindService(rules: seq<ExposeRule>, proto: ProtoKind, port: nat): Option<Bytes> {
    if rules == [] then None
    else if rules[0].proto == proto && rules[0].port == port then Some(rules[0].dest)
    else FindService(rules[1..], proto, port)
  }

  function RulesOf(exposes: Exposes, netId: nat): seq<ExposeRule> {
    if netId in exposes then exposes[netId] else []
  }

  function NoServiceText(port: nat): Bytes { Ascii("no tcp service on port " + Decimal(port, 0)) }

  const UNREACHABLE_TEXT: string := "local service unreachable"

  /** An established flow answers again; a connect starts unless one is running for the flow. */
  function OnOpenTcp(st: FlowState, netId: nat, peer: u64, flowId: u32, port: nat): FlowState {
    if flowId in st.flows then
      if st.flows[flowId].kind.InTcp? then SendFrame(st, netId, peer, flowId, FLAG_OPENED_OK, []) else st
    else
      match FindService(RulesOf(st.exposes, netId), TcpService, port)
      case None => SendFrame(st, netId, peer, flowId, FLAG_OPENED_FAIL, BuildOpenedFail(NoServiceText(port)))
      case Some(dest) =>
        if flowId in st.connecting then st
        else st.(connecting := st.connecting + {flowId},
                 running := st.running + multiset{Connect(flowId, netId, peer, dest)})
  }

  function OnOpenUdp(st: FlowState, netId: nat, peer: u64, flowId: u32): FlowState {
    var st' := if flowId in st.flows then st else st.(flows := st.flows[flowId := NewFlow(netId, peer, Udp(false))]);
    SendFrame(st', netId, peer, flowId, FLAG_OPENED_OK, [])
  }

  function OnOpen(st: FlowState, netId: nat, peer: u64, flowId: u32, payload: Bytes): FlowState {
    match ParseOpen(payload)
    case None => st
    case Some(info) =>
      if info.proto == PROTO_UDP then OnOpenUdp(st, netId, peer, flowId)
      else
        match PortOf(info.addr)
        case None => st
        case Some(port) => OnOpenTcp(st, netId, peer, flowId, port)
  }

  /** The end of a local connect: the flow is registered, whatever has its number, and answered. */
  function FinishConnect(st: FlowState, c: Connect, connected: bool): FlowState {
    if c !in st.running then st
    else
      var st' := st.(connecting := st.connecting - {c.flowId}, running := st.running - multiset{c});
      if connected then
        var st'' := st'.(flows := st'.flows[c.flowId := NewFlow(c.netId, c.peer, InTcp)]);
        SendFrame(st'', c.netId, c.peer, c.flowId, FLAG_OPENED_OK, [])
      else SendFrame(st', c.netId, c.peer, c.flowId, FLAG_OPENED_FAIL, BuildOpenedFail(Ascii(UNREACHABLE_TEXT)))
  }

  /** To the handle of an own UDP flow; failing that, through a local socket to the service of the port. */
  function OnDatagram(st: FlowState, netId: nat, flowId: u32, payload: Bytes, local: Local): FlowState {
    match ParseDatagram(payload)
    case None => st
    case Some(info) =>
      if flowId in st.flows && st.flows[flowId].kind == Udp(true) && local.room then
        st.(datagrams := st.datagrams + [ToHandle(flowId, info.addr, info.data)])
      else
        match PortOf(info.addr)
        case None => st
        case Some(port) => ServeDatagram(st, LocalKey(netId, flowId, port), info.data, local)
  }

  function ServeDatagram(st: FlowState, key: LocalKey, data: Bytes, local: Local): FlowState {
    match FindService(RulesOf(st.exposes, key.netId), UdpService, key.port)
    case None => st
    case Some(dest) =>
      if !local.hasAddress || (key !in st.locals && !local.bound) then st
      else st.(locals := st.locals + {key}, datagrams := st.datagrams + [ToService(key, dest, data)])
  }

  function OnMessage(st: FlowState, netId: nat, peer: u64, m: FlowMsg, local: Local): FlowState {
    if m.flags == FLAG_DATA then OnData(st, m)
    else if m.flags == FLAG_CLOSE then CloseFlow(st, m.flowId, false)
    else if m.flags == FLAG_OPENED_OK || m.flags == FLAG_OPENED_FAIL then OnOpened(st, m.flowId)
    else if m.flags == FLAG_OPEN then OnOpen(st, netId, peer, m.flowId, m.payload)
    else OnDatagram(st, netId, m.flowId, m.payload, local)
  }

  function OnFrame(st: FlowState, netId: nat, peer: u64, payload: Bytes, local: Local): FlowState {
    match Decode(payload)
    case None => st
    case Some(m) => OnMessage(st, netId, peer, m, local)
  }

  /** Numbers that a flow of this node's own may take. */
  predicate Usable(flows: map<u32, FlowCtx>, flowId: u32) { flowId != 0 && flowId !in flows }

  function OwnKind(tcp: bool): FlowKind { if tcp then OutTcp(true) else Udp(true) }

  /** A flow that this node opens, with its first OPEN. */
  function OpenOwn(st: FlowState, flowId: u32, netId: nat, peer: u64, tcp: bool, dest: Bytes): FlowState {
    if !Usable(st.flows, flowId) then st
    else
      var st' := st.(flows := st.flows[flowId := NewFlow(netId, peer, OwnKind(tcp))]);
      SendFrame(st', netId, peer, flowId, FLAG_OPEN, BuildOpen(if tcp then PROTO_TCP else PROTO_UDP, dest))
  }

  class Manager {
    var flows: map<u32, FlowCtx>
    var connecting: set<u32>
    var running: multiset<Connect>
    var locals: set<LocalKey>
    var exposes: Exposes
    var sent: seq<Outgoing>
    var delivered: seq<Delivery>
    var datagrams: seq<Handed>

    function View(): FlowState
      reads this
    {
      FlowState(flows, connecting, running, locals, exposes, sent, delivered, datagrams)
    }

    constructor ()
      ensures View() == NO_FLOWS
    {
      flows, connecting, running, locals := map[], {}, multiset{}, {};
      exposes, sent, delivered, datagrams := map[], [], [], [];
    }

    method SetExposes(netId: nat, rules: seq<ExposeRule>)
      modifies this`exposes
      ensures View() == old(View()).(exposes := old(exposes)[netId := rules])
    {
      exposes := exposes[netId := rules];
    }

    /** The first usable one of the random numbers drawn. */
    method NewFlowId(draws: seq<u32>) returns (id: Option<u32>)
      ensures id.None? ==> forall i :: 0 <= i < |draws| && i < 16 ==> draws[i] == 0 || draws[i] in flows
      ensures id.Some? ==> id.value != 0 && id.value !in flows
      ensures id.Some? ==> exists i :: 0 <= i < |draws| && i < 16 && draws[i] == id.value
                                       && forall j :: 0 <= j < i ==> draws[j] == 0 || draws[j] in flows
    {
      var i := 0;
      while i < |draws| && i < ID_DRAWS
        invariant i <= |draws|
        invariant forall j :: 0 <= j < i ==> draws[j] == 0 || draws[j] in flows
      {
        if draws[i] != 0 && draws[i] !in flows { return Some(draws[i]); }
        i := i + 1;
      }
      return None;
    }

    method OpenFlow(draws: seq<u32>, netId: nat, peer: u64, tcp: bool, dest: Bytes) returns (id: Option<u32>)
      modifies this`flows, this`sent
      ensures id.None? ==> View() == old(View())
      ensures id.Some? ==>
                id.value != 0 && id.value !in old(flows)
                && View() == OpenOwn(old(View()), id.value, netId, peer, tcp, dest)
    {
      id := NewFlowId(draws);
      if id.Some? {
        flows := flows[id.value := FlowCtx(netId, peer, if tcp then OutTcp(true) else Udp(true), 0, 0)];
        Send(netId, peer, id.value, FLAG_OPEN, BuildOpen(if tcp then PROTO_TCP else PROTO_UDP, dest));
      }
    }

    method Send(netId: nat, peer: u64, flowId: u32, flags: u8, payload: Bytes)
      modifies this`flows, this`sent
      ensures View() == SendFrame(old(View()), netId, peer, flowId, flags, payload)
    {
      if |payload| > FLOW_MAX_DATAGRAM { return; }
      var seqNo := 0;
      if flags == FLAG_DATA && flowId in flows {
        seqNo := flows[flowId].nextSend;
        flows := flows[flowId := flows[flowId].(nextSend := WrapNext(seqNo))];
      }
      sent := sent + [Outgoing(netId, peer, FlowMsg(flowId, seqNo, flags, payload))];
    }

    method Close(flowId: u32, notifyPeer: bool)
      modifies this`flows, this`sent, this`locals
      ensures View() == CloseFlow(old(View()), flowId, notifyPeer)
    {
      if flowId in flows {
        var ctx := flows[flowId];
        flows := flows - {flowId};
        if notifyPeer { Send(ctx.netId, ctx.peer, flowId, FLAG_CLOSE, []); }
        locals := set k | k in locals && k.flowId != flowId;
      }
    }

    method HandleOpen(netId: nat, peer: u64, flowId: u32, payload: Bytes)
      modifies this
      ensures View() == OnOpen(old(View()), netId, peer, flowId, payload)
    {
      var info := ParseOpen(payload);
      if info.None? { return; }
      if info.value.proto == PROTO_UDP {
        if flowId !in flows {
          flows := flows[flowId := FlowCtx(netId, peer, Udp(false), 0, 0)];
        }
        Send(netId, peer, flowId, FLAG_OPENED_OK, []);
        return;
      }
      var port := PortOf(info.value.addr);
      if port.Some? { HandleOpenTcp(netId, peer, flowId, port.value); }
    }

    method HandleOpenTcp(netId: nat, peer: u64, flowId: u32, port: nat)
      modifies this
      ensures View() == OnOpenTcp(old(View()), netId, peer, flowId, port)
    {
      if flowId in flows {
        if flows[flowId].kind.InTcp? { Send(netId, peer, flowId, FLAG_OPENED_OK, []); }
        return;
      }
      var service := FindService(RulesOf(exposes, netId), TcpService, port);
      if service.None? {
        Send(netId, peer, flowId, FLAG_OPENED_FAIL, BuildOpenedFail(NoServiceText(port)));
        return;
      }
      if flowId in connecting { return; }
      connecting := connecting + {flowId};
      running := running + multiset{Connect(flowId, netId, peer, service.value)};
    }

    method ConnectEnded(c: Connect, connected: bool)
      modifies this
      ensures View() == FinishConnect(old(View()), c, connected)
    {
      if c !in running { return; }
      running := running - multiset{c};
      if connected {
        flows := flows[c.flowId := FlowCtx(c.netId, c.peer, InTcp, 0, 0)];
        connecting := connecting - {c.flowId};
        Send(c.netId, c.peer, c.flowId, FLAG_OPENED_OK, []);
      } else {
        connecting := connecting - {c.flowId};
        Send(c.netId, c.peer, c.flowId, FLAG_OPENED_FAIL, BuildOpenedFail(Ascii(UNREACHABLE_TEXT)));
      }
    }

    method HandleDatagram(netId: nat, flowId: u32, payload: Bytes, local: Local)
      modifies this`locals, this`datagrams
      ensures View() == OnDatagram(old(View()), netId, flowId, payload, local)
    {
      var info := ParseDatagram(payload);
      if info.None? { return; }
      var handled := false;
      if flowId in flows && flows[flowId].kind == Udp(true) && local.room {
        datagrams := datagrams + [ToHandle(flowId, info.value.addr, info.value.data)];
        handled := true;
      }
      if handled { return; }
      var port := PortOf(info.value.addr);
      if port.None? { return; }
      var service := FindService(RulesOf(exposes, netId), UdpService, port.value);
      if service.None? || !local.hasAddress { return; }
      var key := LocalKey(netId, flowId, port.value);
      if key !in locals {
        if !local.bound { return; }
        locals := locals + {key};
      }
      datagrams := datagrams + [ToService(key, service.value, info.value.data)];
    }

    method Receive(netId: nat, peer: u64, payload: Bytes, local: Local)
      modifies this
      ensures View() == OnFrame(old(View()), netId, peer, payload, local)
    {
      var decoded := Decode(payload);
      if decoded.None? { return; }
      var m := decoded.value;
      if m.flags == FLAG_OPEN {
        HandleOpen(netId, peer, m.flowId, m.payload);
      } else if m.flags == FLAG_OPENED_OK || m.flags == FLAG_OPENED_FAIL {
        if m.flowId in flows && flows[m.flowId].kind == OutTcp(true) {
          flows := flows[m.flowId := flows[m.flowId].(kind := OutTcp(false))];
        }
      } else if m.flags == FLAG_CLOSE {
        Close(m.flowId, false);
      } else if m.flags == FLAG_DATA {
        var kill := false;
        if m.flowId in flows {
          var ctx := flows[m.flowId];
          if ctx.kind.Udp? {
            kill := true;
          } else if m.seqNo != ctx.nextRecv {
            kill := true;
          } else {
            flows := flows[m.flowId := ctx.(nextRecv := WrapNext(ctx.nextRecv))];
            delivered := delivered + [Delivery(m.flowId, m.payload)];
          }
        }
        if kill { Close(m.flowId, true); }
      } else {
        HandleDatagram(netId, m.flowId, m.payload, local);
      }
    }
  }
}
