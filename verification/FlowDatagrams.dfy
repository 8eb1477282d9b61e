/** UDP flows: where datagrams go, and which local sockets they leave behind. */
module FlowDatagrams {
  import opened Wrappers
  import opened Endec
  import opened FlowWire
  import opened FlowManager
  import opened FlowLaws

  /** The socket that a DATAGRAM is served through, if it is for a service of this node. */
  function SocketFor(st: FlowState, op: Op): Option<LocalKey> {
    if !op.Arrive? || Decode(op.bytes).None? then None
    else
      var m := Decode(op.bytes).value;
      if m.flags != FLAG_DATAGRAM || ParseDatagram(m.payload).None? || TakenByHandle(st, m.flowId, op.local) then None
      else
        var port := PortOf(ParseDatagram(m.payload).value.addr);
        if port.None? || FindService(RulesOf(st.exposes, op.netId), UdpService, port.value).None?
           || !op.local.hasAddress then None
        else Some(LocalKey(op.netId, m.flowId, port.value))
  }

  predicate TakenByHandle(st: FlowState, flowId: u32, local: Local) {
    flowId in st.flows && st.flows[flowId].kind == Udp(true) && local.room
  }

  /** A DATAGRAM touches no flow, no stream and no frame; it opens the socket it is served through and no other. */
  lemma DatagramEffect(st: FlowState, op: Op)
    requires op.Arrive? && Decode(op.bytes).Some? && Decode(op.bytes).value.flags == FLAG_DATAGRAM
    ensures var st' := Do(st, op);
            && st' == st.(locals := st'.locals, datagrams := st'.datagrams)
            && st'.locals == match SocketFor(st, op)
                             case Some(key) => if op.local.bound then st.locals + {key} else st.locals
                             case None => st.locals
  {
  }

  /** The socket is one of a flow that has an entry. */
  predicate Owned(st: FlowState, k: LocalKey) { k in st.locals ==> k.flowId in st.flows }

  ghost predicate AllOwned(st: FlowState) { forall k :: Owned(st, k) }

  /** A datagram for a number without an entry is served all the same. */
  predicate OpensOrphan(st: FlowState, op: Op) {
    SocketFor(st, op).Some? && op.local.bound && SocketFor(st, op).value.flowId !in st.flows
  }

  lemma SendLocals(st: FlowState, netId: nat, peer: u64, flowId: u32, flags: u8, payload: Bytes, f: u32)
    ensures var st' := SendFrame(st, netId, peer, flowId, flags, payload);
            st'.locals == st.locals && (f in st'.flows <==> f in st.flows)
  {
  }

  /** Closing a flow takes its sockets with it. */
  lemma CloseLocals(st: FlowState, flowId: u32, notify: bool, k: LocalKey)
    requires Owned(st, k)
    ensures Owned(CloseFlow(st, flowId, notify), k)
  {
    if flowId in st.flows {
      var ctx := st.flows[flowId];
      var rest := st.(flows := st.flows - {flowId}, locals := OtherLocals(st.locals, flowId));
      SendLocals(rest, ctx.netId, ctx.peer, flowId, FLAG_CLOSE, [], k.flowId);
    }
  }

  lemma OpenLocals(st: FlowState, netId: nat, peer: u64, flowId: u32, payload: Bytes, k: LocalKey)
    requires Owned(st, k)
    ensures Owned(OnOpen(st, netId, peer, flowId, payload), k)
  {
    var info := ParseOpen(payload);
    if info.Some? {
      if info.value.proto == PROTO_UDP {
        UdpLocals(st, netId, peer, flowId, k);
      } else if PortOf(info.value.addr).Some? {
        TcpLocals(st, netId, peer, flowId, PortOf(info.value.addr).value, k);
      }
    }
  }

  lemma UdpLocals(st: FlowState, netId: nat, peer: u64, flowId: u32, k: LocalKey)
    requires Owned(st, k)
    ensures Owned(OnOpenUdp(st, netId, peer, flowId), k)
  {
    var accepted :=
      if flowId in st.flows then st else st.(flows := st.flows[flowId := NewFlow(netId, peer, Udp(false))]);
    SendLocals(accepted, netId, peer, flowId, FLAG_OPENED_OK, [], k.flowId);
  }

  lemma TcpLocals(st: FlowState, netId: nat, peer: u64, flowId: u32, port: nat, k: LocalKey)
    requires Owned(st, k)
    ensures Owned(OnOpenTcp(st, netId, peer, flowId, port), k)
  {
    if flowId in st.flows {
      SendLocals(st, netId, peer, flowId, FLAG_OPENED_OK, [], k.flowId);
    } else if FindService(RulesOf(st.exposes, netId), TcpService, port).None? {
      SendLocals(st, netId, peer, flowId, FLAG_OPENED_FAIL, BuildOpenedFail(NoServiceText(port)), k.flowId);
    }
  }

  lemma FinishLocals(st: FlowState, c: Connect, connected: bool, k: LocalKey)
    requires Owned(st, k)
    ensures Owned(FinishConnect(st, c, connected), k)
  {
    if c in st.running {
      var ended := st.(connecting := st.connecting - {c.flowId}, running := st.running - multiset{c});
      if connected {
        var registered := ended.(flows := ended.flows[c.flowId := NewFlow(c.netId, c.peer, InTcp)]);
        SendLocals(registered, c.netId, c.peer, c.flowId, FLAG_OPENED_OK, [], k.flowId);
      } else {
        SendLocals(ended, c.netId, c.peer, c.flowId, FLAG_OPENED_FAIL,
                  BuildOpenedFail(Ascii(UNREACHABLE_TEXT)), k.flowId);
      }
    }
  }

  lemma CreateLocals(st: FlowState, flowId: u32, netId: nat, peer: u64, tcp: bool, dest: Bytes, k: LocalKey)
    requires Owned(st, k)
    ensures Owned(OpenOwn(st, flowId, netId, peer, tcp, dest), k)
  {
    var proto := if tcp then PROTO_TCP else PROTO_UDP;
    var registered := st.(flows := st.flows[flowId := NewFlow(netId, peer, OwnKind(tcp))]);
    SendLocals(registered, netId, peer, flowId, FLAG_OPEN, BuildOpen(proto, dest), k.flowId);
  }

  lemma ArriveLocals(st: FlowState, op: Op, m: FlowMsg, k: LocalKey)
    requires op.Arrive? && Decode(op.bytes) == Some(m) && m.flags != FLAG_DATAGRAM && Owned(st, k)
    ensures Owned(OnMessage(st, op.netId, op.peer, m, op.local), k)
  {
    if m.flags == FLAG_DATA {
      CloseLocals(st, m.flowId, true, k);
    } else if m.flags == FLAG_CLOSE {
      CloseLocals(st, m.flowId, false, k);
    } else if m.flags == FLAG_OPEN {
      OpenLocals(st, op.netId, op.peer, m.flowId, m.payload, k);
    }
  }

  /** Every step but one kind keeps the sockets with their flows. */
  lemma OtherStepsKeepOwned(st: FlowState, op: Op, k: LocalKey)
    requires Owned(st, k)
    requires op.Arrive? ==> (Decode(op.bytes).Some? ==> Decode(op.bytes).value.flags != FLAG_DATAGRAM)
    ensures Owned(Do(st, op), k)
  {
    match op
    case Write(netId, peer, flowId, chunk) => SendLocals(st, netId, peer, flowId, FLAG_DATA, chunk, k.flowId);
    case SendControl(netId, peer, flowId, flags, payload) =>
      SendLocals(st, netId, peer, flowId, flags, payload, k.flowId);
    case Arrive(_, _, bytes, _) => if Decode(bytes).Some? { ArriveLocals(st, op, Decode(bytes).value, k); }
    case Create(flowId, netId, peer, tcp, dest) => CreateLocals(st, flowId, netId, peer, tcp, dest, k);
    case Finish(c, connected) => FinishLocals(st, c, connected, k);
    case Configure(_, _) =>
    case Teardown(flowId, notifyPeer) => CloseLocals(st, flowId, notifyPeer, k);
    case Idle(_) =>
  }

  lemma StepOwnedIff(st: FlowState, op: Op)
    requires AllOwned(st)
    ensures AllOwned(Do(st, op)) <==> !OpensOrphan(st, op)
  {
    if op.Arrive? && Decode(op.bytes).Some? && Decode(op.bytes).value.flags == FLAG_DATAGRAM {
      DatagramEffect(st, op);
      DatagramOwnedIff(st, op);
    } else {
      forall k ensures Owned(Do(st, op), k) {
        assert Owned(st, k);
        OtherStepsKeepOwned(st, op, k);
      }
    }
  }

  lemma DatagramOwnedIff(st: FlowState, op: Op)
    requires AllOwned(st) && op.Arrive? && Decode(op.bytes).Some? && Decode(op.bytes).value.flags == FLAG_DATAGRAM
    ensures AllOwned(Do(st, op)) <==> !OpensOrphan(st, op)
  {
    DatagramEffect(st, op);
    var st' := Do(st, op);
    if OpensOrphan(st, op) {
      assert !Owned(st', SocketFor(st, op).value);
    } else {
      forall k ensures Owned(st', k) { assert Owned(st, k); }
    }
  }

  ghost predicate AlwaysOwned(st: FlowState, ops: seq<Op>)
    decreases |ops|
  {
    AllOwned(DoAll(st, ops)) && (ops != [] ==> AlwaysOwned(st, ops[..|ops| - 1]))
  }

  ghost predicate NoOrphanOpened(st: FlowState, ops: seq<Op>)
    decreases |ops|
  {
    ops != [] ==> var n := |ops| - 1; NoOrphanOpened(st, ops[..n]) && !OpensOrphan(DoAll(st, ops[..n]), ops[n])
  }

  /** Over any run, local sockets belong to flows exactly if no datagram for a number without an entry was served. */
  lemma {:induction false} SocketsOwnedIff(ops: seq<Op>)
    ensures AlwaysOwned(NO_FLOWS, ops) <==> NoOrphanOpened(NO_FLOWS, ops)
    decreases |ops|
  {
    if ops == [] {
      assert AllOwned(NO_FLOWS);
    } else {
      var n := |ops| - 1;
      SocketsOwnedIff(ops[..n]);
      if AlwaysOwned(NO_FLOWS, ops[..n]) { StepOwnedIff(DoAll(NO_FLOWS, ops[..n]), ops[n]); }
    }
  }
}
