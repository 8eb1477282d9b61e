/** Which service an OPEN or a datagram reaches, and which frames every step sends. */
module FlowAnswers {
  import opened Wrappers
  import opened Endec
  import opened Text
  import opened FlowWire
  import opened FlowManager
  import opened FlowLaws
  import opened FlowOpening

  // ---------- the exposed services ----------

  /** Rule `i` is the first one for this protocol and port. */
  ghost predicate FirstRule(rules: seq<ExposeRule>, proto: ProtoKind, port: nat, i: nat) {
    && i < |rules| && rules[i].proto == proto && rules[i].port == port
    && forall j :: 0 <= j < i ==> !(rules[j].proto == proto && rules[j].port == port)
  }

  ghost predicate HasRule(rules: seq<ExposeRule>, proto: ProtoKind, port: nat) {
    exists i :: 0 <= i < |rules| && rules[i].proto == proto && rules[i].port == port
  }

  lemma {:induction false} FindServiceIs(rules: seq<ExposeRule>, proto: ProtoKind, port: nat)
    ensures FindService(rules, proto, port).None? <==> !HasRule(rules, proto, port)
    ensures forall i: nat :: FirstRule(rules, proto, port, i) ==> FindService(rules, proto, port) == Some(rules[i].dest)
    ensures FindService(rules, proto, port).Some? ==> exists i: nat :: FirstRule(rules, proto, port, i)
  {
    if rules != [] {
      if rules[0].proto == proto && rules[0].port == port {
        assert FirstRule(rules, proto, port, 0);
      } else {
        FindServiceIs(rules[1..], proto, port);
        FirstRuleOfTail(rules, proto, port);
      }
    }
  }

  lemma FirstRuleOfTail(rules: seq<ExposeRule>, proto: ProtoKind, port: nat)
    requires rules != [] && !(rules[0].proto == proto && rules[0].port == port)
    ensures HasRule(rules, proto, port) <==> HasRule(rules[1..], proto, port)
    ensures forall i: nat :: FirstRule(rules, proto, port, i) ==> i > 0 && FirstRule(rules[1..], proto, port, i - 1)
    ensures (exists i: nat :: FirstRule(rules[1..], proto, port, i)) ==>
            exists i: nat :: FirstRule(rules, proto, port, i)
  {
    var tail := rules[1..];
    assert forall j :: 0 < j < |rules| ==> rules[j] == tail[j - 1];
    if i: nat :| FirstRule(tail, proto, port, i) {
      assert rules[i + 1] == tail[i];
      assert FirstRule(rules, proto, port, i + 1);
    }
    if i :| 0 <= i < |tail| && tail[i].proto == proto && tail[i].port == port {
      assert rules[i + 1] == tail[i];
    }
  }

  /**
    The service is found at `dest` iff the first rule for protocol and port leads there; none
    is found iff there is no rule.
   */
  lemma FindServiceIff(rules: seq<ExposeRule>, proto: ProtoKind, port: nat, dest: Bytes)
    ensures FindService(rules, proto, port) == Some(dest)
            <==> exists i: nat :: FirstRule(rules, proto, port, i) && rules[i].dest == dest
    ensures FindService(rules, proto, port) == None <==> !HasRule(rules, proto, port)
  {
    FindServiceIs(rules, proto, port);
  }

  // ---------- frames ----------

  /** One frame more to this peer, with number 0. */
  function Answered(st: FlowState, netId: nat, peer: u64, f: u32, flags: u8, payload: Bytes): FlowState {
    st.(sent := st.sent + [Outgoing(netId, peer, FlowMsg(f, 0, flags, payload))])
  }

  /**
    A frame is sent exactly if its payload has at most 65400 bytes; DATA of a living flow
    carries the flow's next number.
   */
  lemma FrameSent(st: FlowState, netId: nat, peer: u64, f: u32, flags: u8, payload: Bytes)
    ensures var st' := SendFrame(st, netId, peer, f, flags, payload);
            && (|payload| > 65_400 ==> st' == st)
            && (|payload| <= 65_400 && !(flags == 5 && f in st.flows) ==>
                  st' == Answered(st, netId, peer, f, flags, payload))
            && (|payload| <= 65_400 && flags == 5 && f in st.flows ==>
                  var ctx := st.flows[f];
                  && st'.sent == st.sent + [Outgoing(netId, peer, FlowMsg(f, ctx.nextSend, 5, payload))]
                  && st' == st.(sent := st'.sent, flows := st.flows[f := ctx.(nextSend := st'.flows[f].nextSend)])
                  && st'.flows[f].nextSend == if ctx.nextSend == 0xFFFF_FFFF then 0 else ctx.nextSend + 1)
  {
  }

  /** A refusal is short enough to be sent. */
  lemma RefusalFits(reason: Bytes)
    ensures |BuildOpenedFail(reason)| <= 201
    ensures |reason| <= 200 ==> BuildOpenedFail(reason) == [|reason|] + reason
  {
    if |reason| <= 200 { assert reason[..|reason|] == reason; }
  }

  // ---------- OPEN for TCP ----------

  function Refusal(port: nat): Bytes { BuildOpenedFail(Ascii("no tcp service on port " + Decimal(port, 0))) }

  /**
    An OPEN for a number that is neither in use nor being connected: a connect
    starts, to where the first TCP rule of the network for this port leads, iff
    there is such a rule; otherwise nothing happens but one refusal.
   */
  lemma OpenConnectsIff(st: FlowState, netId: nat, peer: u64, f: u32, addr: Bytes)
    requires SoundAddress(addr) && PortOf(addr).Some? && f !in st.flows && f !in st.connecting
    ensures var rules := if netId in st.exposes then st.exposes[netId] else [];
            var port, st' := PortOf(addr).value, Do(st, OpenOp(netId, peer, f, PROTO_TCP, addr));
            && (!HasRule(rules, TcpService, port) ==>
                  st' == Answered(st, netId, peer, f, FLAG_OPENED_FAIL, Refusal(port)))
            && forall i: nat :: FirstRule(rules, TcpService, port, i) ==>
                 st' == st.(connecting := st.connecting + {f},
                            running := st.running + multiset{Connect(f, netId, peer, rules[i].dest)})
  {
    var rules := RulesOf(st.exposes, netId);
    var port := PortOf(addr).value;
    OpenArrives(st, netId, peer, f, PROTO_TCP, addr);
    FindServiceIs(rules, TcpService, port);
    TcpOpenOf(st, netId, peer, f, port);
  }

  lemma TcpOpenOf(st: FlowState, netId: nat, peer: u64, f: u32, port: nat)
    requires f !in st.flows && f !in st.connecting
    ensures var service, st' := FindService(RulesOf(st.exposes, netId), TcpService, port),
                OnOpenTcp(st, netId, peer, f, port);
            match service
            case None => st' == Answered(st, netId, peer, f, FLAG_OPENED_FAIL, Refusal(port))
            case Some(dest) => st' == st.(connecting := st.connecting + {f},
                                          running := st.running + multiset{Connect(f, netId, peer, dest)})
  {
    if FindService(RulesOf(st.exposes, netId), TcpService, port).None? {
      RefusalFits(NoServiceText(port));
      FrameSent(st, netId, peer, f, FLAG_OPENED_FAIL, Refusal(port));
    }
  }

  /** The end of a connect: the flow is there and the peer is told, or it is told that the service is out of reach. */
  lemma ConnectAnswered(st: FlowState, c: Connect, connected: bool)
    requires c in st.running
    ensures var st' := FinishConnect(st, c, connected);
            var ended := st.(connecting := st.connecting - {c.flowId}, running := st.running - multiset{c});
            st' == if connected
                   then Answered(ended.(flows := st.flows[c.flowId := FlowCtx(c.netId, c.peer, InTcp, 0, 0)]),
                                 c.netId, c.peer, c.flowId, FLAG_OPENED_OK, [])
                   else Answered(ended, c.netId, c.peer, c.flowId, FLAG_OPENED_FAIL,
                                 BuildOpenedFail(Ascii("local service unreachable")))
  {
    RefusalFits(Ascii(UNREACHABLE_TEXT));
  }

  // ---------- OPEN for UDP ----------

  /** An OPEN for UDP is always answered; the first one makes an entry of the peer's. */
  lemma UdpOpenAnswered(st: FlowState, netId: nat, peer: u64, f: u32, addr: Bytes)
    requires SoundAddress(addr)
    ensures var st' := Do(st, OpenOp(netId, peer, f, PROTO_UDP, addr));
            var entered :=
              if f in st.flows then st else st.(flows := st.flows[f := FlowCtx(netId, peer, Udp(false), 0, 0)]);
            st' == Answered(entered, netId, peer, f, FLAG_OPENED_OK, [])
  {
    OpenArrives(st, netId, peer, f, PROTO_UDP, addr);
  }

  /** The node's own flow: the entry, and one OPEN with its protocol and destination. */
  lemma OwnFlowOpens(st: FlowState, f: u32, netId: nat, peer: u64, tcp: bool, dest: Bytes)
    requires f != 0 && f !in st.flows && |dest| <= 65_398
    ensures Do(st, Create(f, netId, peer, tcp, dest)) ==
            Answered(st.(flows := st.flows[f := FlowCtx(netId, peer, if tcp then OutTcp(true) else Udp(true), 0, 0)]),
                     netId, peer, f, FLAG_OPEN, BuildOpen(if tcp then PROTO_TCP else PROTO_UDP, dest))
  {
  }

  // ---------- DATA, CLOSE and the answers to OPEN ----------

  /** Closing a flow: the entry and its sockets go; its own peer is told if it did not ask for it. */
  lemma ClosedIs(st: FlowState, f: u32, notify: bool)
    requires f in st.flows
    ensures var ctx, st' := st.flows[f], CloseFlow(st, f, notify);
            var closed := st.(flows := st.flows - {f}, locals := set k | k in st.locals && k.flowId != f);
            st' == if notify then Answered(closed, ctx.netId, ctx.peer, f, FLAG_CLOSE, []) else closed
  {
  }

  /** What an arriving message does, by its kind. */
  lemma MessageIs(st: FlowState, netId: nat, peer: u64, m: FlowMsg, local: Local)
    requires m.flowId in st.flows
    ensures var f, ctx, st' := m.flowId, st.flows[m.flowId], OnMessage(st, netId, peer, m, local);
            && (m.flags == FLAG_CLOSE ==> st' == CloseFlow(st, f, false))
            && (m.flags == FLAG_DATA && (ctx.kind.Udp? || m.seqNo != ctx.nextRecv) ==> st' == CloseFlow(st, f, true))
            && (m.flags == FLAG_DATA && !ctx.kind.Udp? && m.seqNo == ctx.nextRecv ==>
                  && st'.delivered == st.delivered + [Delivery(f, m.payload)]
                  && st' == st.(delivered := st'.delivered,
                             flows := st.flows[f := ctx.(nextRecv := st'.flows[f].nextRecv)]))
            && ((m.flags == FLAG_OPENED_OK || m.flags == FLAG_OPENED_FAIL) ==>
                  st' ==
                    if ctx.kind == OutTcp(true) then st.(flows := st.flows[f := ctx.(kind := OutTcp(false))]) else st)
  {
  }

  /** A message for a number without an entry changes nothing, unless it is an OPEN or a datagram. */
  lemma StrayMessage(st: FlowState, netId: nat, peer: u64, m: FlowMsg, local: Local)
    requires m.flowId !in st.flows && m.flags in {FLAG_DATA, FLAG_CLOSE, FLAG_OPENED_OK, FLAG_OPENED_FAIL}
    ensures OnMessage(st, netId, peer, m, local) == st
  {
  }

  // ---------- datagrams ----------

  /**
    A datagram goes to the handle of an own UDP flow if that has room. Otherwise
    it goes to where the first UDP rule of the network for its port leads, if
    there is one, the network has an address, and a socket is there or can be
    bound; in any other case nothing happens.
   */
  lemma DatagramGoes(st: FlowState, netId: nat, f: u32, addr: Bytes, data: Bytes, local: Local)
    requires SoundAddress(addr) && PortOf(addr).Some?
    ensures var rules := if netId in st.exposes then st.exposes[netId] else [];
            var port, st' := PortOf(addr).value, OnDatagram(st, netId, f, BuildDatagram(addr, data), local);
            var key := LocalKey(netId, f, port);
            if f in st.flows && st.flows[f].kind == Udp(true) && local.room then
              st' == st.(datagrams := st.datagrams + [ToHandle(f, addr, data)])
            else if !HasRule(rules, UdpService, port) || !local.hasAddress ||
                    (key !in st.locals && !local.bound) then st' == st
            else forall i: nat :: FirstRule(rules, UdpService, port, i) ==>
                   st' == st.(locals := st.locals + {key},
                              datagrams := st.datagrams + [ToService(key, rules[i].dest, data)])
  {
    ParseOfDatagram(addr, data);
    FindServiceIs(RulesOf(st.exposes, netId), UdpService, PortOf(addr).value);
    DatagramParsed(st, netId, f, addr, data, local);
  }

  lemma DatagramParsed(st: FlowState, netId: nat, f: u32, addr: Bytes, data: Bytes, local: Local)
    requires ParseDatagram(BuildDatagram(addr, data)) == Some(DatagramInfo(addr, data)) && PortOf(addr).Some?
    ensures OnDatagram(st, netId, f, BuildDatagram(addr, data), local) ==
            if f in st.flows && st.flows[f].kind == Udp(true) && local.room
            then st.(datagrams := st.datagrams + [ToHandle(f, addr, data)])
            else ServeDatagram(st, LocalKey(netId, f, PortOf(addr).value), data, local)
  {
  }

  /** What is no address with a port reaches no service. */
  lemma NoPortNoEffect(st: FlowState, netId: nat, peer: u64, f: u32, payload: Bytes, local: Local)
    ensures ParseOpen(payload).None? ==> OnOpen(st, netId, peer, f, payload) == st
    ensures (ParseOpen(payload).Some? && ParseOpen(payload).value.proto == PROTO_TCP
             && PortOf(ParseOpen(payload).value.addr).None?) ==> OnOpen(st, netId, peer, f, payload) == st
    ensures ParseDatagram(payload).None? ==> OnDatagram(st, netId, f, payload, local) == st
  {
  }
}
