/** Opening flows: repeated OPENs, the guard against a second connect, and what becomes of entries. */
module FlowOpening {
  import opened Wrappers
  import opened Endec
  import opened FlowWire
  import opened FlowManager
  import opened FlowLaws

  // ---------- the guard of running connects ----------

  /** At most one connect runs for `f`, and exactly while `f` is marked. */
  ghost predicate OneConnect(running: multiset<Connect>, connecting: set<u32>, f: u32) {
    && (f in connecting ==> exists c :: c in running && c.flowId == f)
    && (forall c :: c in running && c.flowId == f ==> f in connecting && running[c] == 1)
    && (forall c, d :: c in running && d in running && c.flowId == f && d.flowId == f ==> c == d)
  }

  /** No connect runs for a flow that has been accepted. */
  ghost predicate Guarded(st: FlowState, f: u32) {
    && OneConnect(st.running, st.connecting, f)
    && (f in st.connecting && f in st.flows ==> !st.flows[f].kind.InTcp?)
  }

  lemma StartKeeps(running: multiset<Connect>, connecting: set<u32>, c: Connect, f: u32)
    requires OneConnect(running, connecting, f) && c.flowId !in connecting
    ensures OneConnect(running + multiset{c}, connecting + {c.flowId}, f)
  {
    var more := running + multiset{c};
    assert c in more;
    forall d | d in more && d.flowId == f
      ensures f in connecting + {c.flowId} && more[d] == 1 && (c.flowId == f ==> d == c)
    {
      if d != c { assert d in running && more[d] == running[d]; }
    }
    if f in connecting {
      var d :| d in running && d.flowId == f;
      assert d in more;
    }
    forall d, e | d in more && e in more && d.flowId == f && e.flowId == f ensures d == e {
      if c.flowId != f { assert d in running && e in running; }
    }
  }

  lemma EndKeeps(running: multiset<Connect>, connecting: set<u32>, c: Connect, f: u32)
    requires OneConnect(running, connecting, f) && c in running
    ensures OneConnect(running - multiset{c}, connecting - {c.flowId}, f)
  {
    var fewer := running - multiset{c};
    assert forall d :: d in fewer ==> d in running;
    if c.flowId == f {
      assert fewer[c] == 0;
    } else if f in connecting {
      var d :| d in running && d.flowId == f;
      assert d in fewer;
    }
    forall d | d in fewer && d.flowId == f ensures f in connecting - {c.flowId} && fewer[d] == 1 {
      assert d != c && fewer[d] == running[d];
    }
  }

  // ---------- what a step does to an entry ----------

  /** The same flow, perhaps answered, perhaps one chunk further in each direction. */
  predicate Continues(a: FlowCtx, b: FlowCtx) {
    && b.netId == a.netId && b.peer == a.peer
    && (b.kind == a.kind || (a.kind == OutTcp(true) && b.kind == OutTcp(false)))
    && (b.nextSend == a.nextSend || b.nextSend == WrapNext(a.nextSend))
    && (b.nextRecv == a.nextRecv || b.nextRecv == WrapNext(a.nextRecv))
  }

  predicate SameConnects(st: FlowState, st': FlowState) {
    st'.connecting == st.connecting && st'.running == st.running
  }

  /** The entry of `f` goes on or is removed, none comes up. */
  predicate GoesOn(st: FlowState, st': FlowState, f: u32) {
    f in st'.flows ==> f in st.flows && Continues(st.flows[f], st'.flows[f])
  }

  lemma SendGoesOn(st: FlowState, netId: nat, peer: u64, flowId: u32, flags: u8, payload: Bytes, f: u32)
    ensures var st' := SendFrame(st, netId, peer, flowId, flags, payload);
            SameConnects(st, st') && GoesOn(st, st', f) && (f in st.flows ==> f in st'.flows)
    ensures flags != FLAG_DATA ==> SendFrame(st, netId, peer, flowId, flags, payload).flows == st.flows
  {
  }

  lemma CloseGoesOn(st: FlowState, flowId: u32, notify: bool, f: u32)
    ensures var st' := CloseFlow(st, flowId, notify);
            && SameConnects(st, st') && GoesOn(st, st', f)
            && (f in st'.flows <==> f in st.flows && f != flowId)
  {
    if flowId in st.flows {
      var ctx := st.flows[flowId];
      var rest := st.(flows := st.flows - {flowId}, locals := OtherLocals(st.locals, flowId));
      SendGoesOn(rest, ctx.netId, ctx.peer, flowId, FLAG_CLOSE, [], f);
    }
  }

  /** DATA that an entry does not take. */
  predicate OutOfStep(st: FlowState, m: FlowMsg) {
    m.flowId in st.flows && (st.flows[m.flowId].kind.Udp? || m.seqNo != st.flows[m.flowId].nextRecv)
  }

  lemma DataGoesOn(st: FlowState, m: FlowMsg, f: u32)
    ensures var st' := OnData(st, m);
            && SameConnects(st, st') && GoesOn(st, st', f)
            && (f in st.flows ==> (f !in st'.flows <==> m.flowId == f && OutOfStep(st, m)))
  {
    CloseGoesOn(st, m.flowId, true, f);
  }

  /** An OPEN for TCP changes entries not at all, and starts a connect only where there is neither entry nor connect. */
  lemma OpenTcpCases(st: FlowState, netId: nat, peer: u64, flowId: u32, port: nat)
    ensures var st' := OnOpenTcp(st, netId, peer, flowId, port);
            && st'.flows == st.flows
            && (SameConnects(st, st') || StartedFor(st, st', flowId))
  {
    if flowId in st.flows {
      SendGoesOn(st, netId, peer, flowId, FLAG_OPENED_OK, [], flowId);
    } else {
      var service := FindService(RulesOf(st.exposes, netId), TcpService, port);
      if service.None? {
        SendGoesOn(st, netId, peer, flowId, FLAG_OPENED_FAIL, BuildOpenedFail(NoServiceText(port)), flowId);
      } else {
        assert flowId !in st.connecting ==>
          Started(st, OnOpenTcp(st, netId, peer, flowId, port), Connect(flowId, netId, peer, service.value));
      }
    }
  }

  predicate Started(st: FlowState, st': FlowState, c: Connect) {
    && c.flowId !in st.flows && c.flowId !in st.connecting
    && st'.connecting == st.connecting + {c.flowId} && st'.running == st.running + multiset{c}
  }

  ghost predicate StartedFor(st: FlowState, st': FlowState, flowId: u32) {
    exists c: Connect :: c.flowId == flowId && Started(st, st', c)
  }

  predicate Ended(st: FlowState, st': FlowState, c: Connect) {
    c in st.running && st'.connecting == st.connecting - {c.flowId} && st'.running == st.running - multiset{c}
  }

  lemma OpenUdpCases(st: FlowState, netId: nat, peer: u64, flowId: u32)
    ensures var st' := OnOpenUdp(st, netId, peer, flowId);
            && SameConnects(st, st')
            && st'.flows ==
                  if flowId in st.flows then st.flows else st.flows[flowId := NewFlow(netId, peer, Udp(false))]
  {
    var accepted :=
      if flowId in st.flows then st else st.(flows := st.flows[flowId := NewFlow(netId, peer, Udp(false))]);
    SendGoesOn(accepted, netId, peer, flowId, FLAG_OPENED_OK, [], flowId);
  }

  lemma CreateCases(st: FlowState, flowId: u32, netId: nat, peer: u64, tcp: bool, dest: Bytes)
    ensures var st' := OpenOwn(st, flowId, netId, peer, tcp, dest);
            && SameConnects(st, st')
            && st'.flows ==
                  if Usable(st.flows, flowId) then st.flows[flowId := NewFlow(netId, peer, OwnKind(tcp))] else st.flows
  {
    var registered := st.(flows := st.flows[flowId := NewFlow(netId, peer, OwnKind(tcp))]);
    SendGoesOn(registered, netId, peer, flowId, FLAG_OPEN,
               BuildOpen(if tcp then PROTO_TCP else PROTO_UDP, dest), flowId);
  }

  lemma FinishCases(st: FlowState, c: Connect, connected: bool)
    requires c in st.running
    ensures var st' := FinishConnect(st, c, connected);
            && Ended(st, st', c)
            && st'.flows == if connected then st.flows[c.flowId := NewFlow(c.netId, c.peer, InTcp)] else st.flows
  {
    var ended := st.(connecting := st.connecting - {c.flowId}, running := st.running - multiset{c});
    if connected {
      var registered := ended.(flows := ended.flows[c.flowId := NewFlow(c.netId, c.peer, InTcp)]);
      SendGoesOn(registered, c.netId, c.peer, c.flowId, FLAG_OPENED_OK, [], c.flowId);
    } else {
      SendGoesOn(ended, c.netId, c.peer, c.flowId, FLAG_OPENED_FAIL,
                 BuildOpenedFail(Ascii(UNREACHABLE_TEXT)), c.flowId);
    }
  }

  /** A connect that ends well. */
  predicate Accepts(st: FlowState, op: Op, f: u32) {
    op.Finish? && op.connected && op.c in st.running && op.c.flowId == f
  }

  /** A step that removes the entry of `f`. */
  predicate Removes(st: FlowState, op: Op, f: u32) {
    match op
    case Teardown(flowId, _) => flowId == f
    case Arrive(_, _, bytes, _) =>
      && Decode(bytes).Some? && Decode(bytes).value.flowId == f
      && (Decode(bytes).value.flags == FLAG_CLOSE
          || (Decode(bytes).value.flags == FLAG_DATA && OutOfStep(st, Decode(bytes).value)))
    case Write(_, _, _, _) => false
    case SendControl(_, _, _, _, _) => false
    case Create(_, _, _, _, _) => false
    case Idle(_) => false
    case Finish(_, _) => false
    case Configure(_, _) => false
  }

  /** A new entry that belongs to no connect. */
  predicate Comes(st: FlowState, st': FlowState, f: u32) {
    && f !in st.flows && f in st'.flows && SameConnects(st, st')
    && !st'.flows[f].kind.InTcp?
  }

  /** The effect of one step on the entry of `f` and on the connects. */
  ghost predicate Effect(st: FlowState, op: Op, st': FlowState, f: u32) {
    || (SameConnects(st, st') && GoesOn(st, st', f) && (f in st.flows ==> (f !in st'.flows <==> Removes(st, op, f))))
    || Comes(st, st', f)
    || (st'.flows == st.flows && !op.Finish? && !Removes(st, op, f) && exists c :: Started(st, st', c))
    || (op.Finish? && Ended(st, st', op.c)
        && st'.flows ==
              if op.connected then st.flows[op.c.flowId := NewFlow(op.c.netId, op.c.peer, InTcp)] else st.flows)
  }

  lemma OpenEffect(st: FlowState, op: Op, m: FlowMsg, f: u32)
    requires op.Arrive? && Decode(op.bytes) == Some(m) && m.flags == FLAG_OPEN
    ensures Effect(st, op, OnOpen(st, op.netId, op.peer, m.flowId, m.payload), f)
  {
    var info := ParseOpen(m.payload);
    if info.Some? {
      if info.value.proto == PROTO_UDP {
        OpenUdpCases(st, op.netId, op.peer, m.flowId);
      } else if PortOf(info.value.addr).Some? {
        OpenTcpCases(st, op.netId, op.peer, m.flowId, PortOf(info.value.addr).value);
      }
    }
  }

  lemma ArriveEffect(st: FlowState, op: Op, m: FlowMsg, f: u32)
    requires op.Arrive? && Decode(op.bytes) == Some(m)
    ensures Effect(st, op, OnMessage(st, op.netId, op.peer, m, op.local), f)
  {
    if m.flags == FLAG_DATA {
      DataGoesOn(st, m, f);
    } else if m.flags == FLAG_CLOSE {
      CloseGoesOn(st, m.flowId, false, f);
    } else if m.flags == FLAG_OPEN {
      OpenEffect(st, op, m, f);
    }
  }

  lemma StepEffect(st: FlowState, op: Op, f: u32)
    ensures Effect(st, op, Do(st, op), f) || Do(st, op) == st
  {
    match op
    case Write(netId, peer, flowId, chunk) => SendGoesOn(st, netId, peer, flowId, FLAG_DATA, chunk, f);
    case SendControl(netId, peer, flowId, flags, payload) => SendGoesOn(st, netId, peer, flowId, flags, payload, f);
    case Arrive(_, _, bytes, _) => if Decode(bytes).Some? { ArriveEffect(st, op, Decode(bytes).value, f); }
    case Create(flowId, netId, peer, tcp, dest) => CreateCases(st, flowId, netId, peer, tcp, dest);
    case Idle(_) =>
    case Finish(c, connected) => if c in st.running { FinishCases(st, c, connected); }
    case Configure(_, _) =>
    case Teardown(flowId, notifyPeer) => CloseGoesOn(st, flowId, notifyPeer, f);
  }

  // ---------- laws ----------

  lemma EffectKeepsConnects(st: FlowState, op: Op, st': FlowState, f: u32)
    requires OneConnect(st.running, st.connecting, f) && (Effect(st, op, st', f) || st' == st)
    ensures OneConnect(st'.running, st'.connecting, f)
  {
    if op.Finish? && Ended(st, st', op.c) {
      EndKeeps(st.running, st.connecting, op.c, f);
    } else if c :| Started(st, st', c) {
      StartKeeps(st.running, st.connecting, c, f);
    }
  }

  lemma EffectKeepsGuard(st: FlowState, op: Op, st': FlowState, f: u32)
    requires Guarded(st, f) && (Effect(st, op, st', f) || st' == st)
    ensures f in st'.connecting && f in st'.flows ==> !st'.flows[f].kind.InTcp?
  {
  }

  lemma StepKeepsGuard(st: FlowState, op: Op, f: u32)
    requires Guarded(st, f)
    ensures Guarded(Do(st, op), f)
  {
    StepEffect(st, op, f);
    EffectKeepsConnects(st, op, Do(st, op), f);
    EffectKeepsGuard(st, op, Do(st, op), f);
  }

  /** In every reachable state at most one local connect runs for a flow, and none once the flow is accepted. */
  lemma {:induction false} AtMostOneConnect(ops: seq<Op>, f: u32)
    ensures Guarded(DoAll(NO_FLOWS, ops), f)
    decreases |ops|
  {
    if ops != [] {
      var n := |ops| - 1;
      AtMostOneConnect(ops[..n], f);
      StepKeepsGuard(DoAll(NO_FLOWS, ops[..n]), ops[n], f);
    }
  }

  /**
    In every reachable state, an entry that is still there after a step was replaced exactly if a
    connect ended well.
   */
  lemma ReplacedIff(ops: seq<Op>, op: Op, f: u32)
    requires var st := DoAll(NO_FLOWS, ops); f in st.flows && f in Do(st, op).flows
    ensures var st := DoAll(NO_FLOWS, ops);
            !Continues(st.flows[f], Do(st, op).flows[f]) <==> Accepts(st, op, f)
  {
    var st := DoAll(NO_FLOWS, ops);
    AtMostOneConnect(ops, f);
    StepEffect(st, op, f);
  }

  /** An accepted flow is never replaced: it goes on until it is closed. */
  lemma AcceptedFlowGoesOn(ops: seq<Op>, op: Op, f: u32)
    requires var st := DoAll(NO_FLOWS, ops); f in st.flows && st.flows[f].kind.InTcp?
    ensures var st := DoAll(NO_FLOWS, ops);
            if Removes(st, op, f) then f !in Do(st, op).flows
            else f in Do(st, op).flows && Continues(st.flows[f], Do(st, op).flows[f])
  {
    var st := DoAll(NO_FLOWS, ops);
    AtMostOneConnect(ops, f);
    StepEffect(st, op, f);
  }

  // ---------- how often a local service is connected ----------

  /** The flow has an entry or is about to get one. */
  predicate Occupied(st: FlowState, f: u32) { f in st.flows || f in st.connecting }

  function Connects(st: FlowState, op: Op, f: u32): nat {
    if f !in st.connecting && f in Do(st, op).connecting then 1 else 0
  }

  function Frees(st: FlowState, op: Op, f: u32): nat {
    if Occupied(st, f) && !Occupied(Do(st, op), f) then 1 else 0
  }

  function TotalConnects(ops: seq<Op>, f: u32): nat {
    if ops == [] then 0
    else var n := |ops| - 1; TotalConnects(ops[..n], f) + Connects(DoAll(NO_FLOWS, ops[..n]), ops[n], f)
  }

  function TotalFrees(ops: seq<Op>, f: u32): nat {
    if ops == [] then 0
    else var n := |ops| - 1; TotalFrees(ops[..n], f) + Frees(DoAll(NO_FLOWS, ops[..n]), ops[n], f)
  }

  lemma StepCounts(st: FlowState, op: Op, f: u32)
    ensures Connects(st, op, f) == 1 ==> !Occupied(st, f) && Occupied(Do(st, op), f)
    ensures Occupied(st, f) ==> Occupied(Do(st, op), f) || Frees(st, op, f) == 1
  {
    StepEffect(st, op, f);
  }

  /** However often its OPEN is repeated: one connect, and one more for each time the flow has been given up. */
  lemma {:induction false} OneConnectPerOpening(ops: seq<Op>, f: u32)
    ensures TotalConnects(ops, f) <= TotalFrees(ops, f) + if Occupied(DoAll(NO_FLOWS, ops), f) then 1 else 0
    decreases |ops|
  {
    if ops != [] {
      var n := |ops| - 1;
      OneConnectPerOpening(ops[..n], f);
      StepCounts(DoAll(NO_FLOWS, ops[..n]), ops[n], f);
    }
  }

  /** A connect for `f` that fails. */
  predicate Fails(st: FlowState, op: Op, f: u32) {
    op.Finish? && !op.connected && op.c in st.running && op.c.flowId == f
  }

  /** In every reachable state a flow is given up exactly by removing its entry, or by the failure of its connect. */
  lemma FreedIff(ops: seq<Op>, op: Op, f: u32)
    ensures var st := DoAll(NO_FLOWS, ops);
            Frees(st, op, f) == 1 <==>
              if f in st.flows then Removes(st, op, f) && f !in st.connecting else Fails(st, op, f)
  {
    var st := DoAll(NO_FLOWS, ops);
    AtMostOneConnect(ops, f);
    StepEffect(st, op, f);
  }

  // ---------- what an entry delivers ----------

  /** There is an entry of `f` all the time. */
  ghost predicate Present(st: FlowState, ops: seq<Op>, f: u32)
    decreases |ops|
  {
    f in DoAll(st, ops).flows && (ops != [] ==> Present(st, ops[..|ops| - 1], f))
  }

  /** And no connect replaces it. */
  ghost predicate Lives(st: FlowState, ops: seq<Op>, f: u32)
    decreases |ops|
  {
    && f in DoAll(st, ops).flows
    && (ops != [] ==>
          var n := |ops| - 1;
          Lives(st, ops[..n], f) && !Accepts(DoAll(st, ops[..n]), ops[n], f))
  }

  /** What could have made an entry changes neither the entry that is there nor its stream. */
  lemma PresentEntryStays(st: FlowState, op: Op, f: u32)
    requires MayCreate(op, f) && f in st.flows && !Accepts(st, op, f)
    ensures f in Do(st, op).flows && Do(st, op).flows[f] == st.flows[f] && Do(st, op).delivered == st.delivered
  {
    if op.Arrive? {
      OpenUdpCases(st, op.netId, op.peer, f);
    }
  }

  /**
    Every entry, also one that came after an earlier one with the same number, delivers the first
    chunks of its sender.
   */
  lemma {:induction false} EntryDeliversPrefix(st: FlowState, ops: seq<Op>, f: u32, chunks: seq<Bytes>) returns (n: nat)
    requires |chunks| < SEQUENCE_SPACE
    requires f in st.flows && st.flows[f].nextRecv == 0 && Lives(st, ops, f)
    requires forall op :: op in ops ==> FromSender(op, f, chunks)
    ensures InOrder(StreamOf(st.delivered, f), DoAll(st, ops), f, chunks, n)
    decreases |ops|
  {
    if ops == [] {
      n := 0;
    } else {
      var k := |ops| - 1;
      n := EntryDeliversPrefix(st, ops[..k], f, chunks);
      n := EntryStep(StreamOf(st.delivered, f), DoAll(st, ops[..k]), ops[k], f, chunks, n);
    }
  }

  lemma EntryStep(base: seq<Bytes>, st: FlowState, op: Op, f: u32, chunks: seq<Bytes>, n: nat) returns (n': nat)
    requires |chunks| < SEQUENCE_SPACE && FromSender(op, f, chunks)
    requires f in st.flows && !Accepts(st, op, f) && InOrder(base, st, f, chunks, n)
    ensures InOrder(base, Do(st, op), f, chunks, n')
  {
    n' := n;
    if MayCreate(op, f) {
      PresentEntryStays(st, op, f);
    } else if op.Arrive? && Decode(op.bytes).Some? && !NotDataOf(Decode(op.bytes).value, f) {
      DataStep(base, st, Decode(op.bytes).value, f, chunks, n);
      if !InOrder(base, Do(st, op), f, chunks, n) { n' := n + 1; }
    } else {
      OtherOpsDeliverNothing(st, op, f);
    }
  }

  lemma AcceptedStep(st: FlowState, op: Op, f: u32)
    requires Guarded(st, f) && f in st.flows && st.flows[f].kind.InTcp? && f in Do(st, op).flows
    ensures !Accepts(st, op, f) && Guarded(Do(st, op), f) && Do(st, op).flows[f].kind.InTcp?
  {
    StepKeepsGuard(st, op, f);
    StepEffect(st, op, f);
  }

  /** An accepted flow that is there all the time is never replaced. */
  lemma {:induction false} AcceptedFlowLives(st: FlowState, ops: seq<Op>, f: u32)
    requires Guarded(st, f) && f in st.flows && st.flows[f].kind.InTcp?
    requires Present(st, ops, f)
    ensures Lives(st, ops, f) && Guarded(DoAll(st, ops), f) && DoAll(st, ops).flows[f].kind.InTcp?
    decreases |ops|
  {
    if ops != [] {
      var n := |ops| - 1;
      AcceptedFlowLives(st, ops[..n], f);
      AcceptedStep(DoAll(st, ops[..n]), ops[n], f);
    }
  }

  /**
    The accepting side, over any run of the node: from the end of the local
    connect on, and as long as the entry is there, the stream of the flow is
    what it was before and then the first chunks of the sender.
   */
  lemma AcceptedFlowDelivers(past: seq<Op>, c: Connect, ops: seq<Op>, chunks: seq<Bytes>) returns (n: nat)
    requires c in DoAll(NO_FLOWS, past).running && |chunks| < SEQUENCE_SPACE
    requires Present(Do(DoAll(NO_FLOWS, past), Finish(c, true)), ops, c.flowId)
    requires forall op :: op in ops ==> FromSender(op, c.flowId, chunks)
    ensures var before := DoAll(NO_FLOWS, past);
            var st := Do(before, Finish(c, true));
            InOrder(StreamOf(before.delivered, c.flowId), DoAll(st, ops), c.flowId, chunks, n)
  {
    var before := DoAll(NO_FLOWS, past);
    var st := Do(before, Finish(c, true));
    AtMostOneConnect(past, c.flowId);
    StepKeepsGuard(before, Finish(c, true), c.flowId);
    FinishCases(before, c, true);
    FinishDelivers(before, c);
    AcceptedFlowLives(st, ops, c.flowId);
    n := EntryDeliversPrefix(st, ops, c.flowId, chunks);
  }

  lemma FinishDelivers(st: FlowState, c: Connect)
    ensures FinishConnect(st, c, true).delivered == st.delivered
  {
  }

  // ---------- repeated and colliding OPENs ----------

  function OpenOp(netId: nat, peer: u64, f: u32, proto: u8, addr: Bytes): Op {
    Arrive(netId, peer, Encode(FlowMsg(f, 0, FLAG_OPEN, BuildOpen(proto, addr))), NO_LOCAL)
  }

  predicate SoundAddress(addr: Bytes) { Utf8(addr) && COLON in addr && |addr| <= 255 }

  lemma OpenArrives(st: FlowState, netId: nat, peer: u64, f: u32, proto: u8, addr: Bytes)
    requires SoundAddress(addr) && (proto == PROTO_TCP || proto == PROTO_UDP)
    ensures var st' := Do(st, OpenOp(netId, peer, f, proto, addr));
            && (proto == PROTO_UDP ==> st' == OnOpenUdp(st, netId, peer, f))
            && (proto == PROTO_TCP && PortOf(addr).Some? ==> st' == OnOpenTcp(st, netId, peer, f, PortOf(addr).value))
  {
    OpenDecodes(st, netId, peer, f, proto, addr);
    ParseOfOpen(proto, addr);
  }

  lemma OpenDecodes(st: FlowState, netId: nat, peer: u64, f: u32, proto: u8, addr: Bytes)
    ensures Do(st, OpenOp(netId, peer, f, proto, addr)) == OnOpen(st, netId, peer, f, BuildOpen(proto, addr))
  {
    DecodeOfEncode(FlowMsg(f, 0, FLAG_OPEN, BuildOpen(proto, addr)));
  }

  /** A repeated OPEN changes nothing; it is answered again exactly if the flow is accepted. */
  lemma RepeatedOpenOnlyAnswers(st: FlowState, netId: nat, peer: u64, f: u32, addr: Bytes)
    requires SoundAddress(addr) && PortOf(addr).Some? && f in st.flows
    ensures Do(st, OpenOp(netId, peer, f, PROTO_TCP, addr)) ==
            if st.flows[f].kind.InTcp?
            then st.(sent := st.sent + [Outgoing(netId, peer, FlowMsg(f, 0, FLAG_OPENED_OK, []))])
            else st
  {
    OpenArrives(st, netId, peer, f, PROTO_TCP, addr);
  }

  /** While the connect runs, a repeated OPEN starts no second one. */
  lemma OpenWhileConnecting(st: FlowState, netId: nat, peer: u64, f: u32, addr: Bytes)
    requires SoundAddress(addr) && PortOf(addr).Some? && f in st.connecting
    ensures var st' := Do(st, OpenOp(netId, peer, f, PROTO_TCP, addr));
            SameConnects(st, st') && st'.flows == st.flows
  {
    OpenArrives(st, netId, peer, f, PROTO_TCP, addr);
    OpenTcpCases(st, netId, peer, f, PortOf(addr).value);
  }

  /**
    What the guard does not cover: a UDP flow that takes the number while the
    connect runs is accepted, and replaced when the connect ends.
   */
  lemma UdpFlowIsReplaced(netId: nat, peer: u64, other: u64, f: u32, addr: Bytes, dest: Bytes)
    returns (ops: seq<Op>, c: Connect)
    requires SoundAddress(addr) && PortOf(addr).Some?
    ensures var st := DoAll(NO_FLOWS, ops);
            && f in st.flows && st.flows[f] == NewFlow(netId, other, Udp(false))
            && Accepts(st, Finish(c, true), f)
            && f in Do(st, Finish(c, true)).flows && Do(st, Finish(c, true)).flows[f] == NewFlow(netId, peer, InTcp)
  {
    var rules := [ExposeRule(PortOf(addr).value, TcpService, dest)];
    var first, second, third := Configure(netId, rules), OpenOp(netId, peer, f, PROTO_TCP, addr),
      OpenOp(netId, other, f, PROTO_UDP, addr);
    c := Connect(f, netId, peer, dest);
    ops := [first, second, third];
    var a := Do(NO_FLOWS, first);
    assert RulesOf(a.exposes, netId) == rules;
    FirstOpenConnects(a, c, addr);
    ThreeSteps(NO_FLOWS, first, second, third);
    CollisionAt(Do(a, second), c, other, addr);
  }

  lemma FirstOpenConnects(st: FlowState, c: Connect, addr: Bytes)
    requires SoundAddress(addr) && PortOf(addr).Some?
    requires RulesOf(st.exposes, c.netId) == [ExposeRule(PortOf(addr).value, TcpService, c.dest)]
    requires c.flowId !in st.flows && c.flowId !in st.connecting && c !in st.running
    ensures var st' := Do(st, OpenOp(c.netId, c.peer, c.flowId, PROTO_TCP, addr));
            c in st'.running && c.flowId !in st'.flows
  {
    OpenArrives(st, c.netId, c.peer, c.flowId, PROTO_TCP, addr);
  }

  lemma CollisionAt(st: FlowState, c: Connect, other: u64, addr: Bytes)
    requires SoundAddress(addr) && c in st.running && c.flowId !in st.flows
    ensures var st' := Do(st, OpenOp(c.netId, other, c.flowId, PROTO_UDP, addr));
            var st'' := Do(st', Finish(c, true));
            && c in st'.running && c.flowId in st'.flows && st'.flows[c.flowId] == NewFlow(c.netId, other, Udp(false))
            && c.flowId in st''.flows && st''.flows[c.flowId] == NewFlow(c.netId, c.peer, InTcp)
  {
    OpenArrives(st, c.netId, other, c.flowId, PROTO_UDP, addr);
    OpenUdpCases(st, c.netId, other, c.flowId);
    FinishCases(OnOpenUdp(st, c.netId, other, c.flowId), c, true);
  }

  lemma ThreeSteps(st: FlowState, a: Op, b: Op, c: Op)
    ensures DoAll(st, [a, b, c]) == Do(Do(Do(st, a), b), c)
  {
    assert [a, b, c][..2] == [a, b] && [a, b][..1] == [a];
    assert DoAll(st, [a]) == Do(st, a);
    assert DoAll(st, [a, b]) == Do(Do(st, a), b);
  }
}
