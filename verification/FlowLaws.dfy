/** What a flow delivers, over any behaviour of the network and of both ends. */
module FlowLaws {
  import opened Wrappers
  import opened Endec
  import opened FlowWire
  import opened FlowManager

  const SEQUENCE_SPACE: nat := U32_MAX + 1

  /** Everything that can happen to a flow manager. */
  datatype Op =
    | Write(netId: nat, peer: u64, flowId: u32, chunk: Bytes)
    | SendControl(netId: nat, peer: u64, flowId: u32, flags: u8, payload: Bytes)
    | Arrive(netId: nat, peer: u64, bytes: Bytes, local: Local)
    | Create(flowId: u32, netId: nat, peer: u64, tcp: bool, dest: Bytes)
    | Finish(c: Connect, connected: bool)
    | Configure(netId: nat, rules: seq<ExposeRule>)
    | Teardown(flowId: u32, notifyPeer: bool)
    | Idle(key: LocalKey)

  function Do(st: FlowState, op: Op): FlowState {
    match op
    case Write(netId, peer, flowId, chunk) => SendFrame(st, netId, peer, flowId, FLAG_DATA, chunk)
    case SendControl(netId, peer, flowId, flags, payload) =>
      if flags == FLAG_DATA then st else SendFrame(st, netId, peer, flowId, flags, payload)
    case Arrive(netId, peer, bytes, local) => OnFrame(st, netId, peer, bytes, local)
    case Create(flowId, netId, peer, tcp, dest) => OpenOwn(st, flowId, netId, peer, tcp, dest)
    case Finish(c, connected) => FinishConnect(st, c, connected)
    case Configure(netId, rules) => st.(exposes := st.exposes[netId := rules])
    case Teardown(flowId, notifyPeer) => CloseFlow(st, flowId, notifyPeer)
    case Idle(key) => st.(locals := st.locals - {key})
  }

  function DoAll(st: FlowState, ops: seq<Op>): FlowState {
    if ops == [] then st else Do(DoAll(st, ops[..|ops| - 1]), ops[|ops| - 1])
  }

  /** An OPEN that is accepted without a local connect. */
  predicate OpensUdp(m: FlowMsg, f: u32) {
    m.flowId == f && m.flags == FLAG_OPEN && ParseOpen(m.payload).Some? && ParseOpen(m.payload).value.proto == PROTO_UDP
  }

  /** The three ways in which an entry of `f` can come into being. */
  predicate MayCreate(op: Op, f: u32) {
    match op
    case Create(flowId, _, _, _, _) => flowId == f
    case Finish(c, connected) => c.flowId == f && connected
    case Arrive(_, _, bytes, _) => Decode(bytes).Some? && OpensUdp(Decode(bytes).value, f)
    case Write(_, _, _, _) => false
    case SendControl(_, _, _, _, _) => false
    case Configure(_, _) => false
    case Teardown(_, _) => false
    case Idle(_) => false
  }

  /** The operations leave the entry of `f` in place or remove it; they never make a new one. */
  predicate SameEntry(ops: seq<Op>, f: u32) {
    forall op :: op in ops ==> !MayCreate(op, f)
  }

  // ---------- the sending side ----------

  /** DATA messages of flow `f` among the frames sent, in order. */
  function DataOf(sent: seq<Outgoing>, f: u32): seq<FlowMsg> {
    if sent == [] then []
    else
      var m := sent[|sent| - 1].message;
      DataOf(sent[..|sent| - 1], f) + (if m.flowId == f && m.flags == FLAG_DATA then [m] else [])
  }

  /** The size guard silently drops what does not fit a datagram. */
  function NewChunk(op: Op, f: u32): seq<Bytes> {
    if op.Write? && op.flowId == f && |op.chunk| <= 65_400 then [op.chunk] else []
  }

  /** The chunks written to flow `f` that the size guard lets through. */
  function ChunksWritten(ops: seq<Op>, f: u32): seq<Bytes> {
    if ops == [] then [] else ChunksWritten(ops[..|ops| - 1], f) + NewChunk(ops[|ops| - 1], f)
  }

  /** The messages that number `chunks` from 0 on, modulo the sequence space. */
  function Numbered(f: u32, chunks: seq<Bytes>): seq<FlowMsg> {
    if chunks == [] then []
    else
      var n := |chunks| - 1;
      Numbered(f, chunks[..n]) + [FlowMsg(f, n % SEQUENCE_SPACE, FLAG_DATA, chunks[n])]
  }

  lemma DataOfAppend(sent: seq<Outgoing>, o: Outgoing, f: u32)
    ensures DataOf(sent + [o], f) ==
            DataOf(sent, f) + (if o.message.flowId == f && o.message.flags == FLAG_DATA then [o.message] else [])
  {
    assert (sent + [o])[..|sent|] == sent;
  }

  lemma NumberedAppend(f: u32, chunks: seq<Bytes>, c: Bytes)
    ensures Numbered(f, chunks + [c]) == Numbered(f, chunks) + [FlowMsg(f, |chunks| % SEQUENCE_SPACE, FLAG_DATA, c)]
  {
    assert (chunks + [c])[..|chunks|] == chunks;
  }

  lemma SendKeeps(st: FlowState, netId: nat, peer: u64, flowId: u32, flags: u8, payload: Bytes, f: u32)
    requires flags != FLAG_DATA || flowId != f
    ensures var st' := SendFrame(st, netId, peer, flowId, flags, payload);
            && DataOf(st'.sent, f) == DataOf(st.sent, f)
            && (f in st'.flows <==> f in st.flows)
            && (f in st.flows ==> st'.flows[f] == st.flows[f])
            && st'.delivered == st.delivered
  {
    if |payload| <= 65_400 {
      var st' := SendFrame(st, netId, peer, flowId, flags, payload);
      DataOfAppend(st.sent, st'.sent[|st.sent|], f);
    }
  }

  lemma CloseEffects(st: FlowState, flowId: u32, notify: bool, f: u32)
    ensures var st' := CloseFlow(st, flowId, notify);
            && DataOf(st'.sent, f) == DataOf(st.sent, f) && st'.delivered == st.delivered
            && (f in st'.flows ==> f in st.flows && f != flowId && st'.flows[f] == st.flows[f])
  {
    if flowId in st.flows {
      var ctx := st.flows[flowId];
      var rest := st.(flows := st.flows - {flowId}, locals := OtherLocals(st.locals, flowId));
      SendKeeps(rest, ctx.netId, ctx.peer, flowId, FLAG_CLOSE, [], f);
    }
  }

  /** DATA of another flow, and every other message. */
  predicate NotDataOf(m: FlowMsg, f: u32) { m.flowId != f || m.flags != FLAG_DATA }

  lemma DataEffects(st: FlowState, m: FlowMsg, f: u32)
    ensures var st' := OnData(st, m);
            && DataOf(st'.sent, f) == DataOf(st.sent, f)
            && (f in st'.flows ==> f in st.flows && st'.flows[f].nextSend == st.flows[f].nextSend)
            && (m.flowId != f ==> StreamOf(st'.delivered, f) == StreamOf(st.delivered, f)
                                  && (f in st'.flows ==> st'.flows[f] == st.flows[f]))
  {
    CloseEffects(st, m.flowId, true, f);
    StreamOfAppend(st.delivered, Delivery(m.flowId, m.payload), f);
  }

  /** Entry, stream and DATA of `f` are as before. */
  predicate Untouched(st: FlowState, st': FlowState, f: u32) {
    && DataOf(st'.sent, f) == DataOf(st.sent, f) && st'.delivered == st.delivered
    && (f in st'.flows <==> f in st.flows) && (f in st.flows ==> st'.flows[f] == st.flows[f])
  }

  lemma OpenUdpEffects(st: FlowState, netId: nat, peer: u64, flowId: u32, f: u32)
    requires flowId != f
    ensures Untouched(st, OnOpenUdp(st, netId, peer, flowId), f)
  {
    var accepted :=
      if flowId in st.flows then st else st.(flows := st.flows[flowId := NewFlow(netId, peer, Udp(false))]);
    SendKeeps(accepted, netId, peer, flowId, FLAG_OPENED_OK, [], f);
  }

  lemma OpenTcpEffects(st: FlowState, netId: nat, peer: u64, flowId: u32, port: nat, f: u32)
    ensures Untouched(st, OnOpenTcp(st, netId, peer, flowId, port), f)
  {
    if flowId in st.flows {
      SendKeeps(st, netId, peer, flowId, FLAG_OPENED_OK, [], f);
    } else if FindService(RulesOf(st.exposes, netId), TcpService, port).None? {
      SendKeeps(st, netId, peer, flowId, FLAG_OPENED_FAIL, BuildOpenedFail(NoServiceText(port)), f);
    }
  }

  lemma OpenEffects(st: FlowState, netId: nat, peer: u64, m: FlowMsg, f: u32)
    requires m.flags == FLAG_OPEN && !OpensUdp(m, f)
    ensures Untouched(st, OnOpen(st, netId, peer, m.flowId, m.payload), f)
  {
    var info := ParseOpen(m.payload);
    if info.Some? {
      if info.value.proto == PROTO_UDP {
        OpenUdpEffects(st, netId, peer, m.flowId, f);
      } else if PortOf(info.value.addr).Some? {
        OpenTcpEffects(st, netId, peer, m.flowId, PortOf(info.value.addr).value, f);
      }
    }
  }

  lemma FinishEffects(st: FlowState, c: Connect, connected: bool, f: u32)
    requires !(c.flowId == f && connected)
    ensures Untouched(st, FinishConnect(st, c, connected), f)
  {
    if c in st.running {
      var ended := st.(connecting := st.connecting - {c.flowId}, running := st.running - multiset{c});
      if connected {
        var registered := ended.(flows := ended.flows[c.flowId := NewFlow(c.netId, c.peer, InTcp)]);
        SendKeeps(registered, c.netId, c.peer, c.flowId, FLAG_OPENED_OK, [], f);
      } else {
        SendKeeps(ended, c.netId, c.peer, c.flowId, FLAG_OPENED_FAIL, BuildOpenedFail(Ascii(UNREACHABLE_TEXT)), f);
      }
    }
  }

  lemma CreateEffects(st: FlowState, flowId: u32, netId: nat, peer: u64, tcp: bool, dest: Bytes, f: u32)
    requires flowId != f
    ensures Untouched(st, OpenOwn(st, flowId, netId, peer, tcp, dest), f)
  {
    var proto := if tcp then PROTO_TCP else PROTO_UDP;
    var registered := st.(flows := st.flows[flowId := NewFlow(netId, peer, OwnKind(tcp))]);
    SendKeeps(registered, netId, peer, flowId, FLAG_OPEN, BuildOpen(proto, dest), f);
  }

  lemma MessageEffects(st: FlowState, netId: nat, peer: u64, m: FlowMsg, local: Local, f: u32)
    requires !OpensUdp(m, f)
    ensures var st' := OnMessage(st, netId, peer, m, local);
            && DataOf(st'.sent, f) == DataOf(st.sent, f)
            && (f in st'.flows ==> f in st.flows && st'.flows[f].nextSend == st.flows[f].nextSend)
            && (NotDataOf(m, f) ==> StreamOf(st'.delivered, f) == StreamOf(st.delivered, f)
                                    && (f in st'.flows ==> st'.flows[f].nextRecv == st.flows[f].nextRecv))
  {
    if m.flags == FLAG_DATA {
      DataEffects(st, m, f);
    } else if m.flags == FLAG_CLOSE {
      CloseEffects(st, m.flowId, false, f);
    } else if m.flags == FLAG_OPEN {
      OpenEffects(st, netId, peer, m, f);
    } else if m.flags == FLAG_DATAGRAM {
      DatagramLeavesStreams(st, netId, m.flowId, m.payload, local);
    } else {
      OpenedEffects(st, m.flowId, f);
      if m.flags != FLAG_OPENED_OK && m.flags != FLAG_OPENED_FAIL {
        DatagramLeavesStreams(st, netId, m.flowId, m.payload, local);
      }
    }
  }

  lemma OpenedEffects(st: FlowState, flowId: u32, f: u32)
    ensures var st' := OnOpened(st, flowId);
            && st'.sent == st.sent && st'.delivered == st.delivered
            && (f in st'.flows ==> f in st.flows && st'.flows[f].nextSend == st.flows[f].nextSend
                                   && st'.flows[f].nextRecv == st.flows[f].nextRecv)
  {
  }

  lemma DatagramLeavesStreams(st: FlowState, netId: nat, flowId: u32, payload: Bytes, local: Local)
    ensures var st' := OnDatagram(st, netId, flowId, payload, local);
            st'.flows == st.flows && st'.sent == st.sent && st'.delivered == st.delivered
  {
  }

  /** Nothing but a write to `f` sends DATA on it or moves its send counter. */
  lemma OtherOpsSendNothing(st: FlowState, op: Op, f: u32)
    requires !(op.Write? && op.flowId == f) && !MayCreate(op, f)
    ensures DataOf(Do(st, op).sent, f) == DataOf(st.sent, f)
    ensures f in Do(st, op).flows ==> f in st.flows && Do(st, op).flows[f].nextSend == st.flows[f].nextSend
  {
    match op
    case Write(netId, peer, flowId, chunk) => SendKeeps(st, netId, peer, flowId, FLAG_DATA, chunk, f);
    case SendControl(netId, peer, flowId, flags, payload) =>
      if flags != FLAG_DATA { SendKeeps(st, netId, peer, flowId, flags, payload, f); }
    case Arrive(netId, peer, bytes, local) =>
      if Decode(bytes).Some? { MessageEffects(st, netId, peer, Decode(bytes).value, local, f); }
    case Create(flowId, netId, peer, tcp, dest) => CreateEffects(st, flowId, netId, peer, tcp, dest, f);
    case Idle(_) =>
    case Finish(c, connected) => FinishEffects(st, c, connected, f);
    case Configure(_, _) =>
    case Teardown(flowId, notifyPeer) => CloseEffects(st, flowId, notifyPeer, f);
  }

  lemma EntriesAreNotRevived(st: FlowState, op: Op, f: u32)
    requires !MayCreate(op, f) && f in Do(st, op).flows
    ensures f in st.flows
  {
    if !(op.Write? && op.flowId == f) { OtherOpsSendNothing(st, op, f); }
  }

  /** While its entry lives, a flow sends exactly the chunks written to it, numbered in order. */
  lemma {:induction false} SenderNumbersChunks(st: FlowState, ops: seq<Op>, f: u32)
    requires f in st.flows && st.flows[f].nextSend == 0 && DataOf(st.sent, f) == []
    requires SameEntry(ops, f) && f in DoAll(st, ops).flows
    ensures NumbersChunks(DoAll(st, ops), f, ChunksWritten(ops, f))
    decreases |ops|
  {
    if ops != [] {
      var n := |ops| - 1;
      var op := ops[n];
      EntriesAreNotRevived(DoAll(st, ops[..n]), op, f);
      SenderNumbersChunks(st, ops[..n], f);
      SenderStep(DoAll(st, ops[..n]), op, f, ChunksWritten(ops[..n], f));
    }
  }

  predicate NumbersChunks(st: FlowState, f: u32, chunks: seq<Bytes>) {
    && f in st.flows && st.flows[f].nextSend == |chunks| % SEQUENCE_SPACE
    && DataOf(st.sent, f) == Numbered(f, chunks)
  }

  lemma SenderStep(st: FlowState, op: Op, f: u32, chunks: seq<Bytes>)
    requires NumbersChunks(st, f, chunks) && !MayCreate(op, f) && f in Do(st, op).flows
    ensures NumbersChunks(Do(st, op), f, chunks + NewChunk(op, f))
  {
    if op.Write? && op.flowId == f {
      WriteNumbersChunk(st, op, f, chunks);
    } else {
      OtherOpsSendNothing(st, op, f);
      assert chunks + [] == chunks;
    }
  }

  lemma WrapStep(n: nat)
    ensures WrapNext(n % SEQUENCE_SPACE) == (n + 1) % SEQUENCE_SPACE
  {
  }

  lemma WriteNumbersChunk(st: FlowState, op: Op, f: u32, chunks: seq<Bytes>)
    requires op.Write? && op.flowId == f && NumbersChunks(st, f, chunks)
    ensures NumbersChunks(Do(st, op), f, chunks + NewChunk(op, f))
  {
    if |op.chunk| <= 65_400 {
      var m := FlowMsg(f, st.flows[f].nextSend, FLAG_DATA, op.chunk);
      DataOfAppend(st.sent, Outgoing(op.netId, op.peer, m), f);
      NumberedAppend(f, chunks, op.chunk);
      WrapStep(|chunks|);
    } else {
      assert chunks + [] == chunks;
    }
  }

  // ---------- the receiving side ----------

  /** What has been handed to the stream of flow `f`. */
  function StreamOf(delivered: seq<Delivery>, f: u32): seq<Bytes> {
    if delivered == [] then []
    else
      var d := delivered[|delivered| - 1];
      StreamOf(delivered[..|delivered| - 1], f) + (if d.flowId == f then [d.chunk] else [])
  }

  lemma StreamOfAppend(delivered: seq<Delivery>, d: Delivery, f: u32)
    ensures StreamOf(delivered + [d], f) == StreamOf(delivered, f) + (if d.flowId == f then [d.chunk] else [])
  {
    assert (delivered + [d])[..|delivered|] == delivered;
  }

  /**
    The network: any frame may arrive at any time and any number of times, but
    DATA of flow `f` is one of the messages its sender made of `chunks`.
   */
  ghost predicate FromSender(op: Op, f: u32, chunks: seq<Bytes>) {
    op.Arrive? ==>
      var m := Decode(op.bytes);
      m.Some? && m.value.flowId == f && m.value.flags == FLAG_DATA ==> m.value in Numbered(f, chunks)
  }

  lemma {:induction false} NumberedMembers(f: u32, chunks: seq<Bytes>, m: FlowMsg)
    requires m in Numbered(f, chunks)
    ensures exists i :: 0 <= i < |chunks| && m == FlowMsg(f, i % SEQUENCE_SPACE, FLAG_DATA, chunks[i])
  {
    var n := |chunks| - 1;
    if m in Numbered(f, chunks[..n]) {
      NumberedMembers(f, chunks[..n], m);
      var i :| 0 <= i < n && m == FlowMsg(f, i % SEQUENCE_SPACE, FLAG_DATA, chunks[..n][i]);
      assert m == FlowMsg(f, i % SEQUENCE_SPACE, FLAG_DATA, chunks[i]);
    } else {
      assert m == FlowMsg(f, n % SEQUENCE_SPACE, FLAG_DATA, chunks[n]);
    }
  }

  /** After `base` the first `n` chunks were delivered; if the entry is still there, it expects the next. */
  predicate InOrder(base: seq<Bytes>, st: FlowState, f: u32, chunks: seq<Bytes>, n: nat) {
    && n <= |chunks| && StreamOf(st.delivered, f) == base + chunks[..n]
    && (f in st.flows ==> st.flows[f].nextRecv == n % SEQUENCE_SPACE)
  }

  /** Everything but DATA of `f` leaves the stream of `f` and the expected number alone. */
  lemma OtherOpsDeliverNothing(st: FlowState, op: Op, f: u32)
    requires !MayCreate(op, f)
    requires op.Arrive? ==> (Decode(op.bytes).Some? ==> NotDataOf(Decode(op.bytes).value, f))
    ensures StreamOf(Do(st, op).delivered, f) == StreamOf(st.delivered, f)
    ensures f in Do(st, op).flows ==> f in st.flows && Do(st, op).flows[f].nextRecv == st.flows[f].nextRecv
  {
    match op
    case Write(_, _, _, _) =>
    case SendControl(_, _, _, _, _) =>
    case Arrive(netId, peer, bytes, local) =>
      if Decode(bytes).Some? { MessageEffects(st, netId, peer, Decode(bytes).value, local, f); }
    case Create(flowId, netId, peer, tcp, dest) => CreateEffects(st, flowId, netId, peer, tcp, dest, f);
    case Idle(_) =>
    case Finish(c, connected) => FinishEffects(st, c, connected, f);
    case Configure(_, _) =>
    case Teardown(flowId, notifyPeer) => CloseEffects(st, flowId, notifyPeer, f);
  }

  lemma DataStep(base: seq<Bytes>, st: FlowState, m: FlowMsg, f: u32, chunks: seq<Bytes>, n: nat)
    requires |chunks| < SEQUENCE_SPACE && m.flowId == f && m in Numbered(f, chunks) && InOrder(base, st, f, chunks, n)
    ensures InOrder(base, OnData(st, m), f, chunks, n) || InOrder(base, OnData(st, m), f, chunks, n + 1)
  {
    NumberedMembers(f, chunks, m);
    var i :| 0 <= i < |chunks| && m == FlowMsg(f, i % SEQUENCE_SPACE, FLAG_DATA, chunks[i]);
    if f in st.flows {
      if st.flows[f].kind.Udp? || m.seqNo != st.flows[f].nextRecv {
        CloseEffects(st, f, true, f);
      } else {
        SameNumber(i, n, |chunks|);
        StreamOfAppend(st.delivered, Delivery(f, m.payload), f);
        WrapStep(n);
        assert base + chunks[..n + 1] == base + chunks[..n] + [chunks[n]];
      }
    }
  }

  lemma SameNumber(i: nat, n: nat, size: nat)
    requires i < size && n <= size < SEQUENCE_SPACE && i % SEQUENCE_SPACE == n % SEQUENCE_SPACE
    ensures i == n
  {
  }

  /** Whatever the network does, the entry delivers the first `n` chunks for some `n`. */
  lemma {:induction false} DeliversPrefix(st: FlowState, ops: seq<Op>, f: u32, chunks: seq<Bytes>) returns (n: nat)
    requires |chunks| < SEQUENCE_SPACE
    requires f in st.flows && st.flows[f].nextRecv == 0
    requires SameEntry(ops, f) && forall op :: op in ops ==> FromSender(op, f, chunks)
    ensures InOrder(StreamOf(st.delivered, f), DoAll(st, ops), f, chunks, n)
    decreases |ops|
  {
    if ops == [] {
      n := 0;
    } else {
      var k := |ops| - 1;
      var before, op := DoAll(st, ops[..k]), ops[k];
      n := DeliversPrefix(st, ops[..k], f, chunks);
      if op.Arrive? && Decode(op.bytes).Some? && !NotDataOf(Decode(op.bytes).value, f) {
        assert FromSender(op, f, chunks);
        DataStep(StreamOf(st.delivered, f), before, Decode(op.bytes).value, f, chunks, n);
        if !InOrder(StreamOf(st.delivered, f), DoAll(st, ops), f, chunks, n) { n := n + 1; }
      } else {
        OtherOpsDeliverNothing(before, op, f);
      }
    }
  }

  /** After its entry is gone, nothing more reaches the stream of `f`. */
  lemma {:induction false} GoneDeliversNothing(st: FlowState, ops: seq<Op>, f: u32)
    requires f !in st.flows && SameEntry(ops, f)
    ensures f !in DoAll(st, ops).flows && StreamOf(DoAll(st, ops).delivered, f) == StreamOf(st.delivered, f)
    decreases |ops|
  {
    if ops != [] {
      var k := |ops| - 1;
      var before, op := DoAll(st, ops[..k]), ops[k];
      GoneDeliversNothing(st, ops[..k], f);
      if f in Do(before, op).flows { EntriesAreNotRevived(before, op, f); }
      if op.Arrive? && Decode(op.bytes).Some? && !NotDataOf(Decode(op.bytes).value, f) {
        assert Do(before, op) == before;
      } else {
        OtherOpsDeliverNothing(before, op, f);
      }
    }
  }

  /** A gap removes the entry and delivers nothing. */
  lemma GapClosesFlow(st: FlowState, netId: nat, peer: u64, m: FlowMsg, local: Local)
    requires m.flags == FLAG_DATA && m.flowId in st.flows && m.seqNo != st.flows[m.flowId].nextRecv
    ensures var st' := OnMessage(st, netId, peer, m, local);
            m.flowId !in st'.flows && st'.delivered == st.delivered
  {
    CloseEffects(st, m.flowId, true, m.flowId);
  }

  // ---------- both ends ----------

  function Flatten(chunks: seq<Bytes>): Bytes {
    if chunks == [] then [] else Flatten(chunks[..|chunks| - 1]) + chunks[|chunks| - 1]
  }

  lemma {:induction false} FlattenPrefix(chunks: seq<Bytes>, n: nat)
    requires n <= |chunks|
    ensures Flatten(chunks[..n]) <= Flatten(chunks)
    decreases |chunks|
  {
    if n < |chunks| {
      var shorter := chunks[..|chunks| - 1];
      FlattenPrefix(shorter, n);
      assert chunks[..n] == shorter[..n];
    } else {
      assert chunks[..n] == chunks;
    }
  }

  /** DATA of `f` that arrives is among these messages. */
  ghost predicate ArriveFrom(messages: seq<FlowMsg>, ops: seq<Op>, f: u32) {
    forall op :: op in ops && op.Arrive? && Decode(op.bytes).Some? && !NotDataOf(Decode(op.bytes).value, f) ==>
      Decode(op.bytes).value in messages
  }

  lemma SentIsFromSender(messages: seq<FlowMsg>, ops: seq<Op>, f: u32, chunks: seq<Bytes>)
    requires ArriveFrom(messages, ops, f) && messages == Numbered(f, chunks)
    ensures forall op :: op in ops ==> FromSender(op, f, chunks)
  {
  }

  /**
    One direction of a TCP flow: the sender's entry lives and takes fewer than
    2^32 chunks; the network delivers any of its DATA messages any number of
    times in any order. Then the bytes the receiver's entry hands out are a
    prefix of the bytes written.
   */
  lemma FlowIsPrefix(sender: FlowState, writes: seq<Op>, receiver: FlowState, arrivals: seq<Op>, f: u32)
    requires f in sender.flows && sender.flows[f].nextSend == 0 && DataOf(sender.sent, f) == []
    requires SameEntry(writes, f) && f in DoAll(sender, writes).flows
    requires f in receiver.flows && receiver.flows[f].nextRecv == 0 && StreamOf(receiver.delivered, f) == []
    requires SameEntry(arrivals, f)
    requires |ChunksWritten(writes, f)| < SEQUENCE_SPACE
    requires ArriveFrom(DataOf(DoAll(sender, writes).sent, f), arrivals, f)
    ensures Flatten(StreamOf(DoAll(receiver, arrivals).delivered, f)) <= Flatten(ChunksWritten(writes, f))
  {
    var chunks := ChunksWritten(writes, f);
    SenderNumbersChunks(sender, writes, f);
    SentIsFromSender(DataOf(DoAll(sender, writes).sent, f), arrivals, f, chunks);
    var n := DeliversPrefix(receiver, arrivals, f, chunks);
    assert [] + chunks[..n] == chunks[..n];
    FlattenPrefix(chunks, n);
  }
}
