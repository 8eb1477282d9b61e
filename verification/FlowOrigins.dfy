/** What DATA of other peers and networks can do to a flow. */
module FlowOrigins {
  import opened Wrappers
  import opened Endec
  import opened FlowWire
  import opened FlowManager
  import opened FlowLaws
  import opened FlowOpening
  import opened FlowLimits

  // ---------- DATA of another origin ----------

  /** The DATA message of `f` that arrives, if the operation is one. */
  function DataFor(op: Op, f: u32): Option<FlowMsg> {
    if op.Arrive? && Decode(op.bytes).Some? && !NotDataOf(Decode(op.bytes).value, f) then Decode(op.bytes) else None
  }

  /** It comes from the network and the peer of the entry. */
  predicate OwnOrigin(st: FlowState, op: Op, f: u32)
    requires f in st.flows
  {
    op.Arrive? ==> op.netId == st.flows[f].netId && op.peer == st.flows[f].peer
  }

  predicate InStep(st: FlowState, m: FlowMsg) {
    m.flowId in st.flows && !OutOfStep(st, m)
  }

  /**
    DATA is handed to the stream exactly if it has the expected number; network
    and peer are not asked for. A message of another origin takes the place of
    the flow's own one, which then closes the flow.
   */
  lemma DataEntersIff(st: FlowState, op: Op, f: u32)
    requires DataFor(op, f).Some?
    ensures var m, st' := DataFor(op, f).value, Do(st, op);
            && StreamOf(st'.delivered, f) == StreamOf(st.delivered, f) + (if InStep(st, m) then [m.payload] else [])
            && (InStep(st, m) ==> f in st'.flows && st'.flows[f].nextRecv == WrapNext(st.flows[f].nextRecv))
  {
    var m := DataFor(op, f).value;
    StreamOfAppend(st.delivered, Delivery(f, m.payload), f);
    CloseEffects(st, f, true, f);
    assert StreamOf(st.delivered, f) + [] == StreamOf(st.delivered, f);
  }

  lemma OwnDataThenCloses(st: FlowState, foreign: Op, own: Op, f: u32)
    requires DataFor(foreign, f).Some? && DataFor(own, f).Some? && InStep(st, DataFor(foreign, f).value)
    requires DataFor(own, f).value.seqNo == DataFor(foreign, f).value.seqNo
    ensures f !in Do(Do(st, foreign), own).flows
  {
    DataEntersIff(st, foreign, f);
    StaleDataCloses(Do(st, foreign), own, f);
  }

  lemma StaleDataCloses(st: FlowState, op: Op, f: u32)
    requires DataFor(op, f).Some? && f in st.flows && DataFor(op, f).value.seqNo != st.flows[f].nextRecv
    ensures f !in Do(st, op).flows
  {
    DataGoesOn(st, DataFor(op, f).value, f);
  }

  /** DATA of the entry's own origin is one of the messages its sender made of `chunks`. */
  ghost predicate OwnFromSender(st: FlowState, op: Op, f: u32, chunks: seq<Bytes>) {
    f in st.flows && DataFor(op, f).Some? && OwnOrigin(st, op, f) ==> DataFor(op, f).value in Numbered(f, chunks)
  }

  /** A message of another origin that arrives in step is one that the sender itself made of `chunks`. */
  predicate Harmless(st: FlowState, op: Op, f: u32, chunks: seq<Bytes>) {
    f in st.flows && DataFor(op, f).Some? && !OwnOrigin(st, op, f) && InStep(st, DataFor(op, f).value)
    ==> DataFor(op, f).value in Numbered(f, chunks)
  }

  ghost predicate SomeInOrder(base: seq<Bytes>, st: FlowState, f: u32, chunks: seq<Bytes>) {
    exists n: nat :: InOrder(base, st, f, chunks, n)
  }

  lemma ForeignStep(base: seq<Bytes>, st: FlowState, op: Op, f: u32, chunks: seq<Bytes>)
    requires |chunks| < SEQUENCE_SPACE
    requires f in st.flows && DataFor(op, f).Some? && SomeInOrder(base, st, f, chunks)
    ensures var m := DataFor(op, f).value;
            SomeInOrder(base, Do(st, op), f, chunks) <==> (InStep(st, m) ==> m in Numbered(f, chunks))
  {
    var n: nat :| InOrder(base, st, f, chunks, n);
    var m := DataFor(op, f).value;
    if InStep(st, m) {
      EnteringStep(base, st, op, f, chunks, n);
      DueMessage(f, chunks, n, m);
    } else {
      DataEntersIff(st, op, f);
      CloseEffects(st, f, true, f);
      assert InOrder(base, Do(st, op), f, chunks, n);
    }
  }

  lemma EnteringStep(base: seq<Bytes>, st: FlowState, op: Op, f: u32, chunks: seq<Bytes>, n: nat)
    requires DataFor(op, f).Some? && InStep(st, DataFor(op, f).value) && InOrder(base, st, f, chunks, n)
    ensures SomeInOrder(base, Do(st, op), f, chunks) <==> n < |chunks| && DataFor(op, f).value.payload == chunks[n]
  {
    var m := DataFor(op, f).value;
    DataEntersIff(st, op, f);
    WrapStep(n);
    if n < |chunks| && m.payload == chunks[n] {
      assert base + chunks[..n + 1] == base + chunks[..n] + [chunks[n]];
      assert InOrder(base, Do(st, op), f, chunks, n + 1);
    }
    if SomeInOrder(base, Do(st, op), f, chunks) {
      InOrderIsPrefix(base, Do(st, op), f, chunks);
      PrefixGrows(base, chunks, n, m.payload);
    }
  }

  /** The message that is due, and in step, is the sender's if it carries the chunk that is due. */
  lemma DueMessage(f: u32, chunks: seq<Bytes>, n: nat, m: FlowMsg)
    requires |chunks| < SEQUENCE_SPACE && n <= |chunks|
    requires m.flowId == f && m.flags == FLAG_DATA && m.seqNo == n % SEQUENCE_SPACE
    ensures m in Numbered(f, chunks) <==> n < |chunks| && m.payload == chunks[n]
  {
    if m in Numbered(f, chunks) {
      NumberedMembers(f, chunks, m);
      var i :| 0 <= i < |chunks| && m == FlowMsg(f, i % SEQUENCE_SPACE, FLAG_DATA, chunks[i]);
      SameNumber(i, n, |chunks|);
    }
    if n < |chunks| { NumberedAt(f, chunks, n); }
  }

  lemma InOrderIsPrefix(base: seq<Bytes>, st: FlowState, f: u32, chunks: seq<Bytes>)
    requires SomeInOrder(base, st, f, chunks)
    ensures StreamOf(st.delivered, f) <= base + chunks
  {
    var n: nat :| InOrder(base, st, f, chunks, n);
    assert chunks == chunks[..n] + chunks[n..];
    assert base + chunks == base + chunks[..n] + chunks[n..];
  }

  lemma PrefixGrows(base: seq<Bytes>, chunks: seq<Bytes>, n: nat, chunk: Bytes)
    requires n <= |chunks| && base + chunks[..n] + [chunk] <= base + chunks
    ensures n < |chunks| && chunk == chunks[n]
  {
    var longer := base + chunks[..n] + [chunk];
    var k := |base| + n;
    assert longer[k] == chunk && (base + chunks)[k] == chunk;
  }

  lemma OriginStep(base: seq<Bytes>, st: FlowState, op: Op, f: u32, chunks: seq<Bytes>)
    requires |chunks| < SEQUENCE_SPACE && f in st.flows && !Accepts(st, op, f)
    requires OwnFromSender(st, op, f, chunks) && SomeInOrder(base, st, f, chunks)
    ensures SomeInOrder(base, Do(st, op), f, chunks) <==> Harmless(st, op, f, chunks)
  {
    if DataFor(op, f).Some? && !OwnOrigin(st, op, f) {
      ForeignStep(base, st, op, f, chunks);
    } else {
      var n: nat :| InOrder(base, st, f, chunks, n);
      assert FromSender(op, f, chunks);
      var n' := EntryStep(base, st, op, f, chunks, n);
    }
  }

  /** At every moment of the run the stream is `base` and then the first chunks of the sender. */
  ghost predicate AlwaysInOrder(base: seq<Bytes>, st: FlowState, ops: seq<Op>, f: u32, chunks: seq<Bytes>)
    decreases |ops|
  {
    && SomeInOrder(base, DoAll(st, ops), f, chunks)
    && (ops != [] ==> AlwaysInOrder(base, st, ops[..|ops| - 1], f, chunks))
  }

  ghost predicate AllHarmless(st: FlowState, ops: seq<Op>, f: u32, chunks: seq<Bytes>)
    decreases |ops|
  {
    ops != [] ==>
      var n := |ops| - 1;
      AllHarmless(st, ops[..n], f, chunks) && Harmless(DoAll(st, ops[..n]), ops[n], f, chunks)
  }

  ghost predicate OwnFramesFromSender(st: FlowState, ops: seq<Op>, f: u32, chunks: seq<Bytes>)
    decreases |ops|
  {
    ops != [] ==>
      var n := |ops| - 1;
      OwnFramesFromSender(st, ops[..n], f, chunks) && OwnFromSender(DoAll(st, ops[..n]), ops[n], f, chunks)
  }

  /**
    With arbitrary DATA of other peers and networks under the same number: the
    stream stays the sender's exactly if every such message that arrives in step
    is one that the sender made.
   */
  lemma {:induction false} InOrderIffForeignHarmless(st: FlowState, ops: seq<Op>, f: u32, chunks: seq<Bytes>)
    requires |chunks| < SEQUENCE_SPACE && f in st.flows && st.flows[f].nextRecv == 0 && Lives(st, ops, f)
    requires OwnFramesFromSender(st, ops, f, chunks)
    ensures var base := StreamOf(st.delivered, f);
            AlwaysInOrder(base, st, ops, f, chunks) <==> AllHarmless(st, ops, f, chunks)
    decreases |ops|
  {
    var base := StreamOf(st.delivered, f);
    if ops == [] {
      assert base + chunks[..0] == base;
      assert InOrder(base, st, f, chunks, 0);
    } else {
      var n := |ops| - 1;
      InOrderIffForeignHarmless(st, ops[..n], f, chunks);
      if AlwaysInOrder(base, st, ops[..n], f, chunks) {
        OriginStep(base, DoAll(st, ops[..n]), ops[n], f, chunks);
      }
    }
  }
}
