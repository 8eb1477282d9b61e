/** Where the prefix property of flows ends: oversized chunks and the 32-bit sequence space. */
module FlowLimits {
  import opened Wrappers
  import opened Endec
  import opened FlowWire
  import opened FlowManager
  import opened FlowLaws

  // ---------- oversized chunks ----------

  predicate Fits(chunk: Bytes) { |chunk| <= 65_400 }

  function Fitting(chunks: seq<Bytes>): seq<Bytes> {
    if chunks == [] then []
    else
      var n := |chunks| - 1;
      Fitting(chunks[..n]) + (if Fits(chunks[n]) then [chunks[n]] else [])
  }

  /** Every chunk written to `f`, oversized ones included. */
  function AllWritten(ops: seq<Op>, f: u32): seq<Bytes> {
    if ops == [] then []
    else
      var op := ops[|ops| - 1];
      AllWritten(ops[..|ops| - 1], f) + (if op.Write? && op.flowId == f then [op.chunk] else [])
  }

  lemma {:induction false} WrittenAreFitting(ops: seq<Op>, f: u32)
    ensures ChunksWritten(ops, f) == Fitting(AllWritten(ops, f))
  {
    if ops != [] {
      var n := |ops| - 1;
      var earlier, op := AllWritten(ops[..n], f), ops[n];
      WrittenAreFitting(ops[..n], f);
      if op.Write? && op.flowId == f {
        assert (earlier + [op.chunk])[..|earlier|] == earlier;
      } else {
        assert earlier + [] == earlier && ChunksWritten(ops[..n], f) + [] == ChunksWritten(ops[..n], f);
      }
    }
  }

  ghost predicate NoneFitsAfterOversized(chunks: seq<Bytes>) {
    forall i, j :: 0 <= i < j < |chunks| && !Fits(chunks[i]) ==> !Fits(chunks[j])
  }

  lemma {:induction false} FittingLength(chunks: seq<Bytes>)
    ensures |Fitting(chunks)| <= |chunks|
    ensures forall i :: 0 <= i < |Fitting(chunks)| ==> Fits(Fitting(chunks)[i])
    ensures |Fitting(chunks)| == |chunks| ==> Fitting(chunks) == chunks
    ensures (exists i :: 0 <= i < |chunks| && !Fits(chunks[i])) ==> |Fitting(chunks)| < |chunks|
  {
    if chunks != [] {
      var n := |chunks| - 1;
      FittingLength(chunks[..n]);
      assert chunks == chunks[..n] + [chunks[n]];
    }
  }

  /** One more chunk that fits keeps the prefix exactly if nothing was dropped so far. */
  lemma FittingNext(chunks: seq<Bytes>, last: Bytes)
    requires Fits(last) && (Fitting(chunks) <= chunks || !NoneFitsAfterOversized(chunks + [last]))
    ensures Fitting(chunks) + [last] <= chunks + [last] <==> NoneFitsAfterOversized(chunks + [last])
  {
    var all, kept := chunks + [last], Fitting(chunks);
    FittingLength(chunks);
    if NoneFitsAfterOversized(all) {
      forall i | 0 <= i < |chunks| ensures Fits(chunks[i]) { assert all[i] == chunks[i] && Fits(all[|chunks|]); }
      AllFitKept(chunks);
    } else if kept + [last] <= all {
      if |kept| == |chunks| {
        AllOfKeptFit(chunks, last);
      } else {
        assert kept == all[..|kept|] == chunks[..|kept|];
        assert all[|kept|] == last;
        DroppedPlace(chunks);
      }
    }
  }

  lemma AllOfKeptFit(chunks: seq<Bytes>, last: Bytes)
    requires Fits(last) && |Fitting(chunks)| == |chunks|
    ensures NoneFitsAfterOversized(chunks + [last])
  {
    FittingLength(chunks);
  }

  /** What is sent is a prefix of what was written exactly when no fitting chunk follows a dropped one. */
  lemma {:induction false} SentIsPrefixIff(chunks: seq<Bytes>)
    ensures Fitting(chunks) <= chunks <==> NoneFitsAfterOversized(chunks)
  {
    if chunks != [] {
      var n := |chunks| - 1;
      var earlier, last := chunks[..n], chunks[n];
      assert chunks == earlier + [last];
      SentIsPrefixIff(earlier);
      PrefixOfOrder(earlier, last);
      if Fits(last) {
        FittingNext(earlier, last);
      } else {
        FittingLength(earlier);
        assert Fitting(earlier) + [] == Fitting(earlier);
        NotFittingNext(earlier, last);
      }
    }
  }

  lemma PrefixOfOrder(chunks: seq<Bytes>, last: Bytes)
    ensures NoneFitsAfterOversized(chunks + [last]) ==> NoneFitsAfterOversized(chunks)
  {
    var all := chunks + [last];
    assert forall i :: 0 <= i < |chunks| ==> all[i] == chunks[i];
  }

  lemma NotFittingNext(chunks: seq<Bytes>, last: Bytes)
    requires !Fits(last) && |Fitting(chunks)| <= |chunks|
    ensures NoneFitsAfterOversized(chunks + [last]) <==> NoneFitsAfterOversized(chunks)
    ensures Fitting(chunks) <= chunks + [last] <==> Fitting(chunks) <= chunks
  {
    PrefixOfOrder(chunks, last);
  }

  lemma {:induction false} AllFitKept(chunks: seq<Bytes>)
    requires forall i :: 0 <= i < |chunks| ==> Fits(chunks[i])
    ensures Fitting(chunks) == chunks
  {
    if chunks != [] { AllFitKept(chunks[..|chunks| - 1]); }
  }

  /** If the kept chunks are a proper prefix, the next one was dropped. */
  lemma {:induction false} DroppedPlace(chunks: seq<Bytes>)
    requires Fitting(chunks) <= chunks && |Fitting(chunks)| < |chunks|
    ensures !Fits(chunks[|Fitting(chunks)|])
  {
    var n := |chunks| - 1;
    FittingLength(chunks[..n]);
    if Fits(chunks[n]) {
      var kept := Fitting(chunks[..n]);
      assert kept <= chunks[..n];
      DroppedPlace(chunks[..n]);
    } else if |Fitting(chunks)| < n {
      DroppedPlace(chunks[..n]);
    }
  }

  function Payloads(messages: seq<FlowMsg>): seq<Bytes> {
    if messages == [] then []
    else var n := |messages| - 1; Payloads(messages[..n]) + [messages[n].payload]
  }

  lemma {:induction false} PayloadsOfNumbered(f: u32, chunks: seq<Bytes>)
    ensures Payloads(Numbered(f, chunks)) == chunks
  {
    if chunks != [] {
      var n := |chunks| - 1;
      PayloadsOfNumbered(f, chunks[..n]);
      var earlier := Numbered(f, chunks[..n]);
      assert Numbered(f, chunks)[..|earlier|] == earlier;
      assert chunks == chunks[..n] + [chunks[n]];
    }
  }

  /**
    Over any run in which the entry lives, the chunks sent for it are a prefix of
    the chunks written to it exactly when no fitting chunk follows one that is
    too large for a datagram.
   */
  lemma SentIsPrefixOfWrittenIff(st: FlowState, ops: seq<Op>, f: u32)
    requires f in st.flows && st.flows[f].nextSend == 0 && DataOf(st.sent, f) == []
    requires SameEntry(ops, f) && f in DoAll(st, ops).flows
    ensures Payloads(DataOf(DoAll(st, ops).sent, f)) <= AllWritten(ops, f)
            <==> NoneFitsAfterOversized(AllWritten(ops, f))
  {
    SenderNumbersChunks(st, ops, f);
    PayloadsOfNumbered(f, ChunksWritten(ops, f));
    WrittenAreFitting(ops, f);
    SentIsPrefixIff(AllWritten(ops, f));
  }

  // ---------- the sequence space ----------

  /** Chunk number `i` arrives. */
  function ChunkArrives(f: u32, i: nat, chunk: Bytes): Op {
    Arrive(0, 0, Encode(FlowMsg(f, i % SEQUENCE_SPACE, FLAG_DATA, chunk)), NO_LOCAL)
  }

  function InOrderArrivals(f: u32, chunks: seq<Bytes>): seq<Op> {
    if chunks == [] then []
    else
      var n := |chunks| - 1;
      InOrderArrivals(f, chunks[..n]) + [ChunkArrives(f, n, chunks[n])]
  }

  predicate FreshTcp(st: FlowState, f: u32) {
    f in st.flows && !st.flows[f].kind.Udp? && st.flows[f].nextRecv == 0 && StreamOf(st.delivered, f) == []
  }

  predicate Received(st: FlowState, f: u32, chunks: seq<Bytes>) {
    && StreamOf(st.delivered, f) == chunks
    && f in st.flows && !st.flows[f].kind.Udp? && st.flows[f].nextRecv == |chunks| % SEQUENCE_SPACE
  }

  lemma NextChunkArrives(st: FlowState, f: u32, chunks: seq<Bytes>, chunk: Bytes)
    requires Received(st, f, chunks)
    ensures Received(Do(st, ChunkArrives(f, |chunks|, chunk)), f, chunks + [chunk])
  {
    DecodeOfEncode(FlowMsg(f, |chunks| % SEQUENCE_SPACE, FLAG_DATA, chunk));
    StreamOfAppend(st.delivered, Delivery(f, chunk), f);
    WrapStep(|chunks|);
  }

  /** A network that neither loses nor reorders delivers everything, however long. */
  lemma {:induction false} InOrderDeliversAll(st: FlowState, f: u32, chunks: seq<Bytes>)
    requires FreshTcp(st, f)
    ensures Received(DoAll(st, InOrderArrivals(f, chunks)), f, chunks)
  {
    if chunks != [] {
      var n := |chunks| - 1;
      var ops := InOrderArrivals(f, chunks);
      var earlier := InOrderArrivals(f, chunks[..n]);
      InOrderDeliversAll(st, f, chunks[..n]);
      assert ops[..|ops| - 1] == earlier;
      NextChunkArrives(DoAll(st, earlier), f, chunks[..n], chunks[n]);
      assert chunks == chunks[..n] + [chunks[n]];
    }
  }

  /** A run of the receiver against a sender of `chunks`. */
  ghost predicate Reception(st: FlowState, ops: seq<Op>, f: u32, chunks: seq<Bytes>) {
    FreshTcp(st, f) && AllFrom(ops, f, chunks)
  }

  /** For flows of `n` chunks every reception delivers a prefix. */
  ghost predicate PrefixSafe(n: nat) {
    forall st, ops, f, chunks :: |chunks| == n && Reception(st, ops, f, chunks) ==>
      StreamOf(DoAll(st, ops).delivered, f) <= chunks
  }

  lemma {:induction false} NumberedAt(f: u32, chunks: seq<Bytes>, i: nat)
    requires i < |chunks|
    ensures FlowMsg(f, i % SEQUENCE_SPACE, FLAG_DATA, chunks[i]) in Numbered(f, chunks)
  {
    var n := |chunks| - 1;
    if i < n { NumberedAt(f, chunks[..n], i); }
  }

  ghost predicate AllFrom(ops: seq<Op>, f: u32, chunks: seq<Bytes>) {
    SameEntry(ops, f) && forall op :: op in ops ==> FromSender(op, f, chunks)
  }

  lemma AllFromAppend(ops: seq<Op>, op: Op, f: u32, chunks: seq<Bytes>)
    requires AllFrom(ops, f, chunks) && !MayCreate(op, f) && FromSender(op, f, chunks)
    ensures AllFrom(ops + [op], f, chunks)
  {
  }

  lemma MessageIsFromSender(f: u32, chunks: seq<Bytes>, i: nat)
    requires i < |chunks|
    ensures var op := ChunkArrives(f, i, chunks[i]);
            !MayCreate(op, f) && FromSender(op, f, chunks)
  {
    DecodeOfEncode(FlowMsg(f, i % SEQUENCE_SPACE, FLAG_DATA, chunks[i]));
    NumberedAt(f, chunks, i);
  }

  ghost predicate Repeats(seen: seq<Bytes>, chunks: seq<Bytes>) {
    && |chunks| >= SEQUENCE_SPACE
    && forall i :: 0 <= i < |seen| ==> seen[i] == chunks[i % SEQUENCE_SPACE]
  }

  lemma RepeatedOp(f: u32, chunks: seq<Bytes>, seen: seq<Bytes>, n: nat)
    requires Repeats(seen, chunks) && n < |seen|
    ensures !MayCreate(ChunkArrives(f, n, seen[n]), f) && FromSender(ChunkArrives(f, n, seen[n]), f, chunks)
  {
    var i := n % SEQUENCE_SPACE;
    MessageIsFromSender(f, chunks, i);
    assert i % SEQUENCE_SPACE == i;
  }

  /** Messages of `chunks` in order, and after one full turn from the first one again. */
  lemma {:induction false} ReplayIsFromSender(f: u32, chunks: seq<Bytes>, seen: seq<Bytes>)
    requires Repeats(seen, chunks)
    ensures AllFrom(InOrderArrivals(f, seen), f, chunks)
  {
    if seen != [] {
      var n := |seen| - 1;
      assert Repeats(seen[..n], chunks);
      ReplayIsFromSender(f, chunks, seen[..n]);
      RepeatedOp(f, chunks, seen, n);
      AllFromAppend(InOrderArrivals(f, seen[..n]), ChunkArrives(f, n, seen[n]), f, chunks);
    }
  }

  /** A full turn of the numbers, and the first chunk once more. */
  function FullTurn(chunks: seq<Bytes>): seq<Bytes>
    requires |chunks| >= SEQUENCE_SPACE
  {
    chunks[..SEQUENCE_SPACE] + [chunks[0]]
  }

  lemma FullTurnAt(chunks: seq<Bytes>, i: nat)
    requires |chunks| >= SEQUENCE_SPACE && i <= SEQUENCE_SPACE
    ensures FullTurn(chunks)[i] == chunks[i % SEQUENCE_SPACE]
  {
    if i < SEQUENCE_SPACE { assert i % SEQUENCE_SPACE == i; }
  }

  /** After a full turn the first message counts as the next one. */
  lemma WrapReplays(st: FlowState, f: u32, chunks: seq<Bytes>) returns (ops: seq<Op>)
    requires FreshTcp(st, f) && |chunks| >= SEQUENCE_SPACE
    ensures Reception(st, ops, f, chunks) && StreamOf(DoAll(st, ops).delivered, f) == FullTurn(chunks)
  {
    var seen := FullTurn(chunks);
    ops := InOrderArrivals(f, seen);
    forall i | 0 <= i < |seen| ensures seen[i] == chunks[i % SEQUENCE_SPACE] { FullTurnAt(chunks, i); }
    ReplayIsFromSender(f, chunks, seen);
    InOrderDeliversAll(st, f, seen);
  }

  lemma TurnIsNoPrefix(chunks: seq<Bytes>)
    requires |chunks| >= SEQUENCE_SPACE && (|chunks| > SEQUENCE_SPACE ==> chunks[SEQUENCE_SPACE] != chunks[0])
    ensures !(FullTurn(chunks) <= chunks)
  {
    assert FullTurn(chunks)[SEQUENCE_SPACE] == chunks[0];
  }

  /** The prefix property holds exactly for fewer than 2^32 chunks. */
  lemma PrefixSafeIff(n: nat)
    ensures PrefixSafe(n) <==> n < SEQUENCE_SPACE
  {
    if n < SEQUENCE_SPACE {
      forall st, ops, f, chunks | |chunks| == n && Reception(st, ops, f, chunks)
        ensures StreamOf(DoAll(st, ops).delivered, f) <= chunks
      {
        var k := DeliversPrefix(st, ops, f, chunks);
      }
    } else {
      var st := NO_FLOWS.(flows := map[7 := NewFlow(0, 0, InTcp)]);
      var chunks: seq<Bytes> := seq(n, i => if i == 0 then [1] else []);
      var ops := WrapReplays(st, 7, chunks);
      TurnIsNoPrefix(chunks);
    }
  }
}
