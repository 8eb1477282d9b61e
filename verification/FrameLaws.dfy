/**
  Laws of sealed frames: what is sealed opens, what opens was sealed, and a
  node with one codec per network finds the right one in any order.
 */
module FrameLaws {
  import opened Wrappers
  import opened Endec
  import opened Wire
  import CodecLaws

  function SealedPacket(senderId: u64, frameType: u8, nonce: Bytes, cipher: Bytes): Bytes {
    Header(senderId, frameType) + nonce + cipher
  }

  lemma SealedPacketParses(senderId: u64, frameType: u8, nonce: Bytes, cipher: Bytes)
    requires |nonce| == 24 && |cipher| >= 16 && 1 <= frameType <= 4
    ensures var packet := SealedPacket(senderId, frameType, nonce, cipher);
            && |packet| >= FIXED_HEADER && packet[..AAD_HEADER] == Header(senderId, frameType)
            && TryParse(packet) == Some(RawFrame(senderId, frameType, nonce, cipher))
  {
    var head := Header(senderId, frameType);
    var packet := SealedPacket(senderId, frameType, nonce, cipher);
    assert packet[..AAD_HEADER] == head;
    assert packet[11..FIXED_HEADER] == nonce && packet[FIXED_HEADER..] == cipher;
    assert packet[2..][..8] == WriteU64Le(senderId)[..8];
  }

  /** Magic, version, sender, type; boot nonce and counter; ciphertext. */
  lemma SealedLayout(senderId: u64, frameType: u8, boot: Bytes, counter: u64, cipher: Bytes)
    requires |boot| == 16
    ensures var packet := SealedPacket(senderId, frameType, boot + WriteU64Le(counter), cipher);
            && |packet| == 35 + |cipher| && packet[0] == 0x0A && packet[1] == 2
            && packet[2..10] == WriteU64Le(senderId) && packet[10] == frameType
            && packet[11..27] == boot && packet[27..35] == WriteU64Le(counter) && packet[35..] == cipher
  {
    var sender, count := WriteU64Le(senderId), WriteU64Le(counter);
    var packet := SealedPacket(senderId, frameType, boot + count, cipher);
    assert packet == [0x0A, 2] + sender + [frameType] + boot + count + cipher;
    assert packet[2..10] == sender && packet[11..27] == boot && packet[27..35] == count;
  }

  /** Only such packets parse: long enough, with this magic and version, of type 1 to 4. */
  lemma ParsesIff(packet: Bytes)
    ensures TryParse(packet).Some? <==>
            |packet| >= 51 && packet[0] == 0x0A && packet[1] == 2 && 1 <= packet[10] <= 4
  {
  }

  /** A frame sealed under the receiver's key opens to what was sealed, replay permitting. */
  lemma SealedFrameOpens(st: CodecState, ledger: Ledger, key: Bytes, senderId: u64, frameType: u8,
                         boot: Bytes, counter: u64, payload: Bytes, cipher: Bytes)
    requires |boot| == 16 && 1 <= frameType <= 4 && |cipher| == |payload| + 16
    ensures var nonce := boot + WriteU64Le(counter);
            var ledger' := ledger[Sealing(key, nonce, Header(senderId, frameType), cipher) := payload];
            var (st', accepted) := Admit(st, boot, counter);
            TryOpen(st, ledger', key, SealedPacket(senderId, frameType, nonce, cipher))
            == (st', if accepted then Some(Opened(senderId, frameType, payload)) else None)
  {
    var nonce := boot + WriteU64Le(counter);
    SealedPacketParses(senderId, frameType, nonce, cipher);
    assert nonce[..BOOT_NONCE_SIZE] == boot;
    assert nonce[BOOT_NONCE_SIZE..] == WriteU64Le(counter);
  }

  /** Sender and type of an opened frame are the ones that were sealed with its payload. */
  lemma OpenedWasSealed(st: CodecState, ledger: Ledger, key: Bytes, packet: Bytes)
    requires TryOpen(st, ledger, key, packet).1.Some?
    ensures var o := TryOpen(st, ledger, key, packet).1.value;
            && |packet| >= FIXED_HEADER
            && packet[..AAD_HEADER] == Header(o.senderId, o.frameType)
            && var s := Sealing(key, packet[AAD_HEADER..FIXED_HEADER], Header(o.senderId, o.frameType),
                             packet[FIXED_HEADER..]);
            s in ledger && ledger[s] == o.plain
  {
    var head := packet[2..10];
    assert packet[2..][..8] == head;
    ToLeFromLe(head);
    assert WriteU64Le(ReadU64Le(packet[2..])) == head;
    assert packet[..AAD_HEADER] == [packet[0], packet[1]] + head + [packet[10]];
  }

  /** Two frames of one codec never share a nonce. */
  lemma CountersGiveDistinctNonces(boot: Bytes, c: u64, d: u64)
    ensures boot + WriteU64Le(c) == boot + WriteU64Le(d) ==> c == d
  {
    assert (boot + WriteU64Le(c))[|boot|..] == WriteU64Le(c);
    assert (boot + WriteU64Le(d))[|boot|..] == WriteU64Le(d);
  }

  // ---------- runs of packets ----------

  /** A packet offered to the codec, with all that had been encrypted by then. */
  datatype Try = Try(ledger: Ledger, packet: Bytes)

  function Authenticated(key: Bytes, t: Try): Option<CodecLaws.Arrival> {
    match TryParse(t.packet)
    case None => None
    case Some(f) =>
      if Decrypt(t.ledger, key, f.nonce, t.packet[..AAD_HEADER], f.ciphertext).None? then None
      else Some(CodecLaws.Arrival(f.nonce[..BOOT_NONCE_SIZE], ReadU64Le(f.nonce[BOOT_NONCE_SIZE..])))
  }

  function Arrivals(key: Bytes, tries: seq<Try>): seq<CodecLaws.Arrival> {
    if tries == [] then []
    else
      var n := |tries| - 1;
      var a := Authenticated(key, tries[n]);
      Arrivals(key, tries[..n]) + (if a.Some? then [a.value] else [])
  }

  function AfterTries(key: Bytes, tries: seq<Try>): CodecState {
    if tries == [] then FRESH_STATE
    else
      var n := |tries| - 1;
      TryOpen(AfterTries(key, tries[..n]), tries[n].ledger, key, tries[n].packet).0
  }

  predicate Opens(key: Bytes, tries: seq<Try>, i: nat)
    requires i < |tries|
  {
    TryOpen(AfterTries(key, tries[..i]), tries[i].ledger, key, tries[i].packet).1.Some?
  }

  lemma TryIsAdmission(st: CodecState, key: Bytes, t: Try)
    ensures var (st', r) := TryOpen(st, t.ledger, key, t.packet);
            match Authenticated(key, t)
            case None => st' == st && r.None?
            case Some(a) => st' == Admit(st, a.nonce, a.counter).0 && r.Some? == Admit(st, a.nonce, a.counter).1
  {
  }

  /** Packets that do not authenticate do not matter: the codec is where the authenticated ones take it. */
  lemma {:induction false} TriesAreArrivals(key: Bytes, tries: seq<Try>)
    ensures AfterTries(key, tries) == CodecLaws.After(Arrivals(key, tries))
  {
    if tries != [] {
      var n := |tries| - 1;
      TriesAreArrivals(key, tries[..n]);
      TryIsAdmission(AfterTries(key, tries[..n]), key, tries[n]);
      var earlier, a := Arrivals(key, tries[..n]), Authenticated(key, tries[n]);
      if a.Some? {
        assert (earlier + [a.value])[..|earlier|] == earlier;
      } else {
        assert earlier + [] == earlier;
      }
    }
  }

  lemma {:induction false} ArrivalsGrow(key: Bytes, tries: seq<Try>, i: nat)
    requires i <= |tries|
    ensures Arrivals(key, tries[..i]) <= Arrivals(key, tries)
    decreases |tries|
  {
    if i < |tries| {
      var n := |tries| - 1;
      ArrivalsGrow(key, tries[..n], i);
      assert tries[..n][..i] == tries[..i];
    } else {
      assert tries[..i] == tries;
    }
  }

  /** An opened packet is an accepted arrival at its place in the run. */
  lemma OpenedIsAccepted(key: Bytes, tries: seq<Try>, i: nat) returns (p: nat)
    requires i < |tries| && Opens(key, tries, i)
    ensures p == |Arrivals(key, tries[..i])| && p < |Arrivals(key, tries)|
    ensures CodecLaws.Accepted(Arrivals(key, tries), p)
    ensures Authenticated(key, tries[i]) == Some(Arrivals(key, tries)[p])
  {
    var before, all := Arrivals(key, tries[..i]), Arrivals(key, tries);
    p := |before|;
    var a := OpenedArrives(key, tries, i);
    ArrivalsGrow(key, tries, i + 1);
    PlaceOf(before, a, all);
  }

  lemma OpenedArrives(key: Bytes, tries: seq<Try>, i: nat) returns (a: CodecLaws.Arrival)
    requires i < |tries| && Opens(key, tries, i)
    ensures Authenticated(key, tries[i]) == Some(a)
    ensures Arrivals(key, tries[..i + 1]) == Arrivals(key, tries[..i]) + [a]
    ensures Admit(CodecLaws.After(Arrivals(key, tries[..i])), a.nonce, a.counter).1
  {
    TriesAreArrivals(key, tries[..i]);
    TryIsAdmission(AfterTries(key, tries[..i]), key, tries[i]);
    a := Authenticated(key, tries[i]).value;
    assert tries[..i + 1][..i] == tries[..i];
  }

  lemma PlaceOf<T>(before: seq<T>, x: T, all: seq<T>)
    requires before + [x] <= all
    ensures |before| < |all| && all[|before|] == x && all[..|before|] == before
  {
    var k := |before|;
    assert (before + [x])[k] == x;
  }

  lemma OpenedComesEarlier(key: Bytes, tries: seq<Try>, i: nat, j: nat)
    requires i < j <= |tries| && Opens(key, tries, i)
    ensures |Arrivals(key, tries[..i])| < |Arrivals(key, tries[..j])|
  {
    var prefix := tries[..j];
    assert prefix[..i] == tries[..i];
    var p := OpenedIsAccepted(key, prefix, i);
  }

  /** With at most 32 boot nonces around, no packet ever opens twice. */
  lemma PacketOpensOnce(key: Bytes, tries: seq<Try>, i: nat, j: nat)
    requires i < j < |tries| && tries[i].packet == tries[j].packet
    requires |CodecLaws.Nonces(Arrivals(key, tries))| <= 32 && Opens(key, tries, i)
    ensures !Opens(key, tries, j)
  {
    if Opens(key, tries, j) {
      var p := OpenedIsAccepted(key, tries, i);
      var q := OpenedIsAccepted(key, tries, j);
      OpenedComesEarlier(key, tries, i, j);
      CodecLaws.FewRestartsNoReplay(Arrivals(key, tries), p, q);
    }
  }

  // ---------- one codec per network ----------

  type NetId = nat

  datatype Session = Session(recvKey: Bytes, st: CodecState)

  ghost predicate DistinctKeys(sessions: map<NetId, Session>) {
    forall a, b :: a in sessions && b in sessions && sessions[a].recvKey == sessions[b].recvKey ==> a == b
  }

  /** Try the candidate networks one after the other until a codec accepts. */
  function HandleFrame(sessions: map<NetId, Session>, order: seq<NetId>, ledger: Ledger, packet: Bytes)
    : (map<NetId, Session>, Option<(NetId, Opened)>)
    requires forall id :: id in order ==> id in sessions
  {
    if order == [] then (sessions, None)
    else
      var id := order[0];
      var (st', r) := TryOpen(sessions[id].st, ledger, sessions[id].recvKey, packet);
      var sessions' := sessions[id := sessions[id].(st := st')];
      if r.Some? then (sessions', Some((id, r.value)))
      else HandleFrame(sessions', order[1..], ledger, packet)
  }

  predicate Accepts(s: Session, ledger: Ledger, packet: Bytes) {
    TryOpen(s.st, ledger, s.recvKey, packet).1.Some?
  }

  lemma OneNetworkAccepts(sessions: map<NetId, Session>, ledger: Ledger, packet: Bytes, a: NetId, b: NetId)
    requires Committing(ledger) && DistinctKeys(sessions) && a in sessions && b in sessions
    requires Accepts(sessions[a], ledger, packet) && Accepts(sessions[b], ledger, packet)
    ensures a == b
  {
    var f := TryParse(packet).value;
    var s := Sealing(sessions[a].recvKey, f.nonce, packet[..AAD_HEADER], f.ciphertext);
    var t := Sealing(sessions[b].recvKey, f.nonce, packet[..AAD_HEADER], f.ciphertext);
    assert s in ledger && t in ledger;
  }

  /** The outcome, without reference to any order: the accepting network, if there is one. */
  lemma {:induction false} HandleFrameFinds(sessions: map<NetId, Session>, order: seq<NetId>,
                                          ledger: Ledger, packet: Bytes)
    requires Committing(ledger) && DistinctKeys(sessions)
    requires forall id :: id in order ==> id in sessions
    ensures (forall id :: id in order ==> !Accepts(sessions[id], ledger, packet))
            ==> HandleFrame(sessions, order, ledger, packet) == (sessions, None)
    ensures forall id :: id in order && Accepts(sessions[id], ledger, packet) ==>
              var (st', r) := TryOpen(sessions[id].st, ledger, sessions[id].recvKey, packet);
              HandleFrame(sessions, order, ledger, packet)
              == (sessions[id := sessions[id].(st := st')], Some((id, r.value)))
    decreases |order|
  {
    if order != [] {
      var id := order[0];
      if Accepts(sessions[id], ledger, packet) {
        forall other | other in order && Accepts(sessions[other], ledger, packet) ensures other == id {
          OneNetworkAccepts(sessions, ledger, packet, id, other);
        }
      } else {
        CodecLaws.FailedOpenLeavesNoTrace(sessions[id].st, ledger, sessions[id].recvKey, packet);
        assert sessions[id := sessions[id].(st := sessions[id].st)] == sessions;
        HandleFrameFinds(sessions, order[1..], ledger, packet);
      }
    }
  }

  /** A frame reaches the same network, with the same effect, whatever the order of the attempts. */
  lemma OrderOfCodecsIsIrrelevant(sessions: map<NetId, Session>, a: seq<NetId>, b: seq<NetId>,
                                ledger: Ledger, packet: Bytes)
    requires Committing(ledger) && DistinctKeys(sessions)
    requires forall id :: id in a ==> id in sessions
    requires forall id :: id in a <==> id in b
    ensures HandleFrame(sessions, a, ledger, packet) == HandleFrame(sessions, b, ledger, packet)
  {
    HandleFrameFinds(sessions, a, ledger, packet);
    HandleFrameFinds(sessions, b, ledger, packet);
    if id :| id in a && Accepts(sessions[id], ledger, packet) {
      assert id in b;
    }
  }
}
