/**
  Encrypted wire frames and the per-peer codec: parsing, boot-nonce
  generations, the replay windows behind them and the receive statistics.
 */
module Wire {
  import opened Wrappers
  import opened Endec
  import opened RW = ReplayWindow

  const WIRE_MAGIC: u8 := 0x0A
  const WIRE_VERSION: u8 := 2
  const BOOT_NONCE_SIZE: nat := 16
  const NONCE_SIZE: nat := 24
  const TAG_SIZE: nat := 16
  const FIXED_HEADER: nat := 35
  const AAD_HEADER: nat := 11
  const BOOT_NONCE_GENERATIONS: nat := 32

  predicate FrameTypeIsValid(t: u8) { 1 <= t <= 4 }

  datatype RawFrame = RawFrame(senderId: u64, frameType: u8, nonce: Bytes, ciphertext: Bytes)

  function TryParse(packet: Bytes): (r: Option<RawFrame>)
    ensures r.Some? ==> |r.value.nonce| == NONCE_SIZE
  {
    if |packet| < FIXED_HEADER + TAG_SIZE then None
    else if packet[0] != WIRE_MAGIC || packet[1] != WIRE_VERSION then None
    else if !FrameTypeIsValid(packet[10]) then None
    else Some(RawFrame(ReadU64Le(packet[2..]), packet[10], packet[11..FIXED_HEADER], packet[FIXED_HEADER..]))
  }

  // ---------- ideal authenticated encryption ----------

  /** One encryption: decryption succeeds exactly on these. */
  datatype Sealing = Sealing(key: Bytes, nonce: Bytes, aad: Bytes, cipher: Bytes)

  /** Everything ever encrypted, with its plaintext. */
  type Ledger = map<Sealing, Bytes>

  /** No ciphertext authenticates under two keys. */
  ghost predicate Committing(ledger: Ledger) {
    forall s, t ::
      (s in ledger && t in ledger && s.nonce == t.nonce && s.aad == t.aad && s.cipher == t.cipher) ==> s.key == t.key
  }

  function Decrypt(ledger: Ledger, key: Bytes, nonce: Bytes, aad: Bytes, cipher: Bytes): Option<Bytes> {
    var s := Sealing(key, nonce, aad, cipher);
    if s in ledger then Some(ledger[s]) else None
  }

  // ---------- the receiving side, on histories ----------

  datatype Generation = Generation(nonce: Bytes, history: History)

  datatype CodecState = CodecState(generations: seq<Generation>, retiredSeen: nat, retiredLost: nat)

  const FRESH_STATE: CodecState := CodecState([], 0, 0)

  datatype Opened = Opened(senderId: u64, frameType: u8, plain: Bytes)

  /** Index of the generation of `nonce`, or the number of generations. */
  function Position(gens: seq<Generation>, nonce: Bytes): (i: nat)
    ensures i <= |gens|
    ensures i < |gens| ==> gens[i].nonce == nonce
    ensures forall j :: 0 <= j < i ==> gens[j].nonce != nonce
  {
    if gens == [] || gens[0].nonce == nonce then 0 else 1 + Position(gens[1..], nonce)
  }

  predicate Knows(st: CodecState, nonce: Bytes) {
    Position(st.generations, nonce) < |st.generations|
  }

  /** An unknown boot nonce opens a generation; the oldest beyond 32 retires into the totals. */
  function OpenGeneration(st: CodecState, nonce: Bytes): (r: CodecState)
    ensures r.generations != [] && r.generations[|r.generations| - 1] == Generation(nonce, [])
  {
    var gens := st.generations + [Generation(nonce, [])];
    if |gens| > BOOT_NONCE_GENERATIONS then
      var retired := gens[0].history;
      CodecState(gens[1..], st.retiredSeen + |retired|, st.retiredLost + LostOf(retired))
    else st.(generations := gens)
  }

  /** Feed an authenticated counter to the newest generation. */
  function CheckNewest(st: CodecState, counter: u64): (CodecState, bool)
    requires st.generations != []
  {
    var n := |st.generations| - 1;
    var newest := st.generations[n];
    (st.(generations := st.generations[n := newest.(history := Extend(newest.history, counter))]),
     Accepts(newest.history, counter))
  }

  function Admit(st: CodecState, nonce: Bytes, counter: u64): (CodecState, bool) {
    var i := Position(st.generations, nonce);
    if i == |st.generations| then CheckNewest(OpenGeneration(st, nonce), counter)
    else if i + 1 == |st.generations| then CheckNewest(st, counter)
    else (st, false)
  }

  function TryOpen(st: CodecState, ledger: Ledger, key: Bytes, packet: Bytes): (CodecState, Option<Opened>) {
    match TryParse(packet)
    case None => (st, None)
    case Some(f) =>
      match Decrypt(ledger, key, f.nonce, packet[..AAD_HEADER], f.ciphertext)
      case None => (st, None)
      case Some(plain) =>
        var (st', ok) := Admit(st, f.nonce[..BOOT_NONCE_SIZE], ReadU64Le(f.nonce[BOOT_NONCE_SIZE..]));
        (st', if ok then Some(Opened(f.senderId, f.frameType, plain)) else None)
  }

  function SeenIn(gens: seq<Generation>): nat {
    if gens == [] then 0 else SeenIn(gens[..|gens| - 1]) + |gens[|gens| - 1].history|
  }

  function LostIn(gens: seq<Generation>): nat {
    if gens == [] then 0 else LostIn(gens[..|gens| - 1]) + LostOf(gens[|gens| - 1].history)
  }

  function Seen(st: CodecState): nat { st.retiredSeen + SeenIn(st.generations) }

  function Lost(st: CodecState): nat { st.retiredLost + LostIn(st.generations) }

  // ---------- the lost totals in 64 bits ----------

  /**
    The lost totals are added up in 64 bits. A build that checks arithmetic for
    overflow (`checked`) panics when a sum does not fit, and leaves the lock of
    the state unusable if that was on retirement; any other build wraps around.
   */
  const U64_SIZE: nat := U64_MAX + 1

  predicate Poisoned(checked: bool, st: CodecState) { checked && st.retiredLost > U64_MAX }

  /** What adding up to `sum` gives; `None` is a panic. */
  function Reading(checked: bool, sum: nat): Option<u64> {
    if checked && sum > U64_MAX then None else Some(sum % U64_SIZE)
  }

  /** What the lost statistic reads. */
  function LostReading(checked: bool, st: CodecState): Option<u64> { Reading(checked, Lost(st)) }

  datatype Verdict = Accept | Reject | Panic

  /** `Admit` in either build. */
  function AdmitIn(checked: bool, st: CodecState, nonce: Bytes, counter: u64): (CodecState, Verdict) {
    if Poisoned(checked, st) then (st, Panic)
    else if !Knows(st, nonce) && Poisoned(checked, OpenGeneration(st, nonce)) then (OpenGeneration(st, nonce), Panic)
    else
      var (st', ok) := Admit(st, nonce, counter);
      (st', if ok then Accept else Reject)
  }

  lemma AdmitCases(checked: bool, st: CodecState, nonce: Bytes, counter: u64)
    requires !Poisoned(checked, st)
    ensures var i, n, grown := Position(st.generations, nonce), |st.generations|, OpenGeneration(st, nonce);
            AdmitIn(checked, st, nonce, counter) ==
            if i == n && Poisoned(checked, grown) then (grown, Panic)
            else if i < n && i + 1 != n then (st, Reject)
            else
              var (st', ok) := CheckNewest(if i == n then grown else st, counter);
              (st', if ok then Accept else Reject)
  {
  }

  datatype Opening = Delivered(frame: Opened) | Refused | Panicked

  /** `TryOpen` in either build. */
  function TryOpenIn(checked: bool, st: CodecState, ledger: Ledger, key: Bytes, packet: Bytes): (CodecState, Opening) {
    match TryParse(packet)
    case None => (st, Refused)
    case Some(f) =>
      match Decrypt(ledger, key, f.nonce, packet[..AAD_HEADER], f.ciphertext)
      case None => (st, Refused)
      case Some(plain) =>
        var (st', verdict) := AdmitIn(checked, st, f.nonce[..BOOT_NONCE_SIZE], ReadU64Le(f.nonce[BOOT_NONCE_SIZE..]));
        var opening :=
          match verdict
          case Accept => Delivered(Opened(f.senderId, f.frameType, plain))
          case Reject => Refused
          case Panic => Panicked;
        (st', opening)
  }

  /** The sum of two 64-bit totals. */
  function AddLost(checked: bool, total: u64, lost: u64): Option<u64> {
    if checked && total + lost > U64_MAX then None else Some((total + lost) % U64_SIZE)
  }

  /** What a total of 64 bits holds of the true one. */
  predicate Holds(checked: bool, total: u64, sum: nat) {
    total == sum % U64_SIZE && (checked ==> sum <= U64_MAX)
  }

  lemma AddLostIs(checked: bool, total: u64, sum: nat, lost: u64)
    requires Holds(checked, total, sum)
    ensures AddLost(checked, total, lost).None? <==> checked && sum + lost > U64_MAX
    ensures AddLost(checked, total, lost).Some? ==> Holds(checked, AddLost(checked, total, lost).value, sum + lost)
  {
    assert (sum % U64_SIZE + lost) % U64_SIZE == (sum + lost) % U64_SIZE;
  }

  /** What the first `i` generations add to the totals. */
  function SeenUpTo(gens: seq<Generation>, i: nat): nat
    requires i <= |gens|
  {
    if i == 0 then 0 else SeenUpTo(gens, i - 1) + |gens[i - 1].history|
  }

  function LostUpTo(gens: seq<Generation>, i: nat): nat
    requires i <= |gens|
  {
    if i == 0 then 0 else LostUpTo(gens, i - 1) + LostOf(gens[i - 1].history)
  }

  lemma {:induction false} TotalsUpTo(gens: seq<Generation>, i: nat)
    requires i <= |gens|
    ensures SeenUpTo(gens, i) == SeenIn(gens[..i]) && LostUpTo(gens, i) == LostIn(gens[..i])
  {
    if i > 0 {
      TotalsUpTo(gens, i - 1);
      assert gens[..i][..i - 1] == gens[..i - 1];
    }
  }

  lemma TotalsUpToAll(gens: seq<Generation>)
    ensures SeenUpTo(gens, |gens|) == SeenIn(gens) && LostUpTo(gens, |gens|) == LostIn(gens)
  {
    TotalsUpTo(gens, |gens|);
    assert gens[..|gens|] == gens;
  }

  lemma {:induction false} LostUpToGrows(gens: seq<Generation>, i: nat, j: nat)
    requires i <= j <= |gens|
    ensures LostUpTo(gens, i) <= LostUpTo(gens, j)
    decreases j
  {
    if i < j { LostUpToGrows(gens, i, j - 1); }
  }

  /** The totals after the first `i` live generations. */
  predicate SumUpTo(checked: bool, st: CodecState, i: nat, seen: nat, total: u64) {
    && i <= |st.generations| && seen == st.retiredSeen + SeenUpTo(st.generations, i)
    && Holds(checked, total, st.retiredLost + LostUpTo(st.generations, i))
  }

  lemma SumStart(checked: bool, st: CodecState, total: u64)
    requires Holds(checked, total, st.retiredLost)
    ensures SumUpTo(checked, st, 0, st.retiredSeen, total)
  {
  }

  lemma SumStep(checked: bool, st: CodecState, i: nat, seen: nat, total: u64, s: nat, l: u64)
    requires i < |st.generations| && SumUpTo(checked, st, i, seen, total)
    requires s == |st.generations[i].history| && l == LostOf(st.generations[i].history)
    ensures var sum := AddLost(checked, total, l);
            if sum.None? then checked && Lost(st) > U64_MAX else SumUpTo(checked, st, i + 1, seen + s, sum.value)
  {
    AddLostIs(checked, total, st.retiredLost + LostUpTo(st.generations, i), l);
    LostUpToGrows(st.generations, i + 1, |st.generations|);
    TotalsUpToAll(st.generations);
  }

  lemma SumEnd(checked: bool, st: CodecState, seen: nat, total: u64)
    requires SumUpTo(checked, st, |st.generations|, seen, total)
    ensures seen == Seen(st) && Holds(checked, total, Lost(st)) && !(checked && Lost(st) > U64_MAX)
  {
    TotalsUpToAll(st.generations);
  }

  // ---------- the codec object ----------

  function Header(senderId: u64, frameType: u8): (h: Bytes)
    ensures |h| == AAD_HEADER
  {
    [WIRE_MAGIC, WIRE_VERSION] + WriteU64Le(senderId) + [frameType]
  }

  lemma Slices(a: Bytes, b: Bytes, n: nat)
    requires |a| == n
    ensures (a + b)[..n] == a && (a + b)[n..] == b
  {
  }

  /** The newest generation has this history. */
  function WithNewest(st: CodecState, history: History): CodecState
    requires st.generations != []
  {
    var n := |st.generations| - 1;
    st.(generations := st.generations[n := Generation(st.generations[n].nonce, history)])
  }

  /** Checking a counter touches the history of the newest generation only. */
  lemma NewestIs(st: CodecState, counter: u64, history: History)
    requires st.generations != [] && st.generations[|st.generations| - 1].history == history
    ensures CheckNewest(st, counter) == (WithNewest(st, Extend(history, counter)), Accepts(history, counter))
  {
  }

  class PacketCodec {
    const sendKey: Bytes
    const recvKey: Bytes
    const bootNonce: Bytes
    const checked: bool
    var sendCounter: u64
    var generations: seq<(Bytes, ReplayWindow)>
    var retiredSeen: nat
    var retiredLost: u64
    var poisoned: bool   // a panic under the lock of the state
    ghost var State: CodecState

    ghost function Windows(): set<ReplayWindow>
      reads this
    {
      set i | 0 <= i < |generations| :: generations[i].1
    }

    function Newest(): ReplayWindow
      requires generations != []
      reads this
    {
      generations[|generations| - 1].1
    }

    /** The fields that are no windows hold what `State` says. */
    ghost predicate TotalsOk()
      reads this
    {
      && |bootNonce| == BOOT_NONCE_SIZE && |State.generations| == |generations|
      && State.retiredSeen == retiredSeen && (poisoned <==> Poisoned(checked, State))
      && (!poisoned ==> Holds(checked, retiredLost, State.retiredLost))
    }

    ghost predicate Valid()
      reads this, Windows()
    {
      && TotalsOk()
      && (forall i, j :: 0 <= i < j < |generations| ==> generations[i].1 != generations[j].1)
      && (forall i :: 0 <= i < |generations| ==>
            && generations[i].1.Valid()
            && State.generations[i] == Generation(generations[i].0, generations[i].1.History))
    }

    constructor (sendKey: Bytes, recvKey: Bytes, bootNonce: Bytes, checked: bool)
      requires |bootNonce| == BOOT_NONCE_SIZE
      ensures Valid() && State == FRESH_STATE && sendCounter == 0 && Windows() == {}
      ensures this.sendKey == sendKey && this.recvKey == recvKey
      ensures this.bootNonce == bootNonce && this.checked == checked
    {
      this.sendKey, this.recvKey, this.bootNonce, this.checked := sendKey, recvKey, bootNonce, checked;
      sendCounter, generations, retiredSeen, retiredLost, poisoned := 0, [], 0, 0, false;
      State := FRESH_STATE;
    }

    /** `cipher` is what the cipher makes of the payload: a new ciphertext of its own key. */
    method Seal(senderId: u64, frameType: u8, payload: Bytes, cipher: Bytes, ledger: Ledger)
      returns (packet: Bytes, ledger': Ledger)
      requires Valid() && sendCounter < U64_MAX && |cipher| == |payload| + TAG_SIZE
      modifies this`sendCounter
      ensures Valid() && sendCounter == old(sendCounter) + 1
      ensures packet == Header(senderId, frameType) + (bootNonce + WriteU64Le(sendCounter)) + cipher
      ensures var nonce, aad := bootNonce + WriteU64Le(sendCounter), Header(senderId, frameType);
              ledger' == ledger[Sealing(sendKey, nonce, aad, cipher) := payload]
    {
      sendCounter := sendCounter + 1;
      packet := Header(senderId, frameType);
      packet := packet + (bootNonce + WriteU64Le(sendCounter));
      Slices(Header(senderId, frameType), bootNonce + WriteU64Le(sendCounter), AAD_HEADER);
      var nonce, aad := packet[AAD_HEADER..FIXED_HEADER], packet[..AAD_HEADER];
      assert nonce == packet[AAD_HEADER..];
      ledger' := ledger[Sealing(sendKey, nonce, aad, cipher) := payload];
      packet := packet + cipher;
    }

    method FindGeneration(nonce: Bytes) returns (i: nat)
      requires Valid()
      ensures i == Position(State.generations, nonce)
    {
      i := 0;
      while i < |generations| && generations[i].0 != nonce
        invariant i <= |generations|
        invariant forall j :: 0 <= j < i ==> State.generations[j].nonce != nonce
      {
        i := i + 1;
      }
    }

    method PushBack(nonce: Bytes)
      requires Valid()
      modifies this`generations, this`State
      ensures Valid() && generations != []
      ensures State == old(State).(generations := old(State).generations + [Generation(nonce, [])])
      ensures fresh(Windows() - old(Windows()))
    {
      var window := new ReplayWindow();
      generations := generations + [(nonce, window)];
      State := State.(generations := State.generations + [Generation(nonce, [])]);
    }

    method RetireOldest() returns (panicked: bool)
      requires Valid() && !poisoned && |generations| > 1
      modifies this`generations, this`retiredSeen, this`retiredLost, this`poisoned, this`State
      ensures Valid() && generations == old(generations)[1..] && Windows() <= old(Windows())
      ensures var gens := old(State).generations;
              State == CodecState(gens[1..], old(State).retiredSeen + |gens[0].history|,
                                  old(State).retiredLost + LostOf(gens[0].history))
      ensures panicked <==> Poisoned(checked, State)
    {
      var seen, lost := WindowStats(0);
      AddLostIs(checked, retiredLost, State.retiredLost, lost);
      var total := AddLost(checked, retiredLost, lost);
      State := CodecState(State.generations[1..], State.retiredSeen + seen, State.retiredLost + lost);
      generations := generations[1..];
      retiredSeen := retiredSeen + seen;
      panicked := total.None?;
      if panicked { poisoned := true; } else { retiredLost := total.value; }
    }

    method PushGeneration(nonce: Bytes) returns (panicked: bool)
      requires Valid() && !poisoned
      modifies this`generations, this`retiredSeen, this`retiredLost, this`poisoned, this`State
      ensures Valid() && State == OpenGeneration(old(State), nonce) && generations != []
      ensures fresh(Windows() - old(Windows())) && (panicked <==> Poisoned(checked, State))
    {
      PushBack(nonce);
      panicked := false;
      if |generations| > BOOT_NONCE_GENERATIONS { panicked := RetireOldest(); }
    }

    method CheckCurrent(counter: u64) returns (accepted: bool)
      requires Valid() && generations != []
      modifies this`State, Newest()
      ensures Valid() && generations == old(generations)
      ensures State == CheckNewest(old(State), counter).0 && accepted == CheckNewest(old(State), counter).1
    {
      ghost var n := |generations| - 1;
      ghost var before := Newest().History;
      assert State.generations[n] == Generation(generations[n].0, before);
      accepted := Newest().CheckAndSet(counter);
      NewestIs(State, counter, before);
      State := WithNewest(State, Newest().History);
    }

    /** The part of `Open` that runs under the state lock, after the frame has authenticated. */
    method AdmitFrame(nonce: Bytes, counter: u64) returns (verdict: Verdict)
      requires Valid()
      modifies this`generations, this`retiredSeen, this`retiredLost, this`poisoned, this`State, Windows()
      ensures Valid() && fresh(Windows() - old(Windows()))
      ensures (State, verdict) == AdmitIn(checked, old(State), nonce, counter)
    {
      if poisoned { return Panic; }
      AdmitCases(checked, State, nonce, counter);
      var i := FindGeneration(nonce);
      if i == |generations| {
        var panicked := PushGeneration(nonce);
        if panicked { return Panic; }
        verdict := CheckNewestOf(counter);
      } else if i + 1 == |generations| {
        verdict := CheckNewestOf(counter);
      } else {
        verdict := Reject;
      }
    }

    method CheckNewestOf(counter: u64) returns (verdict: Verdict)
      requires Valid() && generations != []
      modifies this`State, Newest()
      ensures Valid() && generations == old(generations)
      ensures State == CheckNewest(old(State), counter).0
      ensures verdict == if CheckNewest(old(State), counter).1 then Accept else Reject
    {
      var accepted := CheckCurrent(counter);
      verdict := if accepted then Accept else Reject;
    }

    method Open(packet: Bytes, ledger: Ledger) returns (r: Opening)
      requires Valid()
      modifies this`generations, this`retiredSeen, this`retiredLost, this`poisoned, this`State, Windows()
      ensures Valid() && fresh(Windows() - old(Windows()))
      ensures (State, r) == TryOpenIn(checked, old(State), ledger, recvKey, packet)
    {
      var parsed := TryParse(packet);
      if parsed.None? { return Refused; }
      var frame := parsed.value;
      var peerBoot := frame.nonce[..BOOT_NONCE_SIZE];
      var counter := ReadU64Le(frame.nonce[BOOT_NONCE_SIZE..]);
      var plain := Decrypt(ledger, recvKey, frame.nonce, packet[..AAD_HEADER], frame.ciphertext);
      if plain.None? { return Refused; }
      var verdict := AdmitFrame(peerBoot, counter);
      match verdict
      case Accept => return Delivered(Opened(frame.senderId, frame.frameType, plain.value));
      case Reject => return Refused;
      case Panic => return Panicked;
    }

    method Stats() returns (panicked: bool, seen: nat, lost: u64)
      requires Valid()
      ensures panicked <==> LostReading(checked, State).None?
      ensures !panicked ==> seen == Seen(State) && lost == LostReading(checked, State).value
    {
      if poisoned { return true, 0, 0; }
      panicked, seen, lost := SumStats();
    }

    method WindowStats(i: nat) returns (seen: nat, lost: u64)
      requires Valid() && i < |generations|
      ensures seen == |State.generations[i].history| && lost == LostOf(State.generations[i].history)
    {
      seen, lost := generations[i].1.Stats();
    }

    /** The loop over the live generations. */
    method SumStats() returns (panicked: bool, seen: nat, lost: u64)
      requires Valid() && !poisoned
      ensures panicked <==> checked && Lost(State) > U64_MAX
      ensures !panicked ==> seen == Seen(State) && Holds(checked, lost, Lost(State))
    {
      seen, lost := retiredSeen, retiredLost;
      SumStart(checked, State, lost);
      for i := 0 to |generations|
        invariant SumUpTo(checked, State, i, seen, lost)
      {
        var s, l := WindowStats(i);
        SumStep(checked, State, i, seen, lost, s, l);
        var total := AddLost(checked, lost, l);
        if total.None? { return true, 0, 0; }
        seen, lost := seen + s, total.value;
      }
      SumEnd(checked, State, seen, lost);
      panicked := false;
    }
  }
}
