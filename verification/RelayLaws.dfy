/** Laws of the UDP relay over whole runs. */
module RelayLaws {
  import opened Wrappers
  import opened Sets
  import opened UdpRelay
  import RG = RegisterGuard

  datatype Op =
    | Arrive(p: Packet, from: Address, now: int, later: Later, directory: Directory, sendOk: bool)
    | SweepTick(now: int)
    | ForgetDevice(device: Device)
    | TcpRegister(device: Device, nonce: seq<char>, now: int)   // the TCP relay shares the nonce memory

  datatype Admission = Admission(device: Device, from: Address)

  /** At `time` the devices table had this key for the device, or none. */
  datatype Lookup = Lookup(device: Device, key: Option<RelayKey>, time: int)

  /** The relay, its admitted registrations, what happened to the nonce memory, and what the devices table said. */
  datatype World = World(st: State, admitted: seq<Admission>, guardLog: seq<RG.Event>, lookups: set<Lookup>)

  const START: World := World(EMPTY, [], [], {})

  function Entry(directory: Directory, device: Device): Option<RelayKey> {
    if device in directory then Some(directory[device]) else None
  }

  /** The packet is a REGISTER whose MAC verifies under the key the relay has for its device. */
  predicate Authentic(st: State, op: Op) {
    op.Arrive? && op.p.Register? && RelayKeyOf(st, op.p.device, op.now, op.directory).1 == Some(op.p.macKey)
  }

  predicate Admits(st: State, op: Op) {
    Authentic(st, op) && RG.Fresh(st.seen, (op.p.device, op.p.nonce), op.later.admit)
  }

  function Step(st: State, op: Op): (State, Output) {
    match op
    case Arrive(p, from, now, later, directory, sendOk) => Handle(st, p, from, now, later, directory, sendOk)
    case SweepTick(now) => (SweepAll(st, now), Nothing)
    case ForgetDevice(device) => (Unregister(st, device), Nothing)
    case TcpRegister(device, nonce, now) => (st.(seen := RG.Admit(st.seen, (device, nonce), now)), Nothing)
  }

  function GuardEvents(st: State, op: Op): seq<RG.Event> {
    match op
    case Arrive(p, _, _, later, _, _) => if Authentic(st, op) then [RG.Use((p.device, p.nonce), later.admit)] else []
    case SweepTick(now) => [RG.Clean(now)]
    case ForgetDevice(_) => []
    case TcpRegister(device, nonce, now) => [RG.Use((device, nonce), now)]
  }

  function Next(w: World, op: Op): World {
    World(Step(w.st, op).0,
          if Admits(w.st, op) then w.admitted + [Admission(op.p.device, op.from)] else w.admitted,
          w.guardLog + GuardEvents(w.st, op),
          if op.Arrive? && op.p.Register?
          then w.lookups + {Lookup(op.p.device, Entry(op.directory, op.p.device), op.now)} else w.lookups)
  }

  function Run(ops: seq<Op>): World {
    if ops == [] then START else Next(Run(ops[..|ops| - 1]), ops[|ops| - 1])
  }

  /** The address of the latest admitted registration of `device`. */
  function LatestAddress(admitted: seq<Admission>, device: Device): Option<Address> {
    if admitted == [] then None
    else
      var a := admitted[|admitted| - 1];
      if a.device == device then Some(a.from) else LatestAddress(admitted[..|admitted| - 1], device)
  }

  // ---------- the invariant ----------

  ghost predicate EndpointsOk(w: World) {
    forall d :: d in w.st.registrations ==> LatestAddress(w.admitted, d) == Some(w.st.registrations[d].endpoint)
  }

  /** Cached keys and cached misses are what the devices table said when they were cached. */
  ghost predicate CachesOk(w: World) {
    && (forall d :: d in w.st.keyCache ==>
          Lookup(d, Some(w.st.keyCache[d].key), w.st.keyCache[d].expires - KEY_CACHE_TTL_MS) in w.lookups)
    && (forall d :: d in w.st.missCache ==> Lookup(d, None, w.st.missCache[d]) in w.lookups)
  }

  /** Since `limit` the devices table has had `key` for `device`. */
  ghost predicate SaidSince(lookups: set<Lookup>, device: Device, key: Option<RelayKey>, limit: int) {
    exists t :: t > limit && Lookup(device, key, t) in lookups
  }

  lemma KeyLookup(st: State, device: Device, now: int, directory: Directory)
    ensures var (st', key) := RelayKeyOf(st, device, now, directory);
            && st'.registrations == st.registrations && st'.seen == st.seen && st'.counters == st.counters
            && (key.Some? ==> (device in st.keyCache && st.keyCache[device].key == key.value)
                              || (device in directory && directory[device] == key.value))
  {
  }

  /** A lookup field by field: a cached key, else a recent miss, else the devices table, which is remembered. */
  lemma KeyLookupIs(st: State, device: Device, now: int, directory: Directory)
    ensures var (st', key) := RelayKeyOf(st, device, now, directory);
            var cached := device in st.keyCache && st.keyCache[device].expires > now;
            var missed := !cached && device in st.missCache && now - st.missCache[device] < 10_000;
            && (cached ==> key == Some(st.keyCache[device].key) && st' == st)
            && (missed ==> key == None && st' == st)
            && (!cached && !missed ==> key == Entry(directory, device))
            && (!cached && !missed && device in directory ==>
                  st' == st.(keyCache := st.keyCache[device := CachedKey(directory[device], now + 300_000)],
                             missCache := st.missCache - {device}))
            && (!cached && !missed && device !in directory ==>
                  st' == if |st.missCache| < 100_000 then st.(missCache := st.missCache[device := now]) else st)
  {
  }

  /** What cannot be parsed counts as dropped; acknowledgements and errors are ignored. */
  lemma OtherPackets(st: State, from: Address, now: int, later: Later, directory: Directory, sendOk: bool)
    ensures Handle(st, Malformed, from, now, later, directory, sendOk) ==
            (st.(counters := st.counters.(dropped := st.counters.dropped + 1)), Nothing)
    ensures Handle(st, Other, from, now, later, directory, sendOk) == (st, Nothing)
  {
  }

  /** A REGISTER field by field: an error, silence for a used nonce, or the registration and an acknowledgement. */
  lemma RegisterIs(st: State, p: Packet, from: Address, now: int, later: Later, directory: Directory)
    requires p.Register?
    ensures var (looked, key) := RelayKeyOf(st, p.device, now, directory);
            var (st', out) := HandleRegister(st, p, from, now, later, directory);
            var nonce := (p.device, p.nonce);
            var used := nonce in st.seen && st.seen[nonce] > later.admit;
            && (key != Some(p.macKey) ==> st' == looked && out == SendError(from))
            && (key == Some(p.macKey) && used ==>
                  && out == Nothing
                  && st' == looked.(counters := st.counters.(dropped := st.counters.dropped + 1)))
            && (key == Some(p.macKey) && !used ==>
                  && out == SendAck(from)
                  && st' == looked.(
                       registrations := st.registrations[p.device := Registration(from, later.renewal + 60_000)],
                       seen := st.seen[nonce := later.admit + 600_000],
                       counters := st.counters.(registers := st.counters.registers + 1)))
  {
    LookupKeepsRest(st, p.device, now, directory);
  }

  /** Sweeping keeps exactly what has not expired; forgetting a device takes its registration and its key. */
  lemma SweptIs(st: State, now: int, device: Device)
    ensures var a, b := SweepAll(st, now), Unregister(st, device);
            && a.counters == st.counters
            && (forall d :: d in a.registrations <==> d in st.registrations && st.registrations[d].expires > now)
            && (forall d :: d in a.registrations ==> a.registrations[d] == st.registrations[d])
            && (forall d :: d in a.keyCache <==> d in st.keyCache && st.keyCache[d].expires > now)
            && (forall d :: d in a.keyCache ==> a.keyCache[d] == st.keyCache[d])
            && (forall d :: d in a.missCache <==> d in st.missCache && now - st.missCache[d] < 10_000)
            && (forall d :: d in a.missCache ==> a.missCache[d] == st.missCache[d])
            && (forall k :: k in a.seen <==> k in st.seen && st.seen[k] > now)
            && (forall k :: k in a.seen ==> a.seen[k] == st.seen[k])
            && b == st.(registrations := st.registrations - {device}, keyCache := st.keyCache - {device})
  {
  }

  lemma AppendLatest(admitted: seq<Admission>, a: Admission, d: Device)
    ensures LatestAddress(admitted + [a], d) == if a.device == d then Some(a.from) else LatestAddress(admitted, d)
  {
    assert (admitted + [a])[..|admitted|] == admitted;
  }

  lemma NextKeepsEndpoints(w: World, op: Op)
    requires EndpointsOk(w)
    ensures EndpointsOk(Next(w, op))
  {
    var w' := Next(w, op);
    if op.Arrive? && op.p.Register? {
      KeyLookup(w.st, op.p.device, op.now, op.directory);
    }
    forall d | d in w'.st.registrations
      ensures LatestAddress(w'.admitted, d) == Some(w'.st.registrations[d].endpoint)
    {
      if Admits(w.st, op) { AppendLatest(w.admitted, Admission(op.p.device, op.from), d); }
    }
  }

  lemma NextKeepsCaches(w: World, op: Op)
    requires CachesOk(w)
    ensures CachesOk(Next(w, op))
  {
    match op
    case Arrive(p, from, now, later, directory, _) =>
      if p.Register? { RegisterCaches(w.st, p, from, now, later, directory); }
    case SweepTick(_) =>
    case ForgetDevice(_) =>
    case TcpRegister(_, _, _) =>
  }

  /** Every cache entry is an old one, or what the devices table says now. */
  ghost predicate CachesFrom(st: State, st': State, device: Device, now: int, directory: Directory) {
    && (forall d :: d in st'.keyCache ==>
          || (d in st.keyCache && st'.keyCache[d] == st.keyCache[d])
          || (d == device && d in directory && st'.keyCache[d] == CachedKey(directory[d], now + KEY_CACHE_TTL_MS)))
    && (forall d :: d in st'.missCache ==>
          || (d in st.missCache && st'.missCache[d] == st.missCache[d])
          || (d == device && d !in directory && st'.missCache[d] == now))
  }

  lemma KeyCaches(st: State, device: Device, now: int, directory: Directory)
    ensures CachesFrom(st, RelayKeyOf(st, device, now, directory).0, device, now, directory)
  {
  }

  lemma RegisterCaches(st: State, p: Packet, from: Address, now: int, later: Later, directory: Directory)
    requires p.Register?
    ensures CachesFrom(st, HandleRegister(st, p, from, now, later, directory).0, p.device, now, directory)
  {
    KeyCaches(st, p.device, now, directory);
    var looked, st' := RelayKeyOf(st, p.device, now, directory).0, HandleRegister(st, p, from, now, later, directory).0;
    assert st'.keyCache == looked.keyCache && st'.missCache == looked.missCache;
  }

  /**
    The key a REGISTER is checked with is at most five minutes old; a device is refused as unknown for
    at most ten seconds too long.
   */
  lemma KeysAreRecent(ops: seq<Op>, device: Device, now: int, directory: Directory)
    ensures var w := Run(ops);
            var key := RelayKeyOf(w.st, device, now, directory).1;
            || key == Entry(directory, device)
            || (key.Some? && SaidSince(w.lookups, device, key, now - 300_000))
            || (key.None? && SaidSince(w.lookups, device, None, now - 10_000))
  {
    RunInvariant(ops);
    CachedAreRecent(Run(ops), device, now, directory);
  }

  lemma CachedAreRecent(w: World, device: Device, now: int, directory: Directory)
    requires CachesOk(w)
    ensures var key := RelayKeyOf(w.st, device, now, directory).1;
            || key == Entry(directory, device)
            || (key.Some? && SaidSince(w.lookups, device, key, now - 300_000))
            || (key.None? && SaidSince(w.lookups, device, None, now - 10_000))
  {
    if CachedFor(w.st, device, now).Some? {
      assert Lookup(device, Some(w.st.keyCache[device].key), w.st.keyCache[device].expires - KEY_CACHE_TTL_MS)
        in w.lookups;
    } else if RecentlyMissed(w.st, device, now) {
      assert Lookup(device, None, w.st.missCache[device]) in w.lookups;
    }
  }

  lemma RegisterMemory(st: State, p: Packet, from: Address, now: int, later: Later, directory: Directory)
    requires p.Register?
    ensures HandleRegister(st, p, from, now, later, directory).0.seen ==
            if RelayKeyOf(st, p.device, now, directory).1 == Some(p.macKey)
            then RG.Admit(st.seen, (p.device, p.nonce), later.admit) else st.seen
  {
    KeyLookup(st, p.device, now, directory);
  }

  lemma StepMemory(st: State, op: Op)
    ensures var events, seen' := GuardEvents(st, op), Step(st, op).0.seen;
            if events == [] then seen' == st.seen else events == [events[0]] && seen' == RG.Do(st.seen, events[0])
  {
    match op
    case Arrive(p, from, now, later, directory, _) =>
      if p.Register? { RegisterMemory(st, p, from, now, later, directory); }
    case SweepTick(_) =>
    case ForgetDevice(_) =>
    case TcpRegister(_, _, _) =>
  }

  lemma NextKeepsMemory(w: World, op: Op)
    requires w.st.seen == RG.Run(w.guardLog)
    ensures Next(w, op).st.seen == RG.Run(Next(w, op).guardLog)
  {
    var events := GuardEvents(w.st, op);
    StepMemory(w.st, op);
    if events == [] {
      assert w.guardLog + events == w.guardLog;
    } else {
      var e := events[0];
      assert w.guardLog + events == w.guardLog + [e];
      assert (w.guardLog + [e])[..|w.guardLog|] == w.guardLog;
    }
  }

  lemma {:induction false} RunInvariant(ops: seq<Op>)
    ensures EndpointsOk(Run(ops)) && CachesOk(Run(ops)) && Run(ops).st.seen == RG.Run(Run(ops).guardLog)
  {
    if ops != [] {
      var before := ops[..|ops| - 1];
      RunInvariant(before);
      NextKeepsEndpoints(Run(before), ops[|ops| - 1]);
      NextKeepsCaches(Run(before), ops[|ops| - 1]);
      NextKeepsMemory(Run(before), ops[|ops| - 1]);
    }
  }

  // ---------- forwarding ----------

  /**
    A frame is forwarded exactly when it comes from where its source last
    registered, both registrations are alive, and the socket takes it; it goes
    unchanged to where the destination last registered.
   */
  lemma ForwardedIff(ops: seq<Op>, p: Packet, from: Address, now: int, later: Later, directory: Directory, sendOk: bool)
    requires p.Relay?
    ensures var w := Run(ops);
            var live := p.src in w.st.registrations && w.st.registrations[p.src].expires >= now;
            var reachable := p.dst == p.src || (p.dst in w.st.registrations && w.st.registrations[p.dst].expires > now);
            var out := Handle(w.st, p, from, now, later, directory, sendOk).1;
            && (out != Nothing <==> live && LatestAddress(w.admitted, p.src) == Some(from) && reachable && sendOk)
            && (out != Nothing ==> LatestAddress(w.admitted, p.dst).Some?
                                   && out == Forward(LatestAddress(w.admitted, p.dst).value, p.frame))
  {
    RunInvariant(ops);
  }

  /** Every RELAY counts once, as forwarded or as dropped. */
  lemma RelayCountsOnce(st: State, p: Packet, from: Address, now: int, later: Later, directory: Directory, sendOk: bool)
    requires p.Relay?
    ensures var (st', out) := Handle(st, p, from, now, later, directory, sendOk);
            && st'.counters.registers == st.counters.registers
            && (if out.Forward?
                then st'.counters == st.counters.(forwarded := st.counters.forwarded + 1,
                                                  forwardedBytes := st.counters.forwardedBytes + |p.frame|)
                else st'.counters == st.counters.(dropped := st.counters.dropped + 1))
  {
  }

  predicate Moved(st: State, st': State, d: Device) {
    d in st'.registrations
    && !(d in st.registrations && st.registrations[d].endpoint == st'.registrations[d].endpoint)
  }

  lemma MovedByRegister(st: State, op: Op, d: Device)
    requires Moved(st, Step(st, op).0, d)
    ensures Admits(st, op) && op.p.device == d
    ensures Step(st, op).0.registrations[d].endpoint == op.from
  {
    match op
    case Arrive(p, from, now, later, directory, sendOk) =>
      if p.Register? { KeyLookup(st, p.device, now, directory); }
    case SweepTick(_) =>
    case ForgetDevice(_) =>
    case TcpRegister(_, _, _) =>
  }

  /**
    Only an authentic REGISTER with a fresh nonce moves an endpoint, and it moves
    it to its sender; its key was the device's within the last five minutes.
   */
  lemma EndpointMovesOnlyBy(ops: seq<Op>, op: Op, d: Device)
    requires Moved(Run(ops).st, Step(Run(ops).st, op).0, d)
    ensures Admits(Run(ops).st, op) && op.p.device == d
    ensures Step(Run(ops).st, op).0.registrations[d].endpoint == op.from
    ensures Entry(op.directory, d) == Some(op.p.macKey)
            || SaidSince(Run(ops).lookups, d, Some(op.p.macKey), op.now - 300_000)
  {
    RunInvariant(ops);
    MovedByRegister(Run(ops).st, op, d);
    KeysAreRecent(ops, d, op.now, op.directory);
  }

  /** A registration is admitted iff it is authentic and its nonce was not admitted in the last ten minutes. */
  lemma AdmittedIff(ops: seq<Op>, op: Op)
    requires Authentic(Run(ops).st, op)
    requires RG.Monotone(Run(ops).guardLog) &&
             forall i :: 0 <= i < |Run(ops).guardLog| ==> Run(ops).guardLog[i].now <= op.later.admit
    ensures Admits(Run(ops).st, op) <==>
            !RG.AdmittedSince(Run(ops).guardLog, (op.p.device, op.p.nonce), op.later.admit - 600_000)
  {
    RunInvariant(ops);
    RG.MemoryIsRecentUses(Run(ops).guardLog, (op.p.device, op.p.nonce), op.later.admit);
  }

  // ---------- sweeping ----------

  /** `a` lacks nothing of `b` but registrations that had expired by `swept`; likewise below. */
  ghost predicate SameLive(a: map<Device, Registration>, b: map<Device, Registration>, swept: int) {
    && (forall d :: d in a ==> d in b && a[d] == b[d])
    && (forall d :: d in b && d !in a ==> b[d].expires <= swept)
  }

  ghost predicate SameKeys(a: map<Device, CachedKey>, b: map<Device, CachedKey>, swept: int) {
    && (forall d :: d in a ==> d in b && a[d] == b[d])
    && (forall d :: d in b && d !in a ==> b[d].expires <= swept)
  }

  ghost predicate SameMisses(a: map<Device, int>, b: map<Device, int>, swept: int) {
    && (forall d :: d in a ==> d in b && a[d] == b[d])
    && (forall d :: d in b && d !in a ==> swept - b[d] >= KEY_NEG_CACHE_TTL_MS)
  }

  ghost predicate SameNonces(a: RG.Memory, b: RG.Memory, swept: int) {
    && (forall k :: k in a ==> k in b && a[k] == b[k])
    && (forall k :: k in b && k !in a ==> b[k] <= swept)
  }

  ghost predicate Agree(a: State, b: State, swept: int) {
    && a.counters == b.counters
    && SameLive(a.registrations, b.registrations, swept)
    && SameKeys(a.keyCache, b.keyCache, swept)
    && SameMisses(a.missCache, b.missCache, swept)
    && SameNonces(a.seen, b.seen, swept)
  }

  lemma SameAnswersFromCaches(a: State, b: State, swept: int, device: Device, now: int)
    requires SameKeys(a.keyCache, b.keyCache, swept) && SameMisses(a.missCache, b.missCache, swept) && swept < now
    ensures CachedFor(a, device, now) == CachedFor(b, device, now)
    ensures RecentlyMissed(a, device, now) == RecentlyMissed(b, device, now)
    ensures |a.missCache| <= |b.missCache|
  {
    assert a.missCache.Keys <= b.missCache.Keys;
    SubsetCard(a.missCache.Keys, b.missCache.Keys);
  }

  /** The unswept cache of unknown devices is full, the swept one takes a new entry. */
  predicate OverflowsFor(a: State, b: State, device: Device, now: int, directory: Directory) {
    && CachedFor(b, device, now).None? && !RecentlyMissed(b, device, now) && device !in directory
    && |a.missCache| < KEY_NEG_CACHE_CAPACITY <= |b.missCache|
  }

  /** A lookup gives the same key, and the same caches except where the unswept one is full. */
  lemma AgreeOnKey(a: State, b: State, swept: int, device: Device, now: int, directory: Directory)
    requires Agree(a, b, swept) && swept < now
    ensures RelayKeyOf(a, device, now, directory).1 == RelayKeyOf(b, device, now, directory).1
    ensures !OverflowsFor(a, b, device, now, directory) ==>
              Agree(RelayKeyOf(a, device, now, directory).0, RelayKeyOf(b, device, now, directory).0, swept)
  {
    SameAnswersFromCaches(a, b, swept, device, now);
    if device in directory {
      SameCachesFound(a, b, swept, device, CachedKey(directory[device], now + KEY_CACHE_TTL_MS));
    } else {
      SameMissesNoted(a.missCache, b.missCache, swept, device, now);
    }
  }

  lemma SameCachesFound(a: State, b: State, swept: int, device: Device, entry: CachedKey)
    requires SameKeys(a.keyCache, b.keyCache, swept) && SameMisses(a.missCache, b.missCache, swept)
    ensures SameKeys(a.keyCache[device := entry], b.keyCache[device := entry], swept)
    ensures SameMisses(a.missCache - {device}, b.missCache - {device}, swept)
  {
  }

  lemma SameMissesNoted(a: map<Device, int>, b: map<Device, int>, swept: int, device: Device, now: int)
    requires SameMisses(a, b, swept)
    ensures SameMisses(a[device := now], b[device := now], swept)
  {
  }

  lemma OverflowDisagrees(a: State, b: State, swept: int, device: Device, now: int, directory: Directory)
    requires Agree(a, b, swept) && swept < now && OverflowsFor(a, b, device, now, directory)
    ensures RelayKeyOf(a, device, now, directory) == (a.(missCache := a.missCache[device := now]), None)
    ensures RelayKeyOf(b, device, now, directory) == (b, None)
  {
    SameAnswersFromCaches(a, b, swept, device, now);
  }

  lemma AgreeOnRegister(a: State, b: State, swept: int, p: Packet, from: Address, now: int, later: Later,
                        directory: Directory)
    requires Agree(a, b, swept) && p.Register? && swept < now && swept < later.admit
    ensures HandleRegister(a, p, from, now, later, directory).1 == HandleRegister(b, p, from, now, later, directory).1
    ensures !OverflowsFor(a, b, p.device, now, directory) ==>
              Agree(HandleRegister(a, p, from, now, later, directory).0,
                    HandleRegister(b, p, from, now, later, directory).0, swept)
  {
    AgreeOnKey(a, b, swept, p.device, now, directory);
    LookupKeepsRest(a, p.device, now, directory);
    LookupKeepsRest(b, p.device, now, directory);
    AdmitAgrees(a.seen, b.seen, swept, (p.device, p.nonce), later.admit);
    var registration := Registration(from, later.renewal + REGISTRATION_TTL_MS);
    InsertAgrees(a.registrations, b.registrations, swept, p.device, registration);
  }

  lemma LookupKeepsRest(st: State, device: Device, now: int, directory: Directory)
    ensures var st' := RelayKeyOf(st, device, now, directory).0;
            st'.registrations == st.registrations && st'.seen == st.seen && st'.counters == st.counters
  {
  }

  lemma AdmitAgrees(a: RG.Memory, b: RG.Memory, swept: int, key: RG.Key, now: int)
    requires SameNonces(a, b, swept) && swept < now
    ensures RG.Fresh(a, key, now) == RG.Fresh(b, key, now)
    ensures SameNonces(RG.Admit(a, key, now), RG.Admit(b, key, now), swept)
  {
  }

  lemma InsertAgrees(a: map<Device, Registration>, b: map<Device, Registration>, swept: int, d: Device, r: Registration)
    requires SameLive(a, b, swept)
    ensures SameLive(a[d := r], b[d := r], swept)
  {
  }

  lemma AgreeOnRelay(a: State, b: State, swept: int, p: Packet, from: Address, now: int, sendOk: bool)
    requires Agree(a, b, swept) && p.Relay? && swept < now
    ensures HandleRelay(a, p, from, now, sendOk).1 == HandleRelay(b, p, from, now, sendOk).1
    ensures Agree(HandleRelay(a, p, from, now, sendOk).0, HandleRelay(b, p, from, now, sendOk).0, swept)
  {
    assert SourceOk(a, p.src, from, now) == SourceOk(b, p.src, from, now);
    if SourceOk(a, p.src, from, now) {
      var r := a.registrations[p.src].(expires := now + REGISTRATION_TTL_MS);
      InsertAgrees(a.registrations, b.registrations, swept, p.src, r);
      LiveAgrees(a.registrations[p.src := r], b.registrations[p.src := r], swept, p.dst, now);
    }
  }

  lemma LiveAgrees(a: map<Device, Registration>, b: map<Device, Registration>, swept: int, d: Device, now: int)
    requires SameLive(a, b, swept) && swept < now
    ensures (d in a && a[d].expires > now) == (d in b && b[d].expires > now)
    ensures d in a && d in b ==> a[d] == b[d]
  {
  }

  predicate Overflows(a: State, b: State, op: Op) {
    op.Arrive? && op.p.Register? && OverflowsFor(a, b, op.p.device, op.now, op.directory)
  }

  lemma AgreeOnPacket(a: State, b: State, swept: int, op: Op)
    requires Agree(a, b, swept) && op.Arrive? && After(op, swept)
    ensures Step(a, op).1 == Step(b, op).1
    ensures !Overflows(a, b, op) ==> Agree(Step(a, op).0, Step(b, op).0, swept)
  {
    match op.p
    case Register(_, _, _) => AgreeOnRegister(a, b, swept, op.p, op.from, op.now, op.later, op.directory);
    case Relay(_, _, _) => AgreeOnRelay(a, b, swept, op.p, op.from, op.now, op.sendOk);
    case Malformed =>
    case Other =>
  }

  lemma AgreeOnForget(a: State, b: State, swept: int, device: Device)
    requires Agree(a, b, swept)
    ensures Agree(Unregister(a, device), Unregister(b, device), swept)
  {
  }

  lemma AgreeOnNonce(a: State, b: State, swept: int, op: Op)
    requires Agree(a, b, swept) && op.TcpRegister? && swept < op.now
    ensures Agree(Step(a, op).0, Step(b, op).0, swept)
  {
    AdmitAgrees(a.seen, b.seen, swept, (op.device, op.nonce), op.now);
  }

  lemma AgreeOnSweep(a: State, b: State, swept: int, now: int)
    requires Agree(a, b, swept)
    ensures Agree(SweepAll(a, now), b, if now > swept then now else swept)
  {
  }

  /** Which tables the sweeper clears: none, all but the cache of unknown devices, or all. */
  datatype Sweeping = Never | ButMisses | Full

  function SweepAs(st: State, now: int, mode: Sweeping): State {
    match mode
    case Never => st
    case ButMisses => SweepAll(st, now).(missCache := st.missCache)
    case Full => SweepAll(st, now)
  }

  /** One operation under the given sweeper. */
  function Act(st: State, op: Op, mode: Sweeping): (State, Output) {
    if op.SweepTick? then (SweepAs(st, op.now, mode), Nothing) else Step(st, op)
  }

  /** States and outputs of `ops` from `st`. */
  function Trace(st: State, ops: seq<Op>, mode: Sweeping): (State, seq<Output>) {
    if ops == [] then (st, [])
    else
      var n := |ops| - 1;
      var (before, outs) := Trace(st, ops[..n], mode);
      var (after, out) := Act(before, ops[n], mode);
      (after, outs + [out])
  }

  lemma TraceNext(st: State, ops: seq<Op>, op: Op, mode: Sweeping)
    ensures var (before, outs) := Trace(st, ops, mode);
            var (after, out) := Act(before, op, mode);
            Trace(st, ops + [op], mode) == (after, outs + [out])
  {
    assert (ops + [op])[..|ops|] == ops;
  }

  /** Everything that reads a clock does so strictly after `t`. */
  predicate After(op: Op, t: int) {
    && ((op.Arrive? || op.TcpRegister?) ==> op.now > t)
    && (op.Arrive? && op.p.Register? ==> op.later.admit > t)
  }

  ghost predicate AfterSweeps(ops: seq<Op>, op: Op) {
    forall i :: 0 <= i < |ops| && ops[i].SweepTick? ==> After(op, ops[i].now)
  }

  ghost predicate LaterThanSweeps(ops: seq<Op>) {
    forall j :: 0 <= j < |ops| ==> AfterSweeps(ops[..j], ops[j])
  }

  lemma EarlierAreLater(ops: seq<Op>, n: nat)
    requires n <= |ops| && LaterThanSweeps(ops)
    ensures LaterThanSweeps(ops[..n])
  {
    forall j | 0 <= j < n ensures AfterSweeps(ops[..n][..j], ops[..n][j]) {
      assert ops[..n][..j] == ops[..j] && AfterSweeps(ops[..j], ops[j]);
    }
  }

  /** The latest sweep, or `t` if that is later. */
  function LastSweep(ops: seq<Op>, t: int): int {
    if ops == [] then t
    else
      var op := ops[|ops| - 1];
      var earlier := LastSweep(ops[..|ops| - 1], t);
      if op.SweepTick? && op.now > earlier then op.now else earlier
  }

  lemma {:induction false} LastSweepBefore(ops: seq<Op>, op: Op, t: int)
    requires After(op, t) && AfterSweeps(ops, op)
    ensures After(op, LastSweep(ops, t))
  {
    if ops != [] {
      var n := |ops| - 1;
      assert AfterSweeps(ops[..n], op);
      LastSweepBefore(ops[..n], op, t);
    }
  }

  ghost predicate AllAfter(ops: seq<Op>, t: int) { forall op :: op in ops ==> After(op, t) }

  /** One operation on a relay that sweeps and one that does not. */
  lemma AgreeOnAct(a: State, b: State, swept: int, op: Op, mode: Sweeping)
    requires Agree(a, b, swept) && After(op, swept)
    ensures Act(a, op, mode).1 == Act(b, op, Never).1
    ensures !Overflows(a, b, op) ==>
              Agree(Act(a, op, mode).0, Act(b, op, Never).0, if op.SweepTick? && op.now > swept then op.now else swept)
  {
    match op
    case Arrive(_, _, _, _, _, _) => AgreeOnPacket(a, b, swept, op);
    case SweepTick(now) => AgreeOnSweep(a, b, swept, now);
    case ForgetDevice(device) => AgreeOnForget(a, b, swept, device);
    case TcpRegister(device, nonce, now) => AgreeOnNonce(a, b, swept, op);
  }

  // ---------- sweeps of registrations, keys and nonces ----------

  lemma SameMissesStay(a: State, b: State, swept: int, op: Op)
    requires Agree(a, b, swept) && After(op, swept) && a.missCache == b.missCache
    ensures Act(a, op, ButMisses).0.missCache == Act(b, op, Never).0.missCache
  {
    if op.Arrive? && op.p.Register? {
      SameAnswersFromCaches(a, b, swept, op.p.device, op.now);
      SameMissesLookup(a, b, op.p.device, op.now, op.directory);
      RegisterKeepsMisses(a, op);
      RegisterKeepsMisses(b, op);
    }
  }

  lemma SameMissesLookup(a: State, b: State, device: Device, now: int, directory: Directory)
    requires a.missCache == b.missCache && CachedFor(a, device, now) == CachedFor(b, device, now)
    ensures RelayKeyOf(a, device, now, directory).0.missCache == RelayKeyOf(b, device, now, directory).0.missCache
  {
  }

  lemma RegisterKeepsMisses(st: State, op: Op)
    requires op.Arrive? && op.p.Register?
    ensures Step(st, op).0.missCache == RelayKeyOf(st, op.p.device, op.now, op.directory).0.missCache
  {
  }

  /**
    Sweeping registrations, keys and nonces only reclaims memory: as long as
    packets come strictly later than the sweeps before them, a relay that sweeps
    these and one that never does give the same answers and count the same.
   */
  lemma {:induction false} RegistrationSweepsAreInvisible(st: State, ops: seq<Op>, t: int)
    requires LaterThanSweeps(ops) && AllAfter(ops, t)
    ensures var (a, answers) := Trace(st, ops, ButMisses);
            var (b, answers') := Trace(st, ops, Never);
            answers == answers' && Agree(a, b, LastSweep(ops, t)) && a.missCache == b.missCache
    decreases |ops|
  {
    if ops != [] {
      var n := |ops| - 1;
      EarlierAreLater(ops, n);
      RegistrationSweepsAreInvisible(st, ops[..n], t);
      var a, b := Trace(st, ops[..n], ButMisses).0, Trace(st, ops[..n], Never).0;
      LastSweepBefore(ops[..n], ops[n], t);
      AgreeOnAct(a, b, LastSweep(ops[..n], t), ops[n], ButMisses);
      SameMissesStay(a, b, LastSweep(ops[..n], t), ops[n]);
    }
  }

  // ---------- sweeps of the cache of unknown devices ----------

  /** At no lookup of an unknown device is the unswept cache full and the swept one not. */
  ghost predicate NoOverflow(st: State, ops: seq<Op>) {
    forall k :: 0 <= k < |ops| ==> !OverflowAt(st, ops, k)
  }

  predicate OverflowAt(st: State, ops: seq<Op>, k: nat)
    requires k < |ops|
  {
    Overflows(Trace(st, ops[..k], Full).0, Trace(st, ops[..k], Never).0, ops[k])
  }

  lemma OverflowInPrefix(st: State, ops: seq<Op>, n: nat)
    requires n <= |ops|
    ensures forall k :: 0 <= k < n ==> OverflowAt(st, ops[..n], k) == OverflowAt(st, ops, k)
  {
    forall k | 0 <= k < n ensures OverflowAt(st, ops[..n], k) == OverflowAt(st, ops, k) {
      assert ops[..n][..k] == ops[..k];
    }
  }

  /** A relay that sweeps everything and one that never does agree until such a lookup. */
  lemma {:induction false} SweepsAreInvisible(st: State, ops: seq<Op>, t: int)
    requires LaterThanSweeps(ops) && AllAfter(ops, t) && NoOverflow(st, ops)
    ensures var (a, answers) := Trace(st, ops, Full);
            var (b, answers') := Trace(st, ops, Never);
            answers == answers' && Agree(a, b, LastSweep(ops, t))
    decreases |ops|
  {
    if ops != [] {
      var n := |ops| - 1;
      EarlierAreLater(ops, n);
      OverflowInPrefix(st, ops, n);
      SweepsAreInvisible(st, ops[..n], t);
      LastSweepBefore(ops[..n], ops[n], t);
      assert !OverflowAt(st, ops, n);
      AgreeOnAct(Trace(st, ops[..n], Full).0, Trace(st, ops[..n], Never).0, LastSweep(ops[..n], t), ops[n], Full);
    }
  }

  /** After the first `k` operations, `next` is answered differently by a relay that sweeps. */
  ghost predicate Distinguishes(st: State, ops: seq<Op>, k: nat, next: Op) {
    && k <= |ops| && AfterSweeps(ops[..k], next)
    && Act(Trace(st, ops[..k], Full).0, next, Full).1 != Act(Trace(st, ops[..k], Never).0, next, Never).1
  }

  /** The unknown device enrolls and registers again within ten seconds: refused here, served there. */
  lemma OverflowIsVisible(a: State, b: State, swept: int, op: Op) returns (next: Op)
    requires Agree(a, b, swept) && After(op, swept) && Overflows(a, b, op)
    ensures next.Arrive? && next.now == next.later.admit == op.now + 1
    ensures Step(Step(a, op).0, next).1 == SendError(op.from) && Step(Step(b, op).0, next).1 != SendError(op.from)
  {
    var device := op.p.device;
    var next' := op.now + 1;
    next := op.(now := next', later := Later(next', next'), directory := map[device := op.p.macKey]);
    OverflowDisagrees(a, b, swept, device, op.now, op.directory);
    assert RecentlyMissed(Step(a, op).0, device, next.now);
    SameAnswersFromCaches(a, b, swept, device, op.now);
    assert Step(b, op).0 == b;
  }

  /** Sweeping shows, to some next packet, exactly if there was such a lookup. */
  lemma SweepsVisibleIff(st: State, ops: seq<Op>, t: int)
    requires LaterThanSweeps(ops) && AllAfter(ops, t)
    ensures NoOverflow(st, ops) <==>
            forall k: nat, next :: After(next, t) ==> !Distinguishes(st, ops, k, next)
  {
    if NoOverflow(st, ops) {
      forall k: nat, next | After(next, t) ensures !Distinguishes(st, ops, k, next) {
        if k <= |ops| && AfterSweeps(ops[..k], next) { PrefixIsInvisible(st, ops, k, next, t); }
      }
    } else {
      var k, next := FirstOverflow(st, ops, t);
      assert Distinguishes(st, ops, k, next);
    }
  }

  lemma PrefixIsInvisible(st: State, ops: seq<Op>, k: nat, next: Op, t: int)
    requires LaterThanSweeps(ops) && AllAfter(ops, t) && NoOverflow(st, ops) && After(next, t)
    requires k <= |ops| && AfterSweeps(ops[..k], next)
    ensures !Distinguishes(st, ops, k, next)
  {
    EarlierAreLater(ops, k);
    OverflowInPrefix(st, ops, k);
    SweepsAreInvisible(st, ops[..k], t);
    LastSweepBefore(ops[..k], next, t);
    AgreeOnAct(Trace(st, ops[..k], Full).0, Trace(st, ops[..k], Never).0, LastSweep(ops[..k], t), next, Full);
  }

  lemma {:induction false} FirstOverflow(st: State, ops: seq<Op>, t: int) returns (k: nat, next: Op)
    requires LaterThanSweeps(ops) && AllAfter(ops, t) && !NoOverflow(st, ops)
    ensures After(next, t) && Distinguishes(st, ops, k, next)
    decreases |ops|
  {
    var n := |ops| - 1;
    var prefix := ops[..n];
    EarlierAreLater(ops, n);
    OverflowInPrefix(st, ops, n);
    if NoOverflow(st, prefix) {
      k := |ops|;
      next := OverflowAtEnd(st, ops, t);
    } else {
      k, next := FirstOverflow(st, prefix, t);
      assert prefix[..k] == ops[..k];
    }
  }

  lemma OverflowAtEnd(st: State, ops: seq<Op>, t: int) returns (next: Op)
    requires ops != [] && LaterThanSweeps(ops) && AllAfter(ops, t)
    requires NoOverflow(st, ops[..|ops| - 1]) && OverflowAt(st, ops, |ops| - 1)
    ensures After(next, t) && Distinguishes(st, ops, |ops|, next)
  {
    var n := |ops| - 1;
    var prefix, op := ops[..n], ops[n];
    EarlierAreLater(ops, n);
    SweepsAreInvisible(st, prefix, t);
    LastSweepBefore(prefix, op, t);
    next := OverflowIsVisible(Trace(st, prefix, Full).0, Trace(st, prefix, Never).0, LastSweep(prefix, t), op);
    assert ops[..|ops|] == ops;
    NextAfterSweeps(ops, next);
  }

  lemma NextAfterSweeps(ops: seq<Op>, next: Op)
    requires ops != [] && LaterThanSweeps(ops)
    requires var last := ops[|ops| - 1];
             last.Arrive? && next.Arrive? && next.now > last.now && next.later.admit > last.now
    ensures AfterSweeps(ops, next)
  {
    var n := |ops| - 1;
    assert AfterSweeps(ops[..n], ops[n]);
    forall i | 0 <= i < n && ops[i].SweepTick? ensures After(next, ops[i].now) {
      assert ops[..n][i] == ops[i];
    }
  }

  // ---------- a run in which it shows ----------

  function UnknownOp(device: Device, now: int): Op {
    Arrive(Register(device, [], []), 0, now, Later(now, now), map[], true)
  }

  /** `n` unknown devices send a REGISTER at time 0. */
  function UnknownDevices(n: nat): seq<Op> {
    if n == 0 then [] else UnknownDevices(n - 1) + [UnknownOp(n - 1, 0)]
  }

  lemma {:induction false} UnknownDevicesAt(n: nat)
    ensures |UnknownDevices(n)| == n && forall i :: 0 <= i < n ==> UnknownDevices(n)[i] == UnknownOp(i, 0)
  {
    if n > 0 { UnknownDevicesAt(n - 1); }
  }

  ghost predicate HasMissed(st: State, n: nat) {
    && st.keyCache == map[] && |st.missCache| == n
    && forall d: Device :: (d in st.missCache <==> d < n) && (d < n ==> st.missCache[d] == 0)
  }

  lemma {:induction false} CacheFills(n: nat, mode: Sweeping)
    requires n <= KEY_NEG_CACHE_CAPACITY
    ensures HasMissed(Trace(EMPTY, UnknownDevices(n), mode).0, n)
  {
    if n == 0 {
      NothingMissed(mode);
    } else {
      var m := n - 1;
      CacheFills(m, mode);
      CacheFillsStep(UnknownDevices(m), m, mode);
    }
  }

  lemma NothingMissed(mode: Sweeping)
    ensures HasMissed(Trace(EMPTY, [], mode).0, 0)
  {
  }

  lemma CacheFillsStep(ops: seq<Op>, n: nat, mode: Sweeping)
    requires HasMissed(Trace(EMPTY, ops, mode).0, n) && n < KEY_NEG_CACHE_CAPACITY
    ensures HasMissed(Trace(EMPTY, ops + [UnknownOp(n, 0)], mode).0, n + 1)
  {
    TraceNext(EMPTY, ops, UnknownOp(n, 0), mode);
    OneMoreMiss(Trace(EMPTY, ops, mode).0, n);
  }

  lemma OneMoreMiss(st: State, n: nat)
    requires HasMissed(st, n) && n < KEY_NEG_CACHE_CAPACITY
    ensures HasMissed(Step(st, UnknownOp(n, 0)).0, n + 1)
  {
    var st' := st.(missCache := st.missCache[n := 0]);
    assert Step(st, UnknownOp(n, 0)).0 == st';
    forall d: Device ensures (d in st'.missCache <==> d < n + 1) && (d < n + 1 ==> st'.missCache[d] == 0) {
      if d < n { assert d in st.missCache; }
    }
  }

  /** A full cache, a sweep after its entries have expired, and one more unknown device. */
  function FullCacheRun(): seq<Op> {
    UnknownDevices(100_000) + [SweepTick(10_000)] + [UnknownOp(100_000, 10_001)]
  }

  lemma FullCacheOverflows()
    ensures |FullCacheRun()| > 0 && OverflowAt(EMPTY, FullCacheRun(), |FullCacheRun()| - 1)
  {
    var filled := UnknownDevices(KEY_NEG_CACHE_CAPACITY);
    var sweep := SweepTick(10_000);
    var ops := FullCacheRun();
    assert ops[..|ops| - 1] == filled + [sweep];
    CacheFills(KEY_NEG_CACHE_CAPACITY, Full);
    CacheFills(KEY_NEG_CACHE_CAPACITY, Never);
    TraceNext(EMPTY, filled, sweep, Full);
    TraceNext(EMPTY, filled, sweep, Never);
    SweptOverflows(Trace(EMPTY, filled, Full).0, Trace(EMPTY, filled, Never).0);
  }

  lemma FullCacheRunIsLater()
    ensures LaterThanSweeps(FullCacheRun()) && AllAfter(FullCacheRun(), -1)
  {
    var n := KEY_NEG_CACHE_CAPACITY;
    var ops := FullCacheRun();
    UnknownDevicesAt(n);
    assert forall i :: 0 <= i < n ==> ops[i] == UnknownOp(i, 0);
    assert ops[n] == SweepTick(10_000) && ops[n + 1] == UnknownOp(n, 10_001) && |ops| == n + 2;
  }

  /** From an empty relay, so far that it answers differently because it sweeps. */
  lemma FullCacheShows() returns (k: nat, next: Op)
    ensures Distinguishes(EMPTY, FullCacheRun(), k, next)
  {
    FullCacheRunIsLater();
    FullCacheOverflows();
    k, next := FirstOverflow(EMPTY, FullCacheRun(), -1);
  }

  lemma SweptOverflows(a: State, b: State)
    requires HasMissed(a, KEY_NEG_CACHE_CAPACITY) && HasMissed(b, KEY_NEG_CACHE_CAPACITY)
    ensures Overflows(SweepAll(a, 10_000), b, UnknownOp(KEY_NEG_CACHE_CAPACITY, 10_001))
  {
    assert SweepAll(a, 10_000).missCache == map[];
  }
}
