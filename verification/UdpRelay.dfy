/** The UDP relay: authenticated registrations, forwarding between them, caches and the expiry sweeper. */
module UdpRelay {
  import opened Wrappers
  import opened RG = RegisterGuard

  const KEY_CACHE_TTL_MS: int := 300_000
  const REGISTRATION_TTL_MS: int := 60_000
  const KEY_NEG_CACHE_TTL_MS: int := 10_000
  const KEY_NEG_CACHE_CAPACITY: nat := 100_000

  type Device = nat
  type Address = nat
  type RelayKey = seq<char>

  datatype Registration = Registration(endpoint: Address, expires: int)

  datatype CachedKey = CachedKey(key: RelayKey, expires: int)

  /** `macKey` is the key the MAC of a REGISTER was made with: it verifies under that key only. */
  datatype Packet =
    | Malformed
    | Register(device: Device, nonce: seq<char>, macKey: RelayKey)
    | Relay(src: Device, dst: Device, frame: seq<char>)
    | Other

  datatype Output =
    | Nothing
    | SendError(to: Address)
    | SendAck(to: Address)
    | Forward(to: Address, frame: seq<char>)

  datatype Counters = Counters(forwarded: nat, forwardedBytes: nat, dropped: nat, registers: nat)

  datatype State = State(
    registrations: map<Device, Registration>,
    keyCache: map<Device, CachedKey>,
    missCache: map<Device, int>,
    seen: Memory,
    counters: Counters)

  const EMPTY: State := State(map[], map[], map[], map[], Counters(0, 0, 0, 0))

  type Directory = map<Device, RelayKey>   // the devices table

  /** While a REGISTER is handled the clock is read again: for its nonce, and for its expiry. */
  datatype Later = Later(admit: int, renewal: int)

  // ---------- the handlers on the state ----------

  function CachedFor(st: State, device: Device, now: int): Option<RelayKey> {
    if device in st.keyCache && st.keyCache[device].expires > now then Some(st.keyCache[device].key) else None
  }

  predicate RecentlyMissed(st: State, device: Device, now: int) {
    device in st.missCache && now - st.missCache[device] < KEY_NEG_CACHE_TTL_MS
  }

  function RelayKeyOf(st: State, device: Device, now: int, directory: Directory): (State, Option<RelayKey>) {
    if CachedFor(st, device, now).Some? then (st, CachedFor(st, device, now))
    else if RecentlyMissed(st, device, now) then (st, None)
    else if device in directory then
      (st.(missCache := st.missCache - {device},
           keyCache := st.keyCache[device := CachedKey(directory[device], now + KEY_CACHE_TTL_MS)]),
       Some(directory[device]))
    else if |st.missCache| < KEY_NEG_CACHE_CAPACITY then (st.(missCache := st.missCache[device := now]), None)
    else (st, None)
  }

  function Drop(st: State): State { st.(counters := st.counters.(dropped := st.counters.dropped + 1)) }

  function HandleRegister(st: State, p: Packet, from: Address, now: int, later: Later, directory: Directory)
    : (State, Output)
    requires p.Register?
  {
    var (st', key) := RelayKeyOf(st, p.device, now, directory);
    if key != Some(p.macKey) then (st', SendError(from))
    else if !Fresh(st'.seen, (p.device, p.nonce), later.admit) then (Drop(st'), Nothing)
    else
      (st'.(seen := Admit(st'.seen, (p.device, p.nonce), later.admit),
            registrations := st'.registrations[p.device := Registration(from, later.renewal + REGISTRATION_TTL_MS)],
            counters := st'.counters.(registers := st'.counters.registers + 1)),
       SendAck(from))
  }

  /** The source is registered from this very address and has not expired. */
  predicate SourceOk(st: State, src: Device, from: Address, now: int) {
    src in st.registrations && st.registrations[src].expires >= now && st.registrations[src].endpoint == from
  }

  function Renew(st: State, src: Device, now: int): State
    requires src in st.registrations
  {
    st.(registrations := st.registrations[src := st.registrations[src].(expires := now + REGISTRATION_TTL_MS)])
  }

  /** `sendOk` tells whether the socket takes the datagram. */
  function HandleRelay(st: State, p: Packet, from: Address, now: int, sendOk: bool): (State, Output)
    requires p.Relay?
  {
    if !SourceOk(st, p.src, from, now) then (Drop(st), Nothing)
    else
      var st' := Renew(st, p.src, now);
      if p.dst !in st'.registrations || st'.registrations[p.dst].expires <= now then (Drop(st'), Nothing)
      else if !sendOk then (Drop(st'), Nothing)
      else
        (st'.(counters := st'.counters.(forwarded := st'.counters.forwarded + 1,
                                        forwardedBytes := st'.counters.forwardedBytes + |p.frame|)),
         Forward(st'.registrations[p.dst].endpoint, p.frame))
  }

  function Handle(st: State, p: Packet, from: Address, now: int, later: Later, directory: Directory, sendOk: bool)
    : (State, Output)
  {
    match p
    case Malformed => (Drop(st), Nothing)
    case Register(_, _, _) => HandleRegister(st, p, from, now, later, directory)
    case Relay(_, _, _) => HandleRelay(st, p, from, now, sendOk)
    case Other => (st, Nothing)
  }

  function SweepAll(st: State, now: int): State {
    st.(registrations := map d | d in st.registrations && st.registrations[d].expires > now :: st.registrations[d],
        keyCache := map d | d in st.keyCache && st.keyCache[d].expires > now :: st.keyCache[d],
        missCache := map d | d in st.missCache && now - st.missCache[d] < KEY_NEG_CACHE_TTL_MS :: st.missCache[d],
        seen := Sweep(st.seen, now))
  }

  function Unregister(st: State, device: Device): State {
    st.(registrations := st.registrations - {device}, keyCache := st.keyCache - {device})
  }

  // ---------- the relay object ----------

  class UdpRelay {
    var registrations: map<Device, Registration>
    var keyCache: map<Device, CachedKey>
    var missCache: map<Device, int>
    const guard: RegisterGuard
    var counters: Counters

    function View(): State
      reads this, guard
    {
      State(registrations, keyCache, missCache, guard.seen, counters)
    }

    constructor ()
      ensures View() == EMPTY && fresh(guard)
    {
      registrations, keyCache, missCache := map[], map[], map[];
      counters := Counters(0, 0, 0, 0);
      guard := new RegisterGuard();
    }

    method KeyOf(device: Device, now: int, directory: Directory) returns (key: Option<RelayKey>)
      modifies this`keyCache, this`missCache
      ensures (View(), key) == RelayKeyOf(old(View()), device, now, directory)
    {
      if device in keyCache && keyCache[device].expires > now {
        return Some(keyCache[device].key);
      }
      if device in missCache && now - missCache[device] < KEY_NEG_CACHE_TTL_MS {
        return None;
      }
      if device in directory {
        missCache := missCache - {device};
        keyCache := keyCache[device := CachedKey(directory[device], now + KEY_CACHE_TTL_MS)];
        return Some(directory[device]);
      }
      if |missCache| < KEY_NEG_CACHE_CAPACITY {
        missCache := missCache[device := now];
      }
      return None;
    }

    method OnRegister(p: Packet, from: Address, now: int, later: Later, directory: Directory) returns (out: Output)
      requires p.Register?
      modifies this, guard
      ensures (View(), out) == HandleRegister(old(View()), p, from, now, later, directory)
    {
      var key := KeyOf(p.device, now, directory);
      if key.None? { return SendError(from); }
      if key.value != p.macKey { return SendError(from); }
      var ok := guard.AdmitNonce(p.device, p.nonce, later.admit);
      if !ok {
        counters := counters.(dropped := counters.dropped + 1);
        return Nothing;
      }
      registrations := registrations[p.device := Registration(from, later.renewal + REGISTRATION_TTL_MS)];
      counters := counters.(registers := counters.registers + 1);
      return SendAck(from);
    }

    method OnRelay(p: Packet, from: Address, now: int, sendOk: bool) returns (out: Output)
      requires p.Relay?
      modifies this`registrations, this`counters
      ensures (View(), out) == HandleRelay(old(View()), p, from, now, sendOk)
    {
      if p.src !in registrations {
        counters := counters.(dropped := counters.dropped + 1);
        return Nothing;
      }
      var reg := registrations[p.src];
      if reg.expires < now || reg.endpoint != from {
        counters := counters.(dropped := counters.dropped + 1);
        return Nothing;
      }
      registrations := registrations[p.src := reg.(expires := now + REGISTRATION_TTL_MS)];
      if p.dst !in registrations || registrations[p.dst].expires <= now {
        counters := counters.(dropped := counters.dropped + 1);
        return Nothing;
      }
      if !sendOk {
        counters := counters.(dropped := counters.dropped + 1);
        return Nothing;
      }
      counters := counters.(forwarded := counters.forwarded + 1, forwardedBytes := counters.forwardedBytes + |p.frame|);
      return Forward(registrations[p.dst].endpoint, p.frame);
    }

    method OnPacket(p: Packet, from: Address, now: int, later: Later, directory: Directory, sendOk: bool)
      returns (out: Output)
      modifies this, guard
      ensures (View(), out) == Handle(old(View()), p, from, now, later, directory, sendOk)
    {
      match p
      case Malformed =>
        counters := counters.(dropped := counters.dropped + 1);
        out := Nothing;
      case Register(_, _, _) => out := OnRegister(p, from, now, later, directory);
      case Relay(_, _, _) => out := OnRelay(p, from, now, sendOk);
      case Other => out := Nothing;
    }

    method SweepExpired(now: int)
      modifies this, guard
      ensures View() == SweepAll(old(View()), now)
    {
      registrations := map d | d in registrations && registrations[d].expires > now :: registrations[d];
      keyCache := map d | d in keyCache && keyCache[d].expires > now :: keyCache[d];
      missCache := map d | d in missCache && now - missCache[d] < KEY_NEG_CACHE_TTL_MS :: missCache[d];
      guard.SweepExpired(now);
    }

    method Forget(device: Device)
      modifies this`registrations, this`keyCache
      ensures View() == Unregister(old(View()), device)
    {
      registrations := registrations - {device};
      keyCache := keyCache - {device};
    }
  }
}
