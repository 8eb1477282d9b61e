/** How long registrations last: what renews them, and what ends them. */
module RelayLiveness {
  import opened Wrappers
  import opened UdpRelay
  import opened RelayLaws

  /**
    When `device` was last renewed, by an admitted REGISTER or by a RELAY from
    its registered address while it was alive; `None` before, and after it was
    forgotten or swept.
   */
  function LastRenewal(ops: seq<Op>, device: Device): Option<int>
    decreases |ops|, 0
  {
    if ops == [] then None
    else
      var n := |ops| - 1;
      var last := LastRenewal(ops[..n], device);
      match ops[n]
      case Arrive(p, from, now, later, _, _) =>
        if p.Register? && p.device == device && Admits(Run(ops[..n]).st, ops[n]) then Some(later.renewal)
        else if p.Relay? && p.src == device && AliveAt(ops[..n], device, now)
                && LatestAddress(Run(ops[..n]).admitted, device) == Some(from) then Some(now)
        else last
      case SweepTick(now) => if last.Some? && now >= last.value + 60_000 then None else last
      case ForgetDevice(d) => if d == device then None else last
      case TcpRegister(_, _, _) => last
  }

  /** At most 60 s have passed since the last renewal. */
  predicate AliveAt(ops: seq<Op>, device: Device, t: int)
    decreases |ops|, 1
  {
    LastRenewal(ops, device).Some? && t <= LastRenewal(ops, device).value + 60_000
  }

  /** The registration is there since the last renewal and ends 60 s after it. */
  ghost predicate Renewed(st: State, device: Device, last: Option<int>) {
    && (device in st.registrations <==> last.Some?)
    && (device in st.registrations ==> st.registrations[device].expires == last.value + 60_000)
  }

  lemma {:induction false} RegistrationsAreRenewals(ops: seq<Op>, device: Device)
    ensures Renewed(Run(ops).st, device, LastRenewal(ops, device))
    decreases |ops|
  {
    if ops != [] {
      var n := |ops| - 1;
      RegistrationsAreRenewals(ops[..n], device);
      RunInvariant(ops[..n]);
      match ops[n]
      case Arrive(_, _, _, _, _, _) => PacketRenews(ops[..n], ops[n], device);
      case SweepTick(now) => SweptIs(Run(ops[..n]).st, now, device);
      case ForgetDevice(_) =>
      case TcpRegister(_, _, _) =>
      assert Run(ops).st == Step(Run(ops[..n]).st, ops[n]).0;
    }
  }

  lemma PacketRenews(before: seq<Op>, op: Op, device: Device)
    requires op.Arrive? && Renewed(Run(before).st, device, LastRenewal(before, device)) && EndpointsOk(Run(before))
    ensures var p := op.p;
            var last :=
              if p.Register? && p.device == device && Admits(Run(before).st, op) then Some(op.later.renewal)
              else if p.Relay? && p.src == device && AliveAt(before, device, op.now)
                      && LatestAddress(Run(before).admitted, device) == Some(op.from) then Some(op.now)
              else LastRenewal(before, device);
            Renewed(Step(Run(before).st, op).0, device, last)
  {
    var st := Run(before).st;
    match op.p
    case Register(_, _, _) =>
      RegisterIs(st, op.p, op.from, op.now, op.later, op.directory);
      LookupKeepsRest(st, op.p.device, op.now, op.directory);
    case Relay(src, _, _) => RelayIs(st, op.p, op.from, op.now, op.sendOk);
    case Malformed =>
    case Other =>
  }

  /** A RELAY field by field. */
  lemma RelayIs(st: State, p: Packet, from: Address, now: int, sendOk: bool)
    requires p.Relay?
    ensures var (st', out) := HandleRelay(st, p, from, now, sendOk);
            var accepted := p.src in st.registrations && st.registrations[p.src].expires >= now
                            && st.registrations[p.src].endpoint == from;
            && st'.keyCache == st.keyCache && st'.missCache == st.missCache && st'.seen == st.seen
            && st'.registrations == (if accepted
                                     then st.registrations[p.src := Registration(from, now + 60_000)]
                                     else st.registrations)
            && (out != Nothing ==> accepted && sendOk && p.dst in st'.registrations
                                   && st'.registrations[p.dst].expires > now
                                   && out == Forward(st'.registrations[p.dst].endpoint, p.frame))
            && ((accepted && sendOk && p.dst in st'.registrations && st'.registrations[p.dst].expires > now)
                ==> out != Nothing)
  {
  }

  /** Over any run: a device is alive at `t` iff its last renewal is at most 60 s back. */
  lemma AliveIff(ops: seq<Op>, device: Device, t: int)
    ensures var regs := Run(ops).st.registrations;
            device in regs && regs[device].expires >= t <==> AliveAt(ops, device, t)
  {
    RegistrationsAreRenewals(ops, device);
  }

  /**
    Over any run, a frame is forwarded exactly when its source was renewed within
    the last 60 s and sends from where it last registered, its destination was
    renewed less than 60 s ago (the frame itself renews its source), and the
    socket takes it; it goes unchanged to where the destination last registered.
   */
  lemma ForwardedWhileAlive(ops: seq<Op>, p: Packet, from: Address, now: int, later: Later, directory: Directory,
                            sendOk: bool)
    requires p.Relay?
    ensures var admitted := Run(ops).admitted;
            var out := Handle(Run(ops).st, p, from, now, later, directory, sendOk).1;
            && (out != Nothing <==> && AliveAt(ops, p.src, now) && LatestAddress(admitted, p.src) == Some(from)
                                    && (p.dst == p.src || AliveAt(ops, p.dst, now + 1)) && sendOk)
            && (out != Nothing ==> LatestAddress(admitted, p.dst).Some?
                                   && out == Forward(LatestAddress(admitted, p.dst).value, p.frame))
  {
    ForwardedIff(ops, p, from, now, later, directory, sendOk);
    AliveIff(ops, p.src, now);
    AliveIff(ops, p.dst, now + 1);
  }
}
