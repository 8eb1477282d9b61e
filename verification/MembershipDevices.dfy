/** Memberships and the devices they name: there is no foreign key between the two tables. */
module MembershipDevices {
  import opened Wrappers
  import opened Bits
  import opened Ipam
  import opened Membership
  import opened MembershipLaws

  /** Every membership names an existing device. */
  ghost predicate DevicesOk(db: Db) {
    forall k :: k in db.memberships ==> k.1 in db.devices
  }

  /** The transaction makes a membership for `device`. */
  predicate Adds(db: Db, op: Op, device: DeviceId) {
    match op
    case OpJoin(now, d, token, requested) =>
      d == device && Join(db, now, d, token, requested).Ok? && !Join(db, now, d, token, requested).value.1.alreadyMember
    case OpAdminJoin(d, net, requested, single) =>
      d == device && AdminJoin(db, d, net, requested, single).Ok?
      && !AdminJoin(db, d, net, requested, single).value.1.alreadyMember
    case OpEnroll(_, _, _, _) => false
    case OpSetIp(_, _, _, _) => false
    case OpLeave(_, _) => false
    case OpDeleteDevice(_) => false
    case OpDeleteNetwork(_) => false
    case OpCreateNetwork(_, _) => false
    case OpCreateToken(_, _, _, _, _) => false
    case OpDeleteToken(_) => false
  }

  /** A device that is gone by the time of the transaction joins. */
  predicate JoinsGone(db: Db, op: Op) {
    (op.OpJoin? || op.OpAdminJoin?) && op.device !in db.devices && Adds(db, op, op.device)
  }

  lemma AddsRow(w: World, op: Op)
    requires JoinsGone(w.db, op)
    ensures Do(w, op).db.devices == w.db.devices
    ensures exists net :: (net, op.device) in Do(w, op).db.memberships
  {
    var net := if op.OpJoin? then CheckToken(w.db, op.token, op.now).value else op.net;
    assert (net, op.device) in Do(w, op).db.memberships;
  }

  /** A row comes with a device that is there, or is one of a join. */
  lemma RowsAfter(w: World, op: Op, k: (NetId, DeviceId))
    requires k in Do(w, op).db.memberships && k !in w.db.memberships
    ensures k.1 in Do(w, op).db.devices || JoinsGone(w.db, op)
  {
  }

  /** A device goes with all its rows. */
  lemma DevicesAfter(w: World, op: Op, k: (NetId, DeviceId))
    requires k in Do(w, op).db.memberships && k in w.db.memberships && k.1 in w.db.devices
    ensures k.1 in Do(w, op).db.devices
  {
  }

  lemma StepDevicesIff(w: World, op: Op)
    requires DevicesOk(w.db)
    ensures DevicesOk(Do(w, op).db) <==> !JoinsGone(w.db, op)
  {
    if JoinsGone(w.db, op) {
      AddsRow(w, op);
    } else {
      forall k | k in Do(w, op).db.memberships ensures k.1 in Do(w, op).db.devices {
        if k in w.db.memberships { DevicesAfter(w, op, k); } else { RowsAfter(w, op, k); }
      }
    }
  }

  ghost predicate AlwaysDevicesOk(ops: seq<Op>) {
    DevicesOk(DoAll(EMPTY, ops).db) && (ops != [] ==> AlwaysDevicesOk(ops[..|ops| - 1]))
  }

  ghost predicate NoneJoinsGone(ops: seq<Op>) {
    ops != [] ==>
      var n := |ops| - 1;
      var before := DoAll(EMPTY, ops[..n]);
      NoneJoinsGone(ops[..n]) && !(Enabled(before, ops[n]) && JoinsGone(before.db, ops[n]))
  }

  /** Over any run, memberships name existing devices all the time exactly if no device joins that is gone by then. */
  lemma {:induction false} DevicesOkIff(ops: seq<Op>)
    ensures AlwaysDevicesOk(ops) <==> NoneJoinsGone(ops)
  {
    if ops != [] {
      var n := |ops| - 1;
      DevicesOkIff(ops[..n]);
      var before := DoAll(EMPTY, ops[..n]);
      if DevicesOk(before.db) && Enabled(before, ops[n]) { StepDevicesIff(before, ops[n]); }
    }
  }

  // ---------- a run in which one does ----------

  lemma FirstHost(block: Block)
    requires block.prefix <= 30
    ensures Allocation(block, {}) == Some(block.network + 1)
  {
    BlockEnd(block);
    Pow2Monotone(2, 32 - block.prefix);
    var none: seq<u32> := [];
    NextAllocation(block, none);
    assert (set x | x in none) == {};
  }

  /** No memberships yet, and a token for a network with a free address. */
  predicate Ready(db: Db, net: NetId, block: Block, token: string, uses: nat) {
    && net in db.networks && db.networks[net] == Some(block) && block.prefix <= 30
    && token in db.tokens && db.tokens[token] == Token(net, uses, 0, None) && db.memberships == map[]
  }

  lemma ReadyChoice(db: Db, net: NetId, block: Block, token: string, uses: nat)
    requires Ready(db, net, block, token, uses) && uses > 0
    ensures CheckToken(db, token, 0) == Ok(net) && UsedIn(db, net) == {}
    ensures ChooseAddress(block, {}, None, None).Ok?
  {
    FirstHost(block);
  }

  lemma ReadyEnrolls(db: Db, net: NetId, block: Block, token: string, uses: nat, device: DeviceId)
    requires Ready(db, net, block, token, uses) && uses > 0 && device !in db.devices
    ensures var r := Enroll(db, 0, token, None, device);
            r.Ok? && device in r.value.0.devices && Ready(DeleteDevice(r.value.0, device), net, block, token, uses - 1)
  {
    ReadyChoice(db, net, block, token, uses);
    var ip := ChooseAddress(block, {}, None, None).value;
    var grown := db.(devices := db.devices + {device});
    assert UsedIn(grown, net) == {};
    assert AddMembership(grown, net, device, ip) == Ok(grown.(memberships := map[(net, device) := ip]));
    EnrolledOnly(grown, net, device, token, ip, uses);
  }

  lemma EnrolledOnly(db: Db, net: NetId, device: DeviceId, token: string, ip: u32, uses: nat)
    requires token in db.tokens && db.tokens[token].usesLeft == uses > 0 && db.memberships == map[]
    ensures var paid := PayingWith(db.(memberships := map[(net, device) := ip]), token, ip);
            && paid.Ok? && paid.value.1 == ip && paid.value.0.devices == db.devices
            && paid.value.0.networks == db.networks
            && paid.value.0.tokens == db.tokens[token := db.tokens[token].(usesLeft := uses - 1)]
            && DeleteDevice(paid.value.0, device).memberships == map[]
  {
  }

  lemma ReadyJoins(db: Db, net: NetId, block: Block, token: string, uses: nat, device: DeviceId)
    requires Ready(db, net, block, token, uses) && uses > 0 && device !in db.devices
    ensures JoinsGone(db, OpJoin(0, device, token, None))
  {
    ReadyChoice(db, net, block, token, uses);
    var ip := ChooseAddress(block, {}, None, None).value;
    assert InsertMembership(db, net, device, None, None) == Ok((db.(memberships := map[(net, device) := ip]), ip));
    EnrolledOnly(db, net, device, token, ip, uses);
  }

  lemma ReadySetup(net: NetId, block: Block, token: string)
    requires block.prefix <= 30
    ensures var ops := [OpCreateNetwork(net, Some(block)), OpCreateToken(token, net, 2, 0, None)];
            Ready(DoAll(EMPTY, ops).db, net, block, token, 2) && DoAll(EMPTY, ops).db.devices == {}
  {
    var a, b := OpCreateNetwork(net, Some(block)), OpCreateToken(token, net, 2, 0, None);
    assert [a, b][..1] == [a];
    assert DoAll(EMPTY, [a]) == Do(EMPTY, a);
  }

  lemma DoNext(ops: seq<Op>, op: Op)
    requires !op.OpSetIp?
    ensures DoAll(EMPTY, ops + [op]) == Do(DoAll(EMPTY, ops), op)
  {
    assert (ops + [op])[..|ops|] == ops;
  }

  /**
    A device that is there when its request to join is checked, is deleted, and
    gets a membership by the transaction all the same.
   */
  lemma DeletedDeviceJoins(net: NetId, block: Block, device: DeviceId, token: string) returns (before: seq<Op>)
    requires block.prefix <= 30
    ensures device in DoAll(EMPTY, before).db.devices
    ensures var ops := before + [OpDeleteDevice(device)] + [OpJoin(0, device, token, None)];
            !DevicesOk(DoAll(EMPTY, ops).db)
  {
    var setup := [OpCreateNetwork(net, Some(block)), OpCreateToken(token, net, 2, 0, None)];
    var enroll, delete := OpEnroll(0, token, None, device), OpDeleteDevice(device);
    var join := OpJoin(0, device, token, None);
    before := setup + [enroll];
    ReadySetup(net, block, token);
    ReadyEnrolls(DoAll(EMPTY, setup).db, net, block, token, 2, device);
    DoNext(setup, enroll);
    DoNext(before, delete);
    DoNext(before + [delete], join);
    var gone := DoAll(EMPTY, before + [delete]);
    ReadyJoins(gone.db, net, block, token, 1, device);
    AddsRow(gone, join);
  }
}
