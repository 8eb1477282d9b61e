/** Laws of the membership store over every interleaving of its transactions. */
module MembershipLaws {
  import opened Wrappers
  import opened Ipam
  import opened Membership

  datatype Op =
    | OpEnroll(now: int, token: string, requested: Option<IpText>, device: DeviceId)
    | OpJoin(now: int, device: DeviceId, token: string, requested: Option<IpText>)
    | OpAdminJoin(device: DeviceId, net: NetId, requested: Option<IpText>, singleNetwork: bool)
    | OpSetIp(net: NetId, device: DeviceId, ip: IpText, block: Block)
    | OpLeave(device: DeviceId, net: NetId)
    | OpDeleteDevice(device: DeviceId)
    | OpDeleteNetwork(net: NetId)
    | OpCreateNetwork(net: NetId, cidr: Option<Block>)
    | OpCreateToken(token: string, net: NetId, uses: nat, expiresAt: int, requestedIp: Option<IpText>)
    | OpDeleteToken(token: string)

  /** The tables, the uses each token was created with, and the memberships made through it. */
  datatype World = World(db: Db, granted: map<string, nat>, made: map<string, nat>)

  const EMPTY: World := World(Db(map[], {}, map[], map[]), map[], map[])

  function Count(made: map<string, nat>, token: string): nat { if token in made then made[token] else 0 }

  /** The address change uses the block its handler has read: networks never change theirs. */
  predicate Enabled(w: World, op: Op) {
    op.OpSetIp? && op.net in w.db.networks ==> w.db.networks[op.net] == Some(op.block)
  }

  function Do(w: World, op: Op): World {
    match op
    case OpEnroll(now, token, requested, device) =>
      (match Enroll(w.db, now, token, requested, device)
       case Ok((db', _)) => w.(db := db', made := w.made[token := Count(w.made, token) + 1])
       case Err(_) => w)
    case OpJoin(now, device, token, requested) =>
      (match Join(w.db, now, device, token, requested)
       case Ok((db', joined)) =>
         if joined.alreadyMember then w.(db := db')
         else w.(db := db', made := w.made[token := Count(w.made, token) + 1])
       case Err(_) => w)
    case OpAdminJoin(device, net, requested, single) =>
      (match AdminJoin(w.db, device, net, requested, single)
       case Ok((db', _)) => w.(db := db')
       case Err(_) => w)
    case OpSetIp(net, device, ip, block) =>
      (match SetIp(w.db, net, device, ip, block)
       case Ok(db') => w.(db := db')
       case Err(_) => w)
    case OpLeave(device, net) =>
      (match Leave(w.db, device, net)
       case Ok(db') => w.(db := db')
       case Err(_) => w)
    case OpDeleteDevice(device) => w.(db := DeleteDevice(w.db, device))
    case OpDeleteNetwork(net) => w.(db := DeleteNetwork(w.db, net))
    case OpCreateNetwork(net, cidr) =>
      if net in w.db.networks then w else w.(db := w.db.(networks := w.db.networks[net := cidr]))
    case OpCreateToken(token, net, uses, expiresAt, requestedIp) =>
      if token in w.db.tokens then w
      else World(w.db.(tokens := w.db.tokens[token := Token(net, uses, expiresAt, requestedIp)]),
                 w.granted[token := uses], w.made[token := 0])
    case OpDeleteToken(token) => w.(db := w.db.(tokens := w.db.tokens - {token}))
  }

  function DoAll(w: World, ops: seq<Op>): World {
    if ops == [] then w
    else
      var n := |ops| - 1;
      var before := DoAll(w, ops[..n]);
      if Enabled(before, ops[n]) then Do(before, ops[n]) else before
  }

  // ---------- addresses ----------

  /** Every membership is in an existing network and has a host address of it that no other member has. */
  ghost predicate AddressesOk(db: Db) {
    && (forall k :: k in db.memberships ==>
          k.0 in db.networks && db.networks[k.0].Some? && IsHost(db.networks[k.0].value, db.memberships[k]))
    && DistinctRows(db.memberships)
  }

  type Rows = map<(NetId, DeviceId), u32>

  /** UNIQUE(network_id, ip). */
  ghost predicate DistinctRows(rows: Rows) {
    forall k, l :: k in rows && l in rows && k.0 == l.0 && rows[k] == rows[l] ==> k == l
  }

  lemma PuttingKeepsDistinct(rows: Rows, key: (NetId, DeviceId), ip: u32)
    requires DistinctRows(rows) && forall k :: k in rows && k.0 == key.0 && k != key ==> rows[k] != ip
    ensures DistinctRows(rows[key := ip])
  {
  }

  lemma ChosenAddressIsFreeHost(block: Block, used: set<u32>, requested: Option<IpText>, fallback: Option<IpText>)
    requires ChooseAddress(block, used, requested, fallback).Ok?
    ensures var ip := ChooseAddress(block, used, requested, fallback).value;
            IsHost(block, ip) && ip !in used
  {
    var wish := if requested.Some? then requested else fallback;
    if wish.Some? {
      ManualAccepts(wish.value, block, used, None);
    } else {
      AllocationGivesFreeHost(block, used);
    }
  }

  lemma AddingKeepsAddresses(db: Db, net: NetId, device: DeviceId, ip: u32)
    requires AddressesOk(db) && net in db.networks && db.networks[net].Some?
    requires IsHost(db.networks[net].value, ip) && AddMembership(db, net, device, ip).Ok?
    ensures AddressesOk(AddMembership(db, net, device, ip).value)
  {
    assert forall k :: k in db.memberships && k.0 == net ==> db.memberships[k] in UsedIn(db, net);
    PuttingKeepsDistinct(db.memberships, (net, device), ip);
  }

  lemma InsertKeepsAddresses(db: Db, net: NetId, device: DeviceId, requested: Option<IpText>, fallback: Option<IpText>)
    requires AddressesOk(db) && net in db.networks
    ensures match InsertMembership(db, net, device, requested, fallback)
            case Ok((db', _)) => AddressesOk(db')
            case Err(_) => true
  {
    if db.networks[net].Some? {
      var chosen := ChooseAddress(db.networks[net].value, UsedIn(db, net), requested, fallback);
      if chosen.Ok? {
        ChosenAddressIsFreeHost(db.networks[net].value, UsedIn(db, net), requested, fallback);
        if AddMembership(db, net, device, chosen.value).Ok? {
          AddingKeepsAddresses(db, net, device, chosen.value);
        }
      }
    }
  }

  lemma EnrollKeepsAddresses(db: Db, now: int, token: string, requested: Option<IpText>, device: DeviceId)
    requires AddressesOk(db)
    ensures match Enroll(db, now, token, requested, device)
            case Ok((db', _)) => AddressesOk(db')
            case Err(_) => true
  {
    if Enroll(db, now, token, requested, device).Ok? {
      var net := CheckToken(db, token, now).value;
      var block, used := db.networks[net].value, UsedIn(db, net);
      ChosenAddressIsFreeHost(block, used, requested, db.tokens[token].requestedIp);
      var ip := ChooseAddress(block, used, requested, db.tokens[token].requestedIp).value;
      AddingKeepsAddresses(db.(devices := db.devices + {device}), net, device, ip);
    }
  }

  lemma SetIpKeepsAddresses(db: Db, net: NetId, device: DeviceId, ip: IpText, block: Block)
    requires AddressesOk(db) && (net in db.networks ==> db.networks[net] == Some(block))
    ensures match SetIp(db, net, device, ip, block)
            case Ok(db') => AddressesOk(db')
            case Err(_) => true
  {
    ManualAccepts(ip, block, UsedByOthers(db, net, device), None);
    if ip.Some? && ip.value !in UsedByOthers(db, net, device) && (net, device) in db.memberships {
      if IsHost(block, ip.value) { MovingKeepsAddresses(db, net, device, ip.value); }
    }
  }

  lemma MovingKeepsAddresses(db: Db, net: NetId, device: DeviceId, ip: u32)
    requires AddressesOk(db) && (net, device) in db.memberships
    requires ip !in UsedByOthers(db, net, device) && IsHost(db.networks[net].value, ip)
    ensures AddressesOk(db.(memberships := db.memberships[(net, device) := ip]))
  {
    assert forall k :: k in db.memberships && k.0 == net && k.1 != device ==>
      db.memberships[k] in UsedByOthers(db, net, device);
    PuttingKeepsDistinct(db.memberships, (net, device), ip);
  }

  lemma FewerKeepAddresses(db: Db, db': Db)
    requires AddressesOk(db)
    requires forall k :: k in db'.memberships ==>
               && k in db.memberships && db'.memberships[k] == db.memberships[k]
               && k.0 in db'.networks && db'.networks[k.0] == db.networks[k.0]
    ensures AddressesOk(db')
  {
  }

  lemma JoinKeepsAddresses(w: World, op: Op)
    requires op.OpJoin? && AddressesOk(w.db) && Enabled(w, op)
    ensures AddressesOk(Do(w, op).db)
  {
    var network := CheckToken(w.db, op.token, op.now);
    if network.Ok? {
      InsertKeepsAddresses(w.db, network.value, op.device, op.requested, w.db.tokens[op.token].requestedIp);
    }
  }

  lemma AdminJoinKeepsAddresses(w: World, op: Op)
    requires op.OpAdminJoin? && AddressesOk(w.db) && Enabled(w, op)
    ensures AddressesOk(Do(w, op).db)
  {
    if op.net in w.db.networks { InsertKeepsAddresses(w.db, op.net, op.device, op.requested, None); }
  }

  lemma OpKeepsAddresses(w: World, op: Op)
    requires AddressesOk(w.db) && Enabled(w, op)
    ensures AddressesOk(Do(w, op).db)
  {
    match op
    case OpEnroll(now, token, requested, device) => EnrollKeepsAddresses(w.db, now, token, requested, device);
    case OpJoin(_, _, _, _) => JoinKeepsAddresses(w, op);
    case OpAdminJoin(_, _, _, _) => AdminJoinKeepsAddresses(w, op);
    case OpSetIp(net, device, ip, block) => SetIpKeepsAddresses(w.db, net, device, ip, block);
    case OpLeave(_, _) => FewerKeepAddresses(w.db, Do(w, op).db);
    case OpDeleteDevice(_) => FewerKeepAddresses(w.db, Do(w, op).db);
    case OpDeleteNetwork(_) => FewerKeepAddresses(w.db, Do(w, op).db);
    case OpCreateNetwork(_, _) => FewerKeepAddresses(w.db, Do(w, op).db);
    case OpCreateToken(_, _, _, _, _) => FewerKeepAddresses(w.db, Do(w, op).db);
    case OpDeleteToken(_) => FewerKeepAddresses(w.db, Do(w, op).db);
  }

  /** In every reachable state the members of a network have distinct host addresses inside its block. */
  lemma {:induction false} AddressesStayDistinct(ops: seq<Op>)
    ensures AddressesOk(DoAll(EMPTY, ops).db)
  {
    if ops != [] {
      var n := |ops| - 1;
      AddressesStayDistinct(ops[..n]);
      var before := DoAll(EMPTY, ops[..n]);
      if Enabled(before, ops[n]) { OpKeepsAddresses(before, ops[n]); }
    }
  }

  // ---------- tokens ----------

  ghost predicate TokenOk(w: World, token: string) {
    token in w.db.tokens ==>
      && token in w.granted && w.db.tokens[token].usesLeft >= 0
      && w.db.tokens[token].usesLeft + Count(w.made, token) == w.granted[token]
  }

  ghost predicate TokensOk(w: World) { forall token :: TokenOk(w, token) }

  lemma OpKeepsToken(w: World, op: Op, token: string)
    requires TokenOk(w, token)
    ensures TokenOk(Do(w, op), token)
  {
  }

  /** Uses left and memberships made through a token always add up to the uses it was created with. */
  lemma {:induction false} TokenUsesAreConserved(ops: seq<Op>)
    ensures TokensOk(DoAll(EMPTY, ops))
  {
    if ops != [] {
      var n := |ops| - 1;
      TokenUsesAreConserved(ops[..n]);
      var before := DoAll(EMPTY, ops[..n]);
      if Enabled(before, ops[n]) {
        forall token ensures TokenOk(Do(before, ops[n]), token) {
          assert TokenOk(before, token);
          OpKeepsToken(before, ops[n], token);
        }
      }
    }
  }

  /** A new membership costs one use of its token; a repeated join and a failure cost nothing at all. */
  lemma JoinCost(db: Db, now: int, device: DeviceId, token: string, requested: Option<IpText>)
    requires Join(db, now, device, token, requested).Ok?
    ensures var (db', joined) := Join(db, now, device, token, requested).value;
            if joined.alreadyMember then db' == db
            else && token in db.tokens && token in db'.tokens
                 && db'.tokens[token].usesLeft == db.tokens[token].usesLeft - 1
                 && (db.tokens[token].netId, device) !in db.memberships
                 && db'.memberships == db.memberships[(db.tokens[token].netId, device) := joined.ip]
                 && forall t :: t in db.tokens && t != token ==> t in db'.tokens && db'.tokens[t] == db.tokens[t]
  {
  }

  /** The use that the checks have seen is still there when it is taken: only the checks refuse a token as used up. */
  lemma UsedUpIff(db: Db, now: int, token: string, requested: Option<IpText>, device: DeviceId)
    ensures var usedUp := token in db.tokens && db.tokens[token].expiresAt >= now && db.tokens[token].usesLeft <= 0;
            && (Enroll(db, now, token, requested, device) == Err(TokenUsedUp) <==> usedUp)
            && (Join(db, now, device, token, requested) == Err(TokenUsedUp) <==> usedUp)
  {
  }

  // ---------- devices ----------

  predicate Deletes(op: Op) { op.OpDeleteDevice? || op.OpDeleteNetwork? }

  lemma MemberIsListed(db: Db, net: NetId, device: DeviceId)
    requires (net, device) in db.memberships
    ensures net in NetworksOf(db, device)
  {
  }

  lemma OpKeepsMembership(w: World, op: Op, device: DeviceId)
    requires NetworksOf(w.db, device) != {} && !Deletes(op)
    ensures NetworksOf(Do(w, op).db, device) != {}
  {
    if op.OpLeave? && op.device == device && Leave(w.db, device, op.net).Ok? {
      LeaveKeepsAnother(w.db, device, op.net);
    } else {
      var net :| net in NetworksOf(w.db, device);
      assert (net, device) in w.db.memberships;
      OpKeepsRow(w, op, net, device);
      MemberIsListed(Do(w, op).db, net, device);
    }
  }

  lemma LeaveKeepsAnother(db: Db, device: DeviceId, net: NetId)
    requires Leave(db, device, net).Ok?
    ensures NetworksOf(Leave(db, device, net).value, device) != {}
  {
    var nets := NetworksOf(db, device);
    MemberIsListed(db, net, device);
    assert |nets - {net}| >= 1;
    var other :| other in nets - {net};
    MemberIsListed(Leave(db, device, net).value, other, device);
  }

  /** Only leaving and deleting take a row away. */
  lemma OpKeepsRow(w: World, op: Op, net: NetId, device: DeviceId)
    requires (net, device) in w.db.memberships && !Deletes(op) &&
             !(op.OpLeave? && op.device == device && Leave(w.db, device, op.net).Ok?)
    ensures (net, device) in Do(w, op).db.memberships
  {
  }

  lemma EnrollGivesMembership(w: World, op: Op)
    requires op.OpEnroll? && Enroll(w.db, op.now, op.token, op.requested, op.device).Ok?
    ensures NetworksOf(Do(w, op).db, op.device) != {}
  {
    var net := CheckToken(w.db, op.token, op.now).value;
    MemberIsListed(Do(w, op).db, net, op.device);
  }

  /** Once enrolled, a device keeps a membership until a device or a network is deleted. */
  lemma {:induction false} DeviceKeepsMembership(w: World, ops: seq<Op>, device: DeviceId)
    requires NetworksOf(w.db, device) != {} && forall op :: op in ops ==> !Deletes(op)
    ensures NetworksOf(DoAll(w, ops).db, device) != {}
    decreases |ops|
  {
    if ops != [] {
      var n := |ops| - 1;
      DeviceKeepsMembership(w, ops[..n], device);
      var before := DoAll(w, ops[..n]);
      if Enabled(before, ops[n]) { OpKeepsMembership(before, ops[n], device); }
    }
  }
}
