/** The membership store: networks, devices, enrollment tokens and address assignments, one transaction at a time. */
module Membership {
  import opened Wrappers
  import opened Ipam

  type NetId = nat
  type DeviceId = u64

  /** An address as text: what it parses to, if it parses. */
  type IpText = Option<u32>

  datatype Token = Token(netId: NetId, usesLeft: int, expiresAt: int, requestedIp: Option<IpText>)

  /** The tables. A network whose CIDR text does not parse has no block. */
  datatype Db = Db(
    networks: map<NetId, Option<Block>>,
    devices: set<DeviceId>,
    tokens: map<string, Token>,
    memberships: map<(NetId, DeviceId), u32>)

  datatype Conflict =
    | NoSuchToken | TokenExpired | TokenUsedUp | NoSuchNetwork | BadCidr
    | BadAddress(reason: ManualError) | PoolExhausted
    | SingleNetworkOnly | NotAMember | LastMembership
    | ConstraintViolation

  datatype Joined = Joined(ip: u32, alreadyMember: bool)

  // ---------- transactions as functions on the tables ----------

  function UsedIn(db: Db, net: NetId): set<u32> {
    set k | k in db.memberships && k.0 == net :: db.memberships[k]
  }

  function UsedByOthers(db: Db, net: NetId, device: DeviceId): set<u32> {
    set k | k in db.memberships && k.0 == net && k.1 != device :: db.memberships[k]
  }

  function NetworksOf(db: Db, device: DeviceId): set<NetId> {
    set k | k in db.memberships && k.1 == device :: k.0
  }

  /** The requested address, else the fallback, else the lowest free one. */
  function ChooseAddress(block: Block, used: set<u32>, requested: Option<IpText>, fallback: Option<IpText>)
    : Result<u32, Conflict>
  {
    var wish := if requested.Some? then requested else fallback;
    match wish
    case Some(text) =>
      (match ValidateManual(text, block, used, None)
       case Ok(ip) => Ok(ip)
       case Err(reason) => Err(BadAddress(reason)))
    case None =>
      (match Allocation(block, used)
       case Some(ip) => Ok(ip)
       case None => Err(PoolExhausted))
  }

  /** INSERT with both keys of the table checked. */
  function AddMembership(db: Db, net: NetId, device: DeviceId, ip: u32): Result<Db, Conflict> {
    if (net, device) in db.memberships || ip in UsedIn(db, net) then Err(ConstraintViolation)
    else Ok(db.(memberships := db.memberships[(net, device) := ip]))
  }

  function InsertMembership(db: Db, net: NetId, device: DeviceId, requested: Option<IpText>, fallback: Option<IpText>)
    : Result<(Db, u32), Conflict>
    requires net in db.networks
  {
    match db.networks[net]
    case None => Err(BadCidr)
    case Some(block) =>
      match ChooseAddress(block, UsedIn(db, net), requested, fallback)
      case Err(e) => Err(e)
      case Ok(ip) =>
        match AddMembership(db, net, device, ip)
        case Err(e) => Err(e)
        case Ok(db') => Ok((db', ip))
  }

  /** The checks every use of a token starts with; the network it is for. */
  function CheckToken(db: Db, token: string, now: int): (r: Result<NetId, Conflict>)
    ensures r.Ok? ==> token in db.tokens && db.tokens[token].usesLeft > 0 && r.value in db.networks
  {
    if token !in db.tokens then Err(NoSuchToken)
    else if db.tokens[token].expiresAt < now then Err(TokenExpired)
    else if db.tokens[token].usesLeft <= 0 then Err(TokenUsedUp)
    else if db.tokens[token].netId !in db.networks then Err(NoSuchNetwork)
    else Ok(db.tokens[token].netId)
  }

  /** UPDATE of the token if it has a use left, and whether it had. */
  function ConsumeUse(db: Db, token: string): (Db, bool) {
    if token in db.tokens && db.tokens[token].usesLeft > 0 then
      var row := db.tokens[token];
      (db.(tokens := db.tokens[token := row.(usesLeft := row.usesLeft - 1)]), true)
    else (db, false)
  }

  /** The last step of a transaction that needs a token: without a use left the whole of it fails. */
  function PayingWith<T>(db: Db, token: string, value: T): Result<(Db, T), Conflict> {
    var (db', taken) := ConsumeUse(db, token);
    if taken then Ok((db', value)) else Err(TokenUsedUp)
  }

  /** `device` is the random number drawn for the new device. */
  function Enroll(db: Db, now: int, token: string, requested: Option<IpText>, device: DeviceId)
    : Result<(Db, u32), Conflict>
  {
    match CheckToken(db, token, now)
    case Err(e) => Err(e)
    case Ok(net) =>
      if db.networks[net].None? then Err(BadCidr)
      else
        match ChooseAddress(db.networks[net].value, UsedIn(db, net), requested, db.tokens[token].requestedIp)
        case Err(e) => Err(e)
        case Ok(ip) =>
          if device in db.devices then Err(ConstraintViolation)
          else
            match AddMembership(db.(devices := db.devices + {device}), net, device, ip)
            case Err(e) => Err(e)
            case Ok(db') => PayingWith(db', token, ip)
  }

  function Join(db: Db, now: int, device: DeviceId, token: string, requested: Option<IpText>)
    : Result<(Db, Joined), Conflict>
  {
    match CheckToken(db, token, now)
    case Err(e) => Err(e)
    case Ok(net) =>
      if (net, device) in db.memberships then Ok((db, Joined(db.memberships[(net, device)], true)))
      else
        match InsertMembership(db, net, device, requested, db.tokens[token].requestedIp)
        case Err(e) => Err(e)
        case Ok((db', ip)) => PayingWith(db', token, Joined(ip, false))
  }

  function AdminJoin(db: Db, device: DeviceId, net: NetId, requested: Option<IpText>, singleNetwork: bool)
    : Result<(Db, Joined), Conflict>
  {
    if net !in db.networks then Err(NoSuchNetwork)
    else if (net, device) in db.memberships then Ok((db, Joined(db.memberships[(net, device)], true)))
    else if singleNetwork && NetworksOf(db, device) != {} then Err(SingleNetworkOnly)
    else
      match InsertMembership(db, net, device, requested, None)
      case Err(e) => Err(e)
      case Ok((db', ip)) => Ok((db', Joined(ip, false)))
  }

  function SetIp(db: Db, net: NetId, device: DeviceId, ip: IpText, block: Block): Result<Db, Conflict> {
    match ValidateManual(ip, block, UsedByOthers(db, net, device), None)
    case Err(reason) => Err(BadAddress(reason))
    case Ok(addr) =>
      if (net, device) in db.memberships then Ok(db.(memberships := db.memberships[(net, device) := addr])) else Ok(db)
  }

  /** The last membership of a device stays. */
  function Leave(db: Db, device: DeviceId, net: NetId): Result<Db, Conflict> {
    if (net, device) !in db.memberships then Err(NotAMember)
    else if |NetworksOf(db, device)| <= 1 then Err(LastMembership)
    else Ok(db.(memberships := db.memberships - {(net, device)}))
  }

  function DeleteDevice(db: Db, device: DeviceId): Db {
    db.(memberships := map k | k in db.memberships && k.1 != device :: db.memberships[k],
        devices := db.devices - {device})
  }

  function DeleteNetwork(db: Db, net: NetId): Db {
    db.(memberships := map k | k in db.memberships && k.0 != net :: db.memberships[k],
        tokens := map t | t in db.tokens && db.tokens[t].netId != net :: db.tokens[t],
        networks := db.networks - {net})
  }

  // ---------- the store ----------

  class Repo {
    var db: Db

    constructor ()
      ensures db == Db(map[], {}, map[], map[])
    {
      db := Db(map[], {}, map[], map[]);
    }

    /** SELECT ip FROM memberships WHERE network_id = net [AND device_id != except]. */
    static method CollectUsed(tx: Db, net: NetId, except: Option<DeviceId>) returns (used: set<u32>)
      ensures used == if except.Some? then UsedByOthers(tx, net, except.value) else UsedIn(tx, net)
    {
      used := {};
      var rows := tx.memberships.Keys;
      while rows != {}
        invariant rows <= tx.memberships.Keys
        invariant used == set k | k in tx.memberships && k !in rows && k.0 == net && Some(k.1) != except
          :: tx.memberships[k]
        decreases rows
      {
        var k :| k in rows;
        if k.0 == net && Some(k.1) != except {
          used := used + {tx.memberships[k]};
        }
        rows := rows - {k};
      }
    }

    static method InsertMembershipTx(tx: Db, net: NetId, device: DeviceId, requested: Option<IpText>,
                                     fallback: Option<IpText>)
      returns (r: Result<(Db, u32), Conflict>)
      requires net in tx.networks
      ensures r == InsertMembership(tx, net, device, requested, fallback)
    {
      if tx.networks[net].None? { return Err(BadCidr); }
      var block := tx.networks[net].value;
      var used := CollectUsed(tx, net, None);
      var chosen := Choose(block, used, requested, fallback);
      if chosen.Err? { return Err(chosen.error); }
      var inserted := AddMembership(tx, net, device, chosen.value);
      if inserted.Err? { return Err(inserted.error); }
      return Ok((inserted.value, chosen.value));
    }

    static method Choose(block: Block, used: set<u32>, requested: Option<IpText>, fallback: Option<IpText>)
      returns (r: Result<u32, Conflict>)
      ensures r == ChooseAddress(block, used, requested, fallback)
    {
      var wish := if requested.Some? then requested else fallback;
      if wish.Some? {
        var valid := ValidateManual(wish.value, block, used, None);
        if valid.Err? { return Err(BadAddress(valid.error)); }
        return Ok(valid.value);
      }
      var free := Allocate(block, used);
      if free.None? { return Err(PoolExhausted); }
      return Ok(free.value);
    }

    static method CheckTokenTx(tx: Db, token: string, now: int) returns (r: Result<NetId, Conflict>)
      ensures r == CheckToken(tx, token, now)
    {
      if token !in tx.tokens { return Err(NoSuchToken); }
      var row := tx.tokens[token];
      if row.expiresAt < now { return Err(TokenExpired); }
      if row.usesLeft <= 0 { return Err(TokenUsedUp); }
      if row.netId !in tx.networks { return Err(NoSuchNetwork); }
      return Ok(row.netId);
    }

    static method ConsumeTokenUse(tx: Db, token: string) returns (tx': Db, taken: bool)
      ensures taken <==> token in tx.tokens && tx.tokens[token].usesLeft > 0
      ensures tx' == tx.(tokens := tx'.tokens) && tx'.tokens.Keys == tx.tokens.Keys
      ensures forall t :: t in tx.tokens ==>
                tx'.tokens[t] ==
                  if taken && t == token then tx.tokens[t].(usesLeft := tx.tokens[t].usesLeft - 1) else tx.tokens[t]
      ensures (tx', taken) == ConsumeUse(tx, token)
    {
      tx', taken := tx, false;
      if token in tx.tokens && tx.tokens[token].usesLeft > 0 {
        var row := tx.tokens[token];
        tx' := tx.(tokens := tx.tokens[token := row.(usesLeft := row.usesLeft - 1)]);
        taken := true;
      }
    }

    method EnrollDevice(now: int, token: string, requested: Option<IpText>, device: DeviceId)
      returns (r: Result<u32, Conflict>)
      modifies this
      ensures match Enroll(old(db), now, token, requested, device)
              case Ok((db', ip)) => r == Ok(ip) && db == db'
              case Err(e) => r == Err(e) && db == old(db)
    {
      var tx := db;
      var checked := CheckTokenTx(tx, token, now);
      if checked.Err? { return Err(checked.error); }
      var net := checked.value;
      if tx.networks[net].None? { return Err(BadCidr); }
      var block := tx.networks[net].value;
      var used := CollectUsed(tx, net, None);
      var chosen := Choose(block, used, requested, tx.tokens[token].requestedIp);
      if chosen.Err? { return Err(chosen.error); }
      if device in tx.devices { return Err(ConstraintViolation); }
      tx := tx.(devices := tx.devices + {device});
      var inserted := AddMembership(tx, net, device, chosen.value);
      if inserted.Err? { return Err(inserted.error); }
      var taken;
      tx, taken := ConsumeTokenUse(inserted.value, token);
      if !taken { return Err(TokenUsedUp); }
      db := tx;
      return Ok(chosen.value);
    }

    method JoinNetwork(now: int, device: DeviceId, token: string, requested: Option<IpText>)
      returns (r: Result<Joined, Conflict>)
      modifies this
      ensures match Join(old(db), now, device, token, requested)
              case Ok((db', joined)) => r == Ok(joined) && db == db'
              case Err(e) => r == Err(e) && db == old(db)
    {
      var tx := db;
      var checked := CheckTokenTx(tx, token, now);
      if checked.Err? { return Err(checked.error); }
      var net := checked.value;
      if (net, device) in tx.memberships {
        return Ok(Joined(tx.memberships[(net, device)], true));
      }
      var inserted := InsertMembershipTx(tx, net, device, requested, tx.tokens[token].requestedIp);
      if inserted.Err? { return Err(inserted.error); }
      var taken;
      tx, taken := ConsumeTokenUse(inserted.value.0, token);
      if !taken { return Err(TokenUsedUp); }
      db := tx;
      return Ok(Joined(inserted.value.1, false));
    }

    method AdminJoinNetwork(device: DeviceId, net: NetId, requested: Option<IpText>, singleNetwork: bool)
      returns (r: Result<Joined, Conflict>)
      modifies this
      ensures match AdminJoin(old(db), device, net, requested, singleNetwork)
              case Ok((db', joined)) => r == Ok(joined) && db == db'
              case Err(e) => r == Err(e) && db == old(db)
    {
      if net !in db.networks { return Err(NoSuchNetwork); }
      if (net, device) in db.memberships {
        return Ok(Joined(db.memberships[(net, device)], true));
      }
      if singleNetwork {
        var count := |NetworksOf(db, device)|;
        if count > 0 { return Err(SingleNetworkOnly); }
      }
      var inserted := InsertMembershipTx(db, net, device, requested, None);
      if inserted.Err? { return Err(inserted.error); }
      db := inserted.value.0;
      return Ok(Joined(inserted.value.1, false));
    }

    method SetMembershipIpAtomic(net: NetId, device: DeviceId, ip: IpText, block: Block)
      returns (r: Result<(), Conflict>)
      modifies this
      ensures match SetIp(old(db), net, device, ip, block)
              case Ok(db') => r == Ok(()) && db == db'
              case Err(e) => r == Err(e) && db == old(db)
    {
      var used := CollectUsed(db, net, Some(device));
      var valid := ValidateManual(ip, block, used, None);
      if valid.Err? { return Err(BadAddress(valid.error)); }
      if (net, device) in db.memberships {
        db := db.(memberships := db.memberships[(net, device) := valid.value]);
      }
      return Ok(());
    }

    method RemoveMembershipGuarded(device: DeviceId, net: NetId) returns (r: Result<(), Conflict>)
      modifies this
      ensures match Leave(old(db), device, net)
              case Ok(db') => r == Ok(()) && db == db'
              case Err(e) => r == Err(e) && db == old(db)
    {
      if (net, device) in db.memberships && |NetworksOf(db, device)| > 1 {
        db := db.(memberships := db.memberships - {(net, device)});
        return Ok(());
      }
      if (net, device) !in db.memberships { return Err(NotAMember); }
      return Err(LastMembership);
    }

    method RemoveNetwork(net: NetId) returns (deleted: bool)
      modifies this
      ensures db == DeleteNetwork(old(db), net) && deleted == (net in old(db).networks)
    {
      deleted := net in db.networks;
      var tx := db.(memberships := map k | k in db.memberships && k.0 != net :: db.memberships[k]);
      tx := tx.(tokens := map t | t in tx.tokens && tx.tokens[t].netId != net :: tx.tokens[t]);
      tx := tx.(networks := tx.networks - {net});
      db := tx;
    }
  }
}
