/** What each transaction of the membership store does to the rows, and when it is refused. */
module MembershipRules {
  import opened Wrappers
  import opened Ipam
  import opened Membership
  import opened MembershipLaws

  // ---------- tokens ----------

  /** The token is there, has not expired, has a use left, and its network is there. */
  predicate TokenGood(db: Db, token: string, now: int) {
    && token in db.tokens && db.tokens[token].expiresAt >= now && db.tokens[token].usesLeft > 0
    && db.tokens[token].netId in db.networks
  }

  /** Enrolling and joining are refused for their token in this order: missing, expired, used up, without network. */
  lemma TokenRefusals(db: Db, now: int, token: string, requested: Option<IpText>, device: DeviceId)
    ensures var there := token in db.tokens;
            var current := there && db.tokens[token].expiresAt >= now;
            var usable := current && db.tokens[token].usesLeft > 0;
            var enrolled, joined := Enroll(db, now, token, requested, device), Join(db, now, device, token, requested);
            && (enrolled.Ok? || joined.Ok? ==> TokenGood(db, token, now))
            && (enrolled == Err(NoSuchToken) <==> !there) && (joined == Err(NoSuchToken) <==> !there)
            && (enrolled == Err(TokenExpired) <==> there && !current)
            && (joined == Err(TokenExpired) <==> there && !current)
            && (enrolled == Err(TokenUsedUp) <==> current && !usable)
            && (joined == Err(TokenUsedUp) <==> current && !usable)
            && (enrolled == Err(NoSuchNetwork) <==> usable && db.tokens[token].netId !in db.networks)
            && (joined == Err(NoSuchNetwork) <==> usable && db.tokens[token].netId !in db.networks)
  {
    EnrollPassesOn(db, now, token, requested, device);
    JoinPassesOn(db, now, token, requested, device);
  }

  predicate OfToken(e: Conflict) { e == NoSuchToken || e == TokenExpired || e == TokenUsedUp || e == NoSuchNetwork }

  lemma EnrollPassesOn(db: Db, now: int, token: string, requested: Option<IpText>, device: DeviceId)
    ensures var check, r := CheckToken(db, token, now), Enroll(db, now, token, requested, device);
            if check.Err? then r == Err(check.error) else r.Err? ==> !OfToken(r.error)
  {
  }

  lemma JoinPassesOn(db: Db, now: int, token: string, requested: Option<IpText>, device: DeviceId)
    ensures var check, r := CheckToken(db, token, now), Join(db, now, device, token, requested);
            if check.Err? then r == Err(check.error) else r.Err? ==> !OfToken(r.error)
  {
  }

  /** The time of an operation that makes a membership through `token`, if it is one. */
  function UsesTokenAt(op: Op, token: string): Option<int> {
    match op
    case OpEnroll(now, t, _, _) => if t == token then Some(now) else None
    case OpJoin(now, _, t, _) => if t == token then Some(now) else None
    case OpAdminJoin(_, _, _, _) => None
    case OpSetIp(_, _, _, _) => None
    case OpLeave(_, _) => None
    case OpDeleteDevice(_) => None
    case OpDeleteNetwork(_) => None
    case OpCreateNetwork(_, _) => None
    case OpCreateToken(_, _, _, _, _) => None
    case OpDeleteToken(_) => None
  }

  lemma MadeOnlyBy(w: World, op: Op, token: string)
    requires Count(Do(w, op).made, token) > Count(w.made, token)
    ensures token in w.db.tokens && UsesTokenAt(op, token).Some?
    ensures UsesTokenAt(op, token).value <= w.db.tokens[token].expiresAt
  {
  }

  /** Over any run: a membership made through a token is made by an operation no later than the token's expiry. */
  lemma MadeBeforeExpiry(ops: seq<Op>, k: nat, token: string)
    requires k < |ops|
    requires Count(DoAll(EMPTY, ops[..k + 1]).made, token) > Count(DoAll(EMPTY, ops[..k]).made, token)
    ensures var db := DoAll(EMPTY, ops[..k]).db;
            && token in db.tokens && UsesTokenAt(ops[k], token).Some?
            && UsesTokenAt(ops[k], token).value <= db.tokens[token].expiresAt
  {
    assert ops[..k + 1][..k] == ops[..k];
    MadeOnlyBy(DoAll(EMPTY, ops[..k]), ops[k], token);
  }

  /** And the expiry of a token never changes while it is there. */
  lemma ExpiryStays(w: World, op: Op, token: string)
    requires token in w.db.tokens && token in Do(w, op).db.tokens
    ensures Do(w, op).db.tokens[token].expiresAt == w.db.tokens[token].expiresAt
    ensures Do(w, op).db.tokens[token].netId == w.db.tokens[token].netId
    ensures Do(w, op).db.tokens[token].requestedIp == w.db.tokens[token].requestedIp
  {
  }

  // ---------- addresses ----------

  /**
    `ip` is what was asked for, or else what the token asks for, or else the lowest free
    host; in any case a free host.
   */
  ghost predicate Chosen(block: Block, used: set<u32>, requested: Option<IpText>, fallback: Option<IpText>, ip: u32) {
    && IsHost(block, ip) && ip !in used
    && if requested.Some? then requested.value == Some(ip)
       else if fallback.Some? then fallback.value == Some(ip)
       else block.prefix <= 30 && forall x: u32 :: block.network < x < ip ==> x in used
  }

  lemma ChosenIff(block: Block, used: set<u32>, requested: Option<IpText>, fallback: Option<IpText>, ip: u32)
    ensures ChooseAddress(block, used, requested, fallback) == Ok(ip) <==> Chosen(block, used, requested, fallback, ip)
  {
    var wish := if requested.Some? then requested else fallback;
    if wish.Some? {
      ManualAccepts(wish.value, block, used, None);
    } else {
      AllocationIs(block, used, Some(ip));
      AllocationIs(block, used, None);
    }
  }

  ghost predicate InUse(db: Db, net: NetId, ip: u32) {
    exists k :: k in db.memberships && k.0 == net && db.memberships[k] == ip
  }

  lemma UsedIsInUse(db: Db, net: NetId)
    ensures forall ip: u32 :: ip in UsedIn(db, net) <==> InUse(db, net, ip)
  {
  }

  // ---------- enrolling and joining ----------

  /** One use less of the token. */
  function Paid(db: Db, token: string): map<string, Token>
    requires token in db.tokens
  {
    db.tokens[token := db.tokens[token].(usesLeft := db.tokens[token].usesLeft - 1)]
  }

  /** A successful enrollment: device, membership with the chosen address, and payment, and nothing else. */
  lemma EnrollIs(db: Db, now: int, token: string, requested: Option<IpText>, device: DeviceId)
    requires Enroll(db, now, token, requested, device).Ok?
    ensures var (db', ip) := Enroll(db, now, token, requested, device).value;
            && TokenGood(db, token, now) && device !in db.devices
            && var net := db.tokens[token].netId;
            && db.networks[net].Some?
            && Chosen(db.networks[net].value, UsedIn(db, net), requested, db.tokens[token].requestedIp, ip)
            && db' == Db(db.networks, db.devices + {device}, Paid(db, token), db.memberships[(net, device) := ip])
  {
    var net := db.tokens[token].netId;
    var ip := Enroll(db, now, token, requested, device).value.1;
    ChosenIff(db.networks[net].value, UsedIn(db, net), requested, db.tokens[token].requestedIp, ip);
  }

  /** It succeeds for a good token whenever there is an address to choose and the device number is new. */
  lemma EnrollSucceeds(db: Db, now: int, token: string, requested: Option<IpText>, device: DeviceId, ip: u32)
    requires TokenGood(db, token, now) && device !in db.devices && db.networks[db.tokens[token].netId].Some?
    requires (db.tokens[token].netId, device) !in db.memberships
    requires var net := db.tokens[token].netId;
             Chosen(db.networks[net].value, UsedIn(db, net), requested, db.tokens[token].requestedIp, ip)
    ensures Enroll(db, now, token, requested, device).Ok?
  {
    var net := db.tokens[token].netId;
    ChosenIff(db.networks[net].value, UsedIn(db, net), requested, db.tokens[token].requestedIp, ip);
    assert UsedIn(db.(devices := db.devices + {device}), net) == UsedIn(db, net);
  }

  /** Joining by token: an existing membership is returned as it is; a new one is chosen, entered and paid for. */
  lemma JoinIs(db: Db, now: int, device: DeviceId, token: string, requested: Option<IpText>)
    requires Join(db, now, device, token, requested).Ok?
    ensures var (db', joined) := Join(db, now, device, token, requested).value;
            && TokenGood(db, token, now)
            && var net := db.tokens[token].netId;
            && (joined.alreadyMember <==> (net, device) in db.memberships)
            && if joined.alreadyMember then db' == db && joined.ip == db.memberships[(net, device)]
               else && db.networks[net].Some?
                    && Chosen(db.networks[net].value, UsedIn(db, net), requested,
                              db.tokens[token].requestedIp, joined.ip)
                    && db' == Db(db.networks, db.devices, Paid(db, token), db.memberships[(net, device) := joined.ip])
  {
    var net := db.tokens[token].netId;
    var ip := Join(db, now, device, token, requested).value.1.ip;
    if (net, device) !in db.memberships {
      ChosenIff(db.networks[net].value, UsedIn(db, net), requested, db.tokens[token].requestedIp, ip);
    }
  }

  /** A forced join: no token, no address of a token, and the rule of the single network is checked on the rows. */
  lemma AdminJoinIs(db: Db, device: DeviceId, net: NetId, requested: Option<IpText>, single: bool)
    ensures var r := AdminJoin(db, device, net, requested, single);
            && (r == Err(NoSuchNetwork) <==> net !in db.networks)
            && (r == Err(SingleNetworkOnly) <==>
                  && net in db.networks && single && (net, device) !in db.memberships
                  && exists k :: k in db.memberships && k.1 == device)
            && (r.Ok? ==>
                  var (db', joined) := r.value;
                  && net in db.networks && (joined.alreadyMember <==> (net, device) in db.memberships)
                  && if joined.alreadyMember then db' == db && joined.ip == db.memberships[(net, device)]
                     else && db.networks[net].Some?
                          && Chosen(db.networks[net].value, UsedIn(db, net), requested, None, joined.ip)
                          && db' == Db(db.networks, db.devices, db.tokens, db.memberships[(net, device) := joined.ip]))
  {
    HasNetworks(db, device);
    var r := AdminJoin(db, device, net, requested, single);
    if r.Ok? && (net, device) !in db.memberships {
      ChosenIff(db.networks[net].value, UsedIn(db, net), requested, None, r.value.1.ip);
    }
  }

  /** Joins succeed whenever there is an address to choose. */
  lemma JoinsSucceed(db: Db, now: int, device: DeviceId, token: string, net: NetId, requested: Option<IpText>, ip: u32)
    requires net in db.networks && db.networks[net].Some? && (net, device) !in db.memberships
    ensures TokenGood(db, token, now) && db.tokens[token].netId == net
            && Chosen(db.networks[net].value, UsedIn(db, net), requested, db.tokens[token].requestedIp, ip)
            ==> Join(db, now, device, token, requested).Ok?
    ensures Chosen(db.networks[net].value, UsedIn(db, net), requested, None, ip)
            ==> AdminJoin(db, device, net, requested, false).Ok?
  {
    ChosenIff(db.networks[net].value, UsedIn(db, net), requested, None, ip);
    if token in db.tokens {
      ChosenIff(db.networks[net].value, UsedIn(db, net), requested, db.tokens[token].requestedIp, ip);
    }
  }

  /** Joining again: the membership is returned, and nothing is paid or changed. */
  lemma JoinsAgain(db: Db, now: int, device: DeviceId, token: string, net: NetId, requested: Option<IpText>,
                   single: bool)
    requires (net, device) in db.memberships
    ensures var again := Ok((db, Joined(db.memberships[(net, device)], true)));
            && (TokenGood(db, token, now) && db.tokens[token].netId == net ==>
                  Join(db, now, device, token, requested) == again)
            && (net in db.networks ==> AdminJoin(db, device, net, requested, single) == again)
  {
  }

  /** Why there is no address: the wish is refused for its reason, or the pool is exhausted. */
  lemma AddressRefusals(block: Block, used: set<u32>, requested: Option<IpText>, fallback: Option<IpText>)
    ensures var r := ChooseAddress(block, used, requested, fallback);
            var wish := if requested.Some? then requested else fallback;
            r.Err? ==> r.error == if wish.Some? then BadAddress(ValidateManual(wish.value, block, used, None).error)
                                  else PoolExhausted
  {
  }

  /**
    Why a new membership is refused although the token is good: the network's block, the
    address, the device number.
   */
  lemma EntryRefusals(db: Db, now: int, token: string, requested: Option<IpText>, device: DeviceId)
    requires TokenGood(db, token, now)
    ensures var net := db.tokens[token].netId;
            var enrolled, joined := Enroll(db, now, token, requested, device), Join(db, now, device, token, requested);
            && (db.networks[net].None? ==> enrolled == Err(BadCidr))
            && (db.networks[net].None? && (net, device) !in db.memberships ==> joined == Err(BadCidr))
            && (db.networks[net].Some? ==>
                  var chosen :=
                    ChooseAddress(db.networks[net].value, UsedIn(db, net), requested, db.tokens[token].requestedIp);
                  && (chosen.Err? ==> enrolled == Err(chosen.error))
                  && (chosen.Err? && (net, device) !in db.memberships ==> joined == Err(chosen.error))
                  && (chosen.Ok? && device in db.devices ==> enrolled == Err(ConstraintViolation)))
  {
  }

  lemma HasNetworks(db: Db, device: DeviceId)
    ensures NetworksOf(db, device) != {} <==> exists k :: k in db.memberships && k.1 == device
  {
    if k :| k in db.memberships && k.1 == device { assert k.0 in NetworksOf(db, device); }
  }

  // ---------- changing and leaving ----------

  /**
    An address change is accepted iff the address is a host that no other member has; it is
    stored if the row is there.
   */
  lemma SetIpIs(db: Db, net: NetId, device: DeviceId, ip: IpText, block: Block)
    ensures var r := SetIp(db, net, device, ip, block);
            && (r.Ok? <==> ip.Some? && IsHost(block, ip.value)
                           && forall k :: k in db.memberships && k.0 == net && k.1 != device ==>
                                  db.memberships[k] != ip.value)
            && (r.Ok? && (net, device) in db.memberships ==>
                  r.value == db.(memberships := db.memberships[(net, device) := ip.value]))
            && (r.Ok? && (net, device) !in db.memberships ==> r.value == db)
  {
    ManualAccepts(ip, block, UsedByOthers(db, net, device), None);
    if ip.Some? { OthersIs(db, net, device, ip.value); }
  }

  lemma OthersIs(db: Db, net: NetId, device: DeviceId, ip: u32)
    ensures ip in UsedByOthers(db, net, device) <==>
            exists k :: k in db.memberships && k.0 == net && k.1 != device && db.memberships[k] == ip
  {
  }

  /** Leaving takes one row away, and is refused for a stranger and for the last network. */
  lemma LeaveIs(db: Db, device: DeviceId, net: NetId)
    ensures var r := Leave(db, device, net);
            && (r == Err(NotAMember) <==> (net, device) !in db.memberships)
            && (r.Ok? <==> (net, device) in db.memberships
                           && exists other :: other != net && (other, device) in db.memberships)
            && (r.Ok? ==> r.value == db.(memberships := db.memberships - {(net, device)}))
            && (r.Err? ==> r.error in {NotAMember, LastMembership})
  {
    if (net, device) in db.memberships { OtherNetworkIff(db, device, net); }
  }

  lemma OtherNetworkIff(db: Db, device: DeviceId, net: NetId)
    requires (net, device) in db.memberships
    ensures |NetworksOf(db, device)| > 1 <==> exists other :: other != net && (other, device) in db.memberships
  {
    var nets := NetworksOf(db, device);
    assert (net, device) in db.memberships && net in nets;
    if |nets| > 1 {
      assert |nets - {net}| >= 1;
      var other :| other in nets - {net};
      assert (other, device) in db.memberships;
    }
    if other :| other != net && (other, device) in db.memberships {
      assert other in nets;
      assert {net, other} <= nets;
      TwoInside(nets, net, other);
    }
  }

  lemma TwoInside(s: set<NetId>, a: NetId, b: NetId)
    requires a in s && b in s && a != b
    ensures |s| > 1
  {
    assert |s - {a}| > 0 by { assert b in s - {a}; }
  }

  // ---------- deleting ----------

  /** Deleting a device or a network takes exactly its rows, and with a network its tokens. */
  lemma DeletionsAre(db: Db, device: DeviceId, net: NetId)
    ensures var a, b := DeleteDevice(db, device), DeleteNetwork(db, net);
            && a.devices == db.devices - {device} && a.networks == db.networks && a.tokens == db.tokens
            && (forall k :: k in a.memberships <==> k in db.memberships && k.1 != device)
            && (forall k :: k in a.memberships ==> a.memberships[k] == db.memberships[k])
            && b.networks == db.networks - {net} && b.devices == db.devices
            && (forall k :: k in b.memberships <==> k in db.memberships && k.0 != net)
            && (forall k :: k in b.memberships ==> b.memberships[k] == db.memberships[k])
            && (forall t :: t in b.tokens <==> t in db.tokens && db.tokens[t].netId != net)
            && (forall t :: t in b.tokens ==> b.tokens[t] == db.tokens[t])
  {
  }

  // ---------- the steps of a run ----------

  /** A transaction that fails changes nothing; one that succeeds leaves its tables. */
  lemma TransactionSteps(w: World, op: Op)
    ensures op.OpSetIp? ==>
              Do(w, op) == match SetIp(w.db, op.net, op.device, op.ip, op.block)
                           case Ok(db') => World(db', w.granted, w.made)
                           case Err(_) => w
    ensures op.OpLeave? ==>
              Do(w, op) == match Leave(w.db, op.device, op.net)
                           case Ok(db') => World(db', w.granted, w.made)
                           case Err(_) => w
    ensures op.OpAdminJoin? ==>
              Do(w, op) == match AdminJoin(w.db, op.device, op.net, op.requested, op.singleNetwork)
                           case Ok(r) => World(r.0, w.granted, w.made)
                           case Err(_) => w
    ensures op.OpEnroll? ==>
              match Enroll(w.db, op.now, op.token, op.requested, op.device)
              case Ok(r) => Do(w, op) == World(r.0, w.granted, w.made[op.token := Count(w.made, op.token) + 1])
              case Err(_) => Do(w, op) == w
    ensures op.OpJoin? ==>
              match Join(w.db, op.now, op.device, op.token, op.requested)
              case Ok(r) => Do(w, op).db == r.0 && Do(w, op).granted == w.granted
                            && Count(Do(w, op).made, op.token) ==
                               Count(w.made, op.token) + if r.1.alreadyMember then 0 else 1
              case Err(_) => Do(w, op) == w
  {
  }

  /** Networks and tokens are created once, and what is deleted is gone. */
  lemma AdministrationSteps(w: World, op: Op)
    ensures op.OpDeleteDevice? ==> Do(w, op).db == DeleteDevice(w.db, op.device)
    ensures op.OpDeleteNetwork? ==> Do(w, op).db == DeleteNetwork(w.db, op.net)
    ensures op.OpDeleteToken? ==> Do(w, op).db == w.db.(tokens := w.db.tokens - {op.token})
    ensures op.OpCreateNetwork? ==>
              Do(w, op).db == if op.net in w.db.networks then w.db
                              else Db(w.db.networks[op.net := op.cidr], w.db.devices, w.db.tokens, w.db.memberships)
    ensures op.OpCreateToken? ==>
              Do(w, op).db == if op.token in w.db.tokens then w.db
                              else w.db.(tokens := w.db.tokens[op.token :=
                                    Token(op.net, op.uses, op.expiresAt, op.requestedIp)])
  {
  }
}
