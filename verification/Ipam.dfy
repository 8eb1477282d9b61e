/** IPv4 subnet arithmetic and address allocation. */
module Ipam {
  import opened Wrappers
  import opened Bits

  datatype Cidr = Cidr(network: u32, prefix: nat)

  function MaskOf(prefix: nat): u32
    requires prefix <= 32
  {
    WordSize32();
    if prefix == 0 then 0 else Shl(U32_MAX, 32 - prefix, 32)
  }

  function AndWord(a: u32, b: u32): u32 {
    AndAtMost(a, b);
    And(a, b)
  }

  lemma {:induction false} AndAtMost(a: nat, b: nat)
    ensures And(a, b) <= a
  {
    if a != 0 && b != 0 { AndAtMost(a / 2, b / 2); }
  }

  /** Host bits are masked away. */
  function NewCidr(network: u32, prefix: nat): Cidr
    requires prefix <= 32
  {
    Cidr(AndWord(network, MaskOf(prefix)), prefix)
  }

  predicate WellFormed(c: Cidr) {
    c.prefix <= 32 && AndWord(c.network, MaskOf(c.prefix)) == c.network
  }

  /** What parsing yields. */
  type Block = c: Cidr | WellFormed(c) witness Cidr(0, 0)

  function Broadcast(c: Cidr): u32
    requires c.prefix <= 32
  {
    WordSize32();
    OrBound(c.network, Not(MaskOf(c.prefix), 32), 32);
    Or(c.network, Not(MaskOf(c.prefix), 32))
  }

  function HostCount(c: Cidr): nat
    requires c.prefix <= 32
  {
    ShlOne(32 - c.prefix, 64);
    if c.prefix >= 31 then Shl(1, 32 - c.prefix, 64)
    else
      Pow2Monotone(2, 32 - c.prefix);
      Shl(1, 32 - c.prefix, 64) - 2
  }

  predicate Contains(c: Cidr, addr: u32)
    requires c.prefix <= 32
  {
    AndWord(addr, MaskOf(c.prefix)) == c.network
  }

  // ---------- what the bit arithmetic means ----------

  function BlockSize(prefix: nat): nat
    requires prefix <= 32
  {
    Pow2(32 - prefix)
  }

  lemma MaskValue(prefix: nat)
    requires prefix <= 32
    ensures MaskOf(prefix) == 0x1_0000_0000 - BlockSize(prefix)
  {
    WordSize32();
    var k := 32 - prefix;
    if prefix > 0 {
      Pow2Monotone(k, 31);
      assert Pow2(32) == 2 * Pow2(31);
      DivModUnique(U32_MAX * Pow2(k), Pow2(32), Pow2(k) - 1, Pow2(32) - Pow2(k));
    }
  }

  lemma MaskKeepsBlock(addr: u32, prefix: nat)
    requires prefix <= 32
    ensures AndWord(addr, MaskOf(prefix)) == addr - addr % BlockSize(prefix)
  {
    WordSize32();
    MaskValue(prefix);
    AndHighMask(addr, 32 - prefix, 32);
  }

  lemma NewIsWellFormed(network: u32, prefix: nat)
    requires prefix <= 32
    ensures WellFormed(NewCidr(network, prefix)) && Contains(NewCidr(network, prefix), network)
  {
    MaskKeepsBlock(network, prefix);
    var c := NewCidr(network, prefix);
    MaskKeepsBlock(c.network, prefix);
    AlignedStart(network, BlockSize(prefix));
  }

  lemma AlignedStart(x: nat, d: nat)
    requires d > 0
    ensures (x - x % d) % d == 0
  {
    var q := x / d;
    assert x - x % d == q * d + 0;
    DivModUnique(x - x % d, d, q, 0);
  }

  /** A block is the addresses from its network address on, one block size of them. */
  lemma BlockEnd(c: Cidr)
    requires WellFormed(c)
    ensures Broadcast(c) == c.network + BlockSize(c.prefix) - 1
  {
    var k := 32 - c.prefix;
    WordSize32();
    MaskKeepsBlock(c.network, c.prefix);
    MaskValue(c.prefix);
    OrLowOnes(c.network, k);
  }

  /** Membership by mask is membership in the interval from network to broadcast. */
  lemma ContainsIsRange(c: Cidr, addr: u32)
    requires WellFormed(c)
    ensures Contains(c, addr) <==> c.network <= addr <= Broadcast(c)
  {
    BlockEnd(c);
    MaskKeepsBlock(addr, c.prefix);
    MaskKeepsBlock(c.network, c.prefix);
    AlignedBlock(c.network, addr, BlockSize(c.prefix));
  }

  ghost predicate ShareAddress(a: Cidr, b: Cidr)
    requires WellFormed(a) && WellFormed(b)
  {
    exists x: u32 :: Contains(a, x) && Contains(b, x)
  }

  predicate Overlap(a: Cidr, b: Cidr)
    requires WellFormed(a) && WellFormed(b)
  {
    Contains(a, b.network) || Contains(b, a.network)
  }

  /** The two-way test of the overlap warning is exact. */
  lemma OverlapIffShared(a: Cidr, b: Cidr)
    requires WellFormed(a) && WellFormed(b)
    ensures Overlap(a, b) <==> ShareAddress(a, b)
  {
    BlockEnd(a);
    BlockEnd(b);
    ContainsIsRange(a, b.network);
    ContainsIsRange(b, a.network);
    ContainsIsRange(a, a.network);
    ContainsIsRange(b, b.network);
    if ShareAddress(a, b) {
      var x: u32 :| Contains(a, x) && Contains(b, x);
      ContainsIsRange(a, x);
      ContainsIsRange(b, x);
    }
  }

  /** The pairs of networks a node warns about: those that share an address. */
  method OverlapWarnings(cidrs: seq<Cidr>) returns (pairs: seq<(nat, nat)>)
    requires forall i :: 0 <= i < |cidrs| ==> WellFormed(cidrs[i])
    ensures forall i, j :: 0 <= i < j < |cidrs| ==> ((i, j) in pairs <==> ShareAddress(cidrs[i], cidrs[j]))
    ensures forall p :: p in pairs ==> p.0 < p.1 < |cidrs|
  {
    pairs := [];
    for i := 0 to |cidrs|
      invariant forall p :: p in pairs <==> p.0 < i && p.0 < p.1 < |cidrs| && Overlap(cidrs[p.0], cidrs[p.1])
    {
      for j := i + 1 to |cidrs|
        invariant forall p :: p in pairs <==>
          (p.0 < i || (p.0 == i && p.1 < j)) && p.0 < p.1 < |cidrs| && Overlap(cidrs[p.0], cidrs[p.1])
      {
        if Overlap(cidrs[i], cidrs[j]) {
          pairs := pairs + [(i, j)];
        }
      }
    }
    forall i, j | 0 <= i < j < |cidrs| ensures Overlap(cidrs[i], cidrs[j]) <==> ShareAddress(cidrs[i], cidrs[j]) {
      OverlapIffShared(cidrs[i], cidrs[j]);
    }
  }

  // ---------- allocation ----------

  /** The lowest address of `from .. end` that is not in use. */
  function LowestFree(from: u32, end: u32, used: set<u32>): (r: Option<u32>)
    requires from <= end
    ensures r.None? ==> forall x: u32 :: from <= x < end ==> x in used
    ensures r.Some? ==> from <= r.value < end && r.value !in used && forall x: u32 :: from <= x < r.value ==> x in used
    decreases end - from
  {
    if from == end then None
    else if from !in used then Some(from)
    else LowestFree(from + 1, end, used)
  }

  function Allocation(c: Cidr, used: set<u32>): Option<u32>
    requires WellFormed(c)
  {
    BlockEnd(c);
    if c.prefix >= 31 then None
    else
      Pow2Monotone(2, 32 - c.prefix);
      LowestFree(c.network + 1, Broadcast(c), used)
  }

  method Allocate(c: Cidr, used: set<u32>) returns (r: Option<u32>)
    requires WellFormed(c)
    ensures r == Allocation(c, used)
    ensures r.Some? ==> c.prefix <= 30 && c.network < r.value < Broadcast(c) && r.value !in used
                        && forall x: u32 :: c.network < x < r.value ==> x in used
    ensures r.None? ==> c.prefix >= 31 || forall x: u32 :: c.network < x < Broadcast(c) ==> x in used
  {
    AllocationIs(c, used, Allocation(c, used));
    if c.prefix >= 31 { return None; }
    BlockEnd(c);
    Pow2Monotone(2, 32 - c.prefix);
    var candidate: u32, end := c.network + 1, Broadcast(c);
    while candidate < end
      invariant candidate <= end
      invariant Allocation(c, used) == LowestFree(candidate, end, used)
    {
      if candidate !in used { return Some(candidate); }
      candidate := candidate + 1;
    }
    return None;
  }

  lemma HostCountIsInterior(c: Cidr)
    requires WellFormed(c) && c.prefix <= 30
    ensures HostCount(c) == Broadcast(c) - c.network - 1
  {
    BlockEnd(c);
    ShlOne(32 - c.prefix, 64);
  }

  /** The addresses handed out by `n` allocations from an empty network. */
  function AllocateMany(c: Cidr, n: nat): seq<u32>
    requires WellFormed(c)
  {
    if n == 0 then []
    else
      var earlier := AllocateMany(c, n - 1);
      match Allocation(c, set x | x in earlier)
      case None => earlier
      case Some(x) => earlier + [x]
  }

  /** They are the host addresses in increasing order, until none is left. */
  lemma {:induction false} AllocationOrder(c: Cidr, n: nat)
    requires WellFormed(c) && c.prefix <= 30
    ensures |AllocateMany(c, n)| == if n <= HostCount(c) then n else HostCount(c)
    ensures forall i :: 0 <= i < |AllocateMany(c, n)| ==> AllocateMany(c, n)[i] == c.network + 1 + i
  {
    if n > 0 {
      var earlier := AllocateMany(c, n - 1);
      AllocationOrder(c, n - 1);
      assert CountsUp(earlier, c.network + 1);
      NextInOrder(c, earlier);
      if |earlier| < HostCount(c) { CountsUpAppend(earlier, c.network + 1, c.network + 1 + |earlier|); }
    }
  }

  ghost predicate CountsUp(s: seq<u32>, first: nat) { forall i :: 0 <= i < |s| ==> s[i] == first + i }

  lemma CountsUpAppend(s: seq<u32>, first: nat, x: u32)
    requires CountsUp(s, first) && x == first + |s|
    ensures CountsUp(s + [x], first)
  {
  }

  lemma NextInOrder(c: Cidr, earlier: seq<u32>)
    requires WellFormed(c) && c.prefix <= 30 && |earlier| <= HostCount(c)
    requires CountsUp(earlier, c.network + 1)
    ensures Allocation(c, set x | x in earlier) ==
            if |earlier| < HostCount(c) then Some(c.network + 1 + |earlier|) else None
  {
    HostCountIsInterior(c);
    NextAllocation(c, earlier);
  }

  lemma NextAllocation(c: Cidr, earlier: seq<u32>)
    requires WellFormed(c) && c.prefix <= 30
    requires |earlier| <= Broadcast(c) - c.network - 1
    requires forall i :: 0 <= i < |earlier| ==> earlier[i] == c.network + 1 + i
    ensures Allocation(c, set x | x in earlier) ==
            if |earlier| < Broadcast(c) - c.network - 1 then Some(c.network + 1 + |earlier|) else None
  {
    BlockEnd(c);
    Pow2Monotone(2, 32 - c.prefix);
    var used := set x | x in earlier;
    var next := c.network + 1 + |earlier|;
    var r := Allocation(c, used);
    forall x: u32 | c.network + 1 <= x < next ensures x in used {
      assert earlier[x - (c.network + 1)] == x;
    }
    assert next !in used;
    if next < Broadcast(c) {
      assert r.Some? && r.value == next;
    }
  }

  // ---------- manual assignment ----------

  datatype ManualError = NotAnAddress | OutsideNetwork | NetworkAddress | BroadcastAddress | AlreadyUsed

  /** `requested` is the parsed text, if it parses. */
  function ValidateManual(requested: Option<u32>, c: Cidr, used: set<u32>, current: Option<u32>)
    : Result<u32, ManualError>
    requires c.prefix <= 32
  {
    match requested
    case None => Err(NotAnAddress)
    case Some(addr) =>
      if !Contains(c, addr) then Err(OutsideNetwork)
      else if addr == c.network then Err(NetworkAddress)
      else if c.prefix < 31 && addr == Broadcast(c) then Err(BroadcastAddress)
      else if Some(addr) != current && addr in used then Err(AlreadyUsed)
      else Ok(addr)
  }

  /** Strictly between network and broadcast address; /31 and /32 blocks also give out the last one. */
  predicate IsHost(c: Cidr, addr: u32)
    requires c.prefix <= 32
  {
    c.network < addr && (if c.prefix < 31 then addr < Broadcast(c) else addr <= Broadcast(c))
  }

  lemma ManualAccepts(requested: Option<u32>, c: Cidr, used: set<u32>, current: Option<u32>)
    requires WellFormed(c)
    ensures ValidateManual(requested, c, used, current).Ok? <==>
            requested.Some? && IsHost(c, requested.value) && (requested == current || requested.value !in used)
    ensures ValidateManual(requested, c, used, current).Ok? ==>
            ValidateManual(requested, c, used, current).value == requested.value
  {
    if requested.Some? { ContainsIsRange(c, requested.value); }
  }

  /** The reason of a refusal: no address, outside of the block, one of its two ends, or in use. */
  lemma ManualRefuses(requested: Option<u32>, c: Cidr, used: set<u32>, current: Option<u32>)
    requires WellFormed(c)
    ensures var r := ValidateManual(requested, c, used, current);
            && (r == Err(NotAnAddress) <==> requested.None?)
            && (requested.Some? ==>
                  var a := requested.value;
                  && (r == Err(OutsideNetwork) <==> a < c.network || a > Broadcast(c))
                  && (r == Err(NetworkAddress) <==> a == c.network)
                  && (r == Err(BroadcastAddress) <==> c.prefix <= 30 && a == Broadcast(c))
                  && (r == Err(AlreadyUsed) <==> IsHost(c, a) && requested != current && a in used))
  {
    BlockEnd(c);
    Pow2Monotone(0, 32 - c.prefix);
    if c.prefix <= 30 { Pow2Monotone(2, 32 - c.prefix); }
    if requested.Some? { ContainsIsRange(c, requested.value); }
  }

  /** The lowest free host is given out; nothing if there is none or the block is a /31 or /32. */
  lemma AllocationIs(c: Cidr, used: set<u32>, r: Option<u32>)
    requires WellFormed(c)
    ensures Allocation(c, used) == r <==>
            match r
            case Some(a) => c.prefix <= 30 && c.network < a < Broadcast(c) && a !in used
                            && forall x: u32 :: c.network < x < a ==> x in used
            case None => c.prefix >= 31 || forall x: u32 :: c.network < x < Broadcast(c) ==> x in used
  {
    BlockEnd(c);
    if c.prefix <= 30 {
      Pow2Monotone(2, 32 - c.prefix);
      LowestFreeIs(c.network + 1, Broadcast(c), used, r);
    }
  }

  lemma LowestFreeIs(from: u32, end: u32, used: set<u32>, r: Option<u32>)
    requires from <= end
    ensures LowestFree(from, end, used) == r <==>
            match r
            case Some(a) => from <= a < end && a !in used && forall x: u32 :: from <= x < a ==> x in used
            case None => forall x: u32 :: from <= x < end ==> x in used
  {
    var s := LowestFree(from, end, used);
    if s.Some? && r.Some? && s != r {
      assert s.value < r.value ==> s.value !in used;
      assert r.value < s.value && r.value >= from ==> r.value in used;
    }
  }

  lemma AllocationGivesFreeHost(c: Cidr, used: set<u32>)
    requires WellFormed(c) && Allocation(c, used).Some?
    ensures IsHost(c, Allocation(c, used).value) && Allocation(c, used).value !in used
  {
  }
}
