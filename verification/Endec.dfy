/** Little-endian integers on the wire. */
module Endec {
  import opened Wrappers

  type Bytes = seq<u8>

  function Pow256(n: nat): (p: nat)
    ensures p >= 1
  {
    if n == 0 then 1 else 256 * Pow256(n - 1)
  }

  /** The low `n` bytes of `v`, least significant first. */
  function ToLe(v: nat, n: nat): (b: Bytes)
    ensures |b| == n
  {
    if n == 0 then [] else [v % 256] + ToLe(v / 256, n - 1)
  }

  function FromLe(b: Bytes): (v: nat)
    ensures v < Pow256(|b|)
  {
    if b == [] then 0 else b[0] + 256 * FromLe(b[1..])
  }

  lemma {:induction false} ToLeFromLe(b: Bytes)
    ensures ToLe(FromLe(b), |b|) == b
  {
    if b != [] {
      ToLeFromLe(b[1..]);
      assert FromLe(b) / 256 == FromLe(b[1..]) && FromLe(b) % 256 == b[0];
    }
  }

  lemma {:induction false} FromLeToLe(v: nat, n: nat)
    requires v < Pow256(n)
    ensures FromLe(ToLe(v, n)) == v
  {
    if n > 0 {
      FromLeToLe(v / 256, n - 1);
      assert ToLe(v, n)[1..] == ToLe(v / 256, n - 1);
    }
  }

  function ReadU32Le(b: Bytes): (v: u32)
    requires |b| >= 4
  {
    assert Pow256(4) == 0x1_0000_0000;
    FromLe(b[..4])
  }

  function WriteU32Le(v: u32): (b: Bytes)
    ensures |b| == 4 && ReadU32Le(b) == v
  {
    FromLeToLe(v, 4);
    assert ToLe(v, 4)[..4] == ToLe(v, 4);
    ToLe(v, 4)
  }

  function FourBytes(a: nat, b: nat, c: nat, d: nat): nat { a + 0x100 * b + 0x1_0000 * c + 0x100_0000 * d }

  /** The first byte counts least. */
  lemma ReadU32Is(b: Bytes)
    requires |b| >= 4
    ensures ReadU32Le(b) == FourBytes(b[0], b[1], b[2], b[3])
  {
    var s := b[..4];
    assert s[1..][1..] == s[2..] && s[2..][1..] == s[3..] && s[3..][1..] == [];
    assert FromLe(s) == s[0] as nat + 256 * FromLe(s[1..]);
    assert FromLe(s[1..]) == s[1] as nat + 256 * FromLe(s[2..]);
    assert FromLe(s[2..]) == s[2] as nat + 256 * FromLe(s[3..]);
    assert FromLe(s[3..]) == s[3] as nat + 256 * FromLe([]);
  }

  lemma Pow256Eight()
    ensures Pow256(8) == U64_MAX + 1
  {
    assert Pow256(4) == 0x1_0000_0000;
  }

  function ReadU64Le(b: Bytes): (v: u64)
    requires |b| >= 8
  {
    Pow256Eight();
    FromLe(b[..8])
  }

  function WriteU64Le(v: u64): (b: Bytes)
    ensures |b| == 8 && ReadU64Le(b) == v
  {
    Pow256Eight();
    FromLeToLe(v, 8);
    assert ToLe(v, 8)[..8] == ToLe(v, 8);
    ToLe(v, 8)
  }
}
