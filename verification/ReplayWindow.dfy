/**
  The anti-replay window: what it means on histories of accepted counters,
  and the 128-bit shifting bitmap that implements it.
 */
module ReplayWindow {
  import opened Wrappers
  import opened Bits

  const WINDOW_BITS: nat := 128

  // ---------- meaning: the history of accepted counters ----------

  /** The counters accepted so far, oldest first. */
  type History = seq<u64>

  function Max(h: History): u64
    requires h != []
  {
    var last := h[|h| - 1];
    if |h| == 1 then last
    else
      var m := Max(h[..|h| - 1]);
      if m < last then last else m
  }

  lemma {:induction false} MaxIsMax(h: History)
    requires h != []
    ensures Max(h) in h && forall c :: c in h ==> c <= Max(h)
  {
    if |h| > 1 {
      var rest, last := h[..|h| - 1], h[|h| - 1];
      MaxIsMax(rest);
      assert h == rest + [last];
    }
  }

  /** Not more than 127 behind the highest counter of `h`. */
  predicate InWindow(h: History, c: u64) {
    h == [] || Max(h) < c + WINDOW_BITS
  }

  /** The rule the bitmap has to implement, on the whole history. */
  predicate Accepts(h: History, c: u64) {
    h == [] || c > Max(h) || (InWindow(h, c) && c !in h)
  }

  function Extend(h: History, c: u64): History {
    if Accepts(h, c) then h + [c] else h
  }

  /** The loss counter as the accepted counters charge and refund it. */
  function LostOf(h: History): u64 {
    if |h| <= 1 then 0
    else
      var rest, c := h[..|h| - 1], h[|h| - 1];
      if c > Max(rest) then SaturatingAdd(LostOf(rest), c - Max(rest) - 1)
      else SaturatingSub(LostOf(rest), 1)
  }

  /** What the window has accepted after the counters `arrivals`, replays included. */
  function Run(arrivals: seq<u64>): History {
    if arrivals == [] then []
    else Extend(Run(arrivals[..|arrivals| - 1]), arrivals[|arrivals| - 1])
  }

  ghost predicate Distinct(h: History) {
    forall i, j :: 0 <= i < j < |h| ==> h[i] != h[j]
  }

  // ---------- the bitmap ----------

  class ReplayWindow {
    var bitmap: u128
    var highest: u64
    var initialized: bool
    var seenTotal: nat
    var lostTotal: u64
    ghost var History: History

    ghost predicate Valid()
      reads this
    {
      Models(bitmap, highest, initialized, seenTotal, lostTotal, History)
    }

    constructor ()
      ensures Valid() && History == []
    {
      bitmap, highest, initialized, seenTotal, lostTotal := 0, 0, false, 0, 0;
      History := [];
    }

    method Reset()
      modifies this
      ensures Valid() && History == []
    {
      bitmap, highest, initialized, seenTotal, lostTotal := 0, 0, false, 0, 0;
      History := [];
    }

    method Stats() returns (seen: nat, lost: u64)
      requires Valid()
      ensures seen == |History| && lost == LostOf(History)
    {
      return seenTotal, lostTotal;
    }

    method CheckAndSet(counter: u64) returns (accepted: bool)
      requires Valid()
      modifies this
      ensures Valid()
      ensures accepted == Accepts(old(History), counter)
      ensures History == Extend(old(History), counter)
    {
      if !initialized {
        FirstFrame(counter);
        initialized, highest, bitmap := true, counter, 1;
        seenTotal := seenTotal + 1;
        History := [counter];
        accepted := true;
      } else if counter > highest {
        AdvanceTo(counter);
        accepted := true;
      } else {
        accepted := CheckLate(counter);
      }
    }

    method AdvanceTo(counter: u64)
      requires Valid() && initialized && counter > highest
      modifies this
      ensures Valid()
      ensures Accepts(old(History), counter) && History == Extend(old(History), counter)
    {
      Advance(bitmap, highest, seenTotal, lostTotal, History, counter);
      var delta := counter - highest;
      lostTotal := SaturatingAdd(lostTotal, delta - 1);
      if delta >= WINDOW_BITS {
        bitmap := 1;
      } else {
        bitmap := OrWord(ShiftLeft(bitmap, delta), 1);
      }
      highest := counter;
      seenTotal := seenTotal + 1;
      History := History + [counter];
    }

    method CheckLate(counter: u64) returns (accepted: bool)
      requires Valid() && initialized && counter <= highest
      modifies this
      ensures Valid()
      ensures accepted == Accepts(old(History), counter) && History == Extend(old(History), counter)
    {
      var offset := highest - counter;
      if offset >= WINDOW_BITS {
        StaleFrame(bitmap, highest, seenTotal, lostTotal, History, counter);
        return false;
      }
      LateFrame(bitmap, highest, seenTotal, lostTotal, History, counter);
      var bit := ShiftLeft(1, offset);
      if And(bitmap, bit) != 0 {
        return false;
      }
      bitmap := OrWord(bitmap, bit);
      lostTotal := SaturatingSub(lostTotal, 1);
      seenTotal := seenTotal + 1;
      History := History + [counter];
      return true;
    }
  }

  /** The fields stand for the history `h`. */
  ghost predicate Models(bitmap: u128, highest: u64, initialized: bool, seen: nat, lost: u64, h: History) {
    && initialized == (h != [])
    && seen == |h|
    && lost == LostOf(h)
    && (initialized ==> highest == Max(h) && Mirrors(bitmap, highest, h))
  }

  /** Bit `i` of the map stands for the counter `i` behind the highest. */
  ghost predicate Mirrors(bitmap: u128, highest: u64, h: History) {
    forall i :: 0 <= i < WINDOW_BITS ==>
      (Bit(bitmap, i) <==> i <= highest && highest - i in h)
  }

  function ShiftLeft(x: u128, k: nat): u128 {
    WordSize128();
    Shl(x, k, 128)
  }

  function OrWord(x: u128, y: u128): u128 {
    WordSize128();
    OrBound(x, y, 128);
    Or(x, y)
  }

  lemma OneBit(k: nat)
    requires k < 128
    ensures ShiftLeft(1, k) == Pow2(k)
  {
    WordSize128();
    Pow2Monotone(k + 1, 128);
  }

  lemma AppendMax(h: History, c: u64)
    requires h != []
    ensures Max(h + [c]) == if c > Max(h) then c else Max(h)
  {
    assert (h + [c])[..|h|] == h;
  }

  lemma AppendLost(h: History, c: u64)
    requires h != []
    ensures LostOf(h + [c]) ==
            if c > Max(h) then SaturatingAdd(LostOf(h), c - Max(h) - 1) else SaturatingSub(LostOf(h), 1)
  {
    assert (h + [c])[..|h|] == h;
  }

  lemma FirstFrame(c: u64)
    ensures Extend([], c) == [c] && Accepts([], c)
    ensures Models(1, c, true, 1, 0, [c])
  {
    FirstBit(c);
  }

  lemma Advance(bitmap: u128, highest: u64, seen: nat, lost: u64, h: History, c: u64)
    requires Models(bitmap, highest, true, seen, lost, h) && c > highest
    ensures Accepts(h, c) && Extend(h, c) == h + [c]
    ensures var shifted := if c - highest >= WINDOW_BITS then 1 else OrWord(ShiftLeft(bitmap, c - highest), 1);
            Models(shifted, c, true, seen + 1, SaturatingAdd(lost, c - highest - 1), h + [c])
  {
    AppendMax(h, c);
    AppendLost(h, c);
    JumpBits(bitmap, highest, c, h);
  }

  lemma StaleFrame(bitmap: u128, highest: u64, seen: nat, lost: u64, h: History, c: u64)
    requires Models(bitmap, highest, true, seen, lost, h) && c + WINDOW_BITS <= highest
    ensures !Accepts(h, c) && Extend(h, c) == h
  {
  }

  lemma LateFrame(bitmap: u128, highest: u64, seen: nat, lost: u64, h: History, c: u64)
    requires Models(bitmap, highest, true, seen, lost, h) && c <= highest < c + WINDOW_BITS
    ensures And(bitmap, ShiftLeft(1, highest - c)) == 0 <==> Accepts(h, c)
    ensures Extend(h, c) == if Accepts(h, c) then h + [c] else h
    ensures Models(OrWord(bitmap, ShiftLeft(1, highest - c)), highest, true, seen + 1, SaturatingSub(lost, 1), h + [c])
  {
    AppendMax(h, c);
    AppendLost(h, c);
    OneBit(highest - c);
    MaskTestsBit(bitmap, highest - c);
    MarkBit(bitmap, highest, highest - c, h);
  }

  lemma FirstBit(c: u64)
    ensures Mirrors(1, c, [c])
  {
    forall i | 0 <= i < WINDOW_BITS ensures Bit(1, i) == (i == 0) {
      BitOfPow2(0, i);
    }
  }

  /** Moving the high-water mark: shift inside the window, start afresh beyond it. */
  lemma JumpBits(bitmap: u128, highest: u64, counter: u64, h: History)
    requires h != [] && highest == Max(h) && Mirrors(bitmap, highest, h)
    requires counter > highest
    ensures counter - highest >= WINDOW_BITS ==> Mirrors(1, counter, h + [counter])
    ensures counter - highest < WINDOW_BITS ==>
      Mirrors(OrWord(ShiftLeft(bitmap, counter - highest), 1), counter, h + [counter])
  {
    MaxIsMax(h);
    var delta := counter - highest;
    var shifted := ShiftLeft(bitmap, delta);
    forall i | 0 <= i < WINDOW_BITS
      ensures Bit(1, i) == (i == 0)
      ensures Bit(OrWord(shifted, 1), i) == (i == 0 || (delta <= i && Bit(bitmap, i - delta)))
      ensures i <= counter && counter - i in h + [counter] <==> i == 0 || (delta <= i <= counter && counter - i in h)
    {
      BitOfPow2(0, i);
      BitOfOr(shifted, 1, i);
      BitOfShl(bitmap, delta, 128, i);
    }
  }

  lemma MarkBit(bitmap: u128, highest: u64, k: nat, h: History)
    requires h != [] && highest == Max(h) && Mirrors(bitmap, highest, h)
    requires k < WINDOW_BITS && k <= highest
    ensures Mirrors(OrWord(bitmap, ShiftLeft(1, k)), highest, h + [highest - k])
  {
    var bit := ShiftLeft(1, k);
    OneBit(k);
    forall i | 0 <= i < WINDOW_BITS
      ensures Bit(OrWord(bitmap, bit), i) == (i == k || Bit(bitmap, i))
    {
      BitOfOr(bitmap, bit, i);
      BitOfPow2(k, i);
    }
  }
}
