/** Laws of the anti-replay window over whole runs of arrivals. */
module ReplayLaws {
  import opened Wrappers
  import opened Sets
  import opened ReplayWindow

  // ---------- no counter twice, and none lost without cause ----------

  lemma {:induction false} NoReplay(arrivals: seq<u64>)
    ensures Distinct(Run(arrivals))
  {
    if arrivals != [] {
      var earlier := Run(arrivals[..|arrivals| - 1]);
      NoReplay(arrivals[..|arrivals| - 1]);
      if earlier != [] { MaxIsMax(earlier); }
      assert arrivals[|arrivals| - 1] in earlier ==> Run(arrivals) == earlier;
    }
  }

  /** The high-water mark is the highest counter that ever arrived, accepted or not. */
  lemma {:induction false} HighestArrival(arrivals: seq<u64>)
    requires arrivals != []
    ensures Run(arrivals) != [] && Max(Run(arrivals)) == Max(arrivals)
  {
    var earlier, c := arrivals[..|arrivals| - 1], arrivals[|arrivals| - 1];
    if earlier != [] {
      HighestArrival(earlier);
      AppendMax(Run(earlier), c);
    }
  }

  /** `c` is at most 127 behind `x`. */
  predicate InReach(x: nat, c: nat) { x <= c + 127 }

  /** Arrival `i` is at most 127 behind everything that arrived before it. */
  ghost predicate Timely(arrivals: seq<u64>, i: nat)
    requires i < |arrivals|
  {
    forall j :: 0 <= j < i ==> InReach(arrivals[j], arrivals[i])
  }

  lemma TimelyIsInWindow(arrivals: seq<u64>, i: nat)
    requires i < |arrivals|
    ensures Timely(arrivals, i) <==> InWindow(arrivals[..i], arrivals[i])
  {
    var earlier := arrivals[..i];
    if earlier != [] {
      MaxIsMax(earlier);
      assert forall j :: 0 <= j < i ==> earlier[j] == arrivals[j] && earlier[j] in earlier;
    }
  }

  /** The rule without the window: the first, a new maximum, or new and at most 127 behind everything accepted. */
  lemma AcceptsIff(h: History, c: u64)
    ensures Accepts(h, c) <==> c !in h && forall x :: x in h ==> InReach(x, c)
    ensures Extend(h, c) == if Accepts(h, c) then h + [c] else h
  {
    if h != [] { MaxIsMax(h); }
  }

  lemma LastArrival(arrivals: seq<u64>, c: u64)
    requires arrivals != []
    ensures c in Run(arrivals) <==>
            || c in Run(arrivals[..|arrivals| - 1])
            || (c == arrivals[|arrivals| - 1] && Timely(arrivals, |arrivals| - 1))
  {
    TimelyIsInWindow(arrivals, |arrivals| - 1);
    if |arrivals| > 1 { HighestArrival(arrivals[..|arrivals| - 1]); }
  }

  ghost predicate SomeTimely(arrivals: seq<u64>, c: u64) {
    exists i :: 0 <= i < |arrivals| && arrivals[i] == c && Timely(arrivals, i)
  }

  lemma SomeTimelyStep(arrivals: seq<u64>, c: u64)
    requires arrivals != []
    ensures var n := |arrivals| - 1;
            SomeTimely(arrivals, c) <==> SomeTimely(arrivals[..n], c) || (c == arrivals[n] && Timely(arrivals, n))
  {
    var n := |arrivals| - 1;
    var earlier := arrivals[..n];
    forall i | 0 <= i < n
      ensures earlier[i] == arrivals[i] && Timely(arrivals, i) == Timely(earlier, i)
    {
      assert arrivals[..i] == earlier[..i];
    }
  }

  /** A counter is accepted iff one of its arrivals is timely. */
  lemma {:induction false} AcceptedIffTimely(arrivals: seq<u64>, c: u64)
    ensures c in Run(arrivals) <==> SomeTimely(arrivals, c)
  {
    if arrivals != [] {
      AcceptedIffTimely(arrivals[..|arrivals| - 1], c);
      LastArrival(arrivals, c);
      SomeTimelyStep(arrivals, c);
    }
  }

  /** And then exactly one of its frames gets through. */
  lemma AcceptedOnce(arrivals: seq<u64>, c: u64)
    ensures multiset(Run(arrivals))[c] ==
            if SomeTimely(arrivals, c) then 1 else 0
  {
    AcceptedIffTimely(arrivals, c);
    NoReplay(arrivals);
    DistinctCount(Run(arrivals), c);
  }

  lemma {:induction false} DistinctCount(h: History, c: u64)
    requires Distinct(h)
    ensures multiset(h)[c] == if c in h then 1 else 0
  {
    if h != [] {
      var rest, last := h[..|h| - 1], h[|h| - 1];
      assert h == rest + [last];
      DistinctCount(rest, c);
    }
  }

  // ---------- the loss counter ----------

  ghost function Range(lo: nat, hi: nat): (s: set<nat>)
    requires lo <= hi
    ensures |s| == hi - lo
    ensures forall c :: c in s <==> lo <= c < hi
    decreases hi
  {
    if lo == hi then {} else Range(lo, hi - 1) + {hi - 1}
  }

  ghost function Counters(h: History): set<nat> {
    set c: u64 | c in h
  }

  /** The values from `first` to `last` that are not in `s`. */
  ghost function Holes(s: set<nat>, first: nat, last: nat): set<nat>
    requires first <= last
  {
    Range(first, last + 1) - s
  }

  lemma JumpHoles(s: set<nat>, first: nat, last: nat, c: nat)
    requires first <= last < c && forall x :: x in s ==> x <= last
    ensures |Holes(s + {c}, first, c)| == |Holes(s, first, last)| + (c - last - 1)
  {
    var gap := Range(last + 1, c);
    assert Holes(s + {c}, first, c) == Holes(s, first, last) + gap;
  }

  lemma FillHoles(s: set<nat>, first: nat, last: nat, c: nat)
    requires first <= c <= last && c !in s
    ensures |Holes(s, first, last)| == |Holes(s + {c}, first, last)| + 1
  {
    assert c in Holes(s, first, last);
    assert Holes(s + {c}, first, last) == Holes(s, first, last) - {c};
  }

  lemma OvertakeHoles(s: set<nat>, first: nat, last: nat, c: nat)
    requires c < first <= last && c !in s
    ensures Holes(s + {c}, first, last) == Holes(s, first, last)
    ensures |(s + {c}) * Range(0, first)| == |s * Range(0, first)| + 1
  {
    assert (s + {c}) * Range(0, first) == s * Range(0, first) + {c};
  }

  /** H: counters between the first accepted and the highest that never came. */
  ghost function Missing(h: History): set<nat>
    requires h != []
  {
    MaxIsMax(h);
    assert h[0] in h;
    Holes(Counters(h), h[0], Max(h))
  }

  /** B: accepted counters older than the first accepted one. */
  ghost function Before(h: History): set<nat>
    requires h != []
  {
    Counters(h) * Range(0, h[0])
  }

  lemma AppendCounters(h: History, c: u64)
    ensures Counters(h + [c]) == Counters(h) + {c}
  {
  }

  lemma JumpMissing(h: History, c: u64)
    requires h != [] && c > Max(h)
    ensures |Missing(h + [c])| == |Missing(h)| + (c - Max(h) - 1)
    ensures Before(h + [c]) == Before(h)
  {
    MaxIsMax(h);
    AppendMax(h, c);
    AppendCounters(h, c);
    assert h[0] in h;
    JumpHoles(Counters(h), h[0], Max(h), c);
  }

  lemma FillMissing(h: History, c: u64)
    requires h != [] && h[0] < c < Max(h) && c !in h
    ensures |Missing(h)| == |Missing(h + [c])| + 1
    ensures Before(h + [c]) == Before(h)
  {
    MaxIsMax(h);
    AppendMax(h, c);
    AppendCounters(h, c);
    FillHoles(Counters(h), h[0], Max(h), c);
  }

  lemma OvertakenFrame(h: History, c: u64)
    requires h != [] && c < h[0] && c !in h
    ensures Missing(h + [c]) == Missing(h)
    ensures |Before(h + [c])| == |Before(h)| + 1
    ensures forall x :: x in Before(h + [c]) ==> x in Before(h) || x == c
  {
    assert h[0] in h;
    MaxIsMax(h);
    AppendMax(h, c);
    AppendCounters(h, c);
    OvertakeHoles(Counters(h), h[0], Max(h), c);
  }

  /** What every accepted counter keeps of the books. */
  ghost predicate Accounted(h: History) {
    && h != []
    && |Missing(h)| - |Before(h)| <= LostOf(h) <= |Missing(h)|
    && |h| - |Before(h)| + |Missing(h)| == Max(h) - h[0] + 1
    && forall c :: c in Before(h) ==> h[0] < c + WINDOW_BITS
  }

  lemma AccountFirst(c: u64)
    ensures Accounted([c]) && Missing([c]) == {} && Before([c]) == {}
  {
    assert Max([c]) == c;
    assert Missing([c]) == {} && Before([c]) == {};
  }

  lemma AccountJump(h: History, c: u64)
    requires Accounted(h) && c > Max(h)
    ensures Accounted(h + [c])
  {
    MaxIsMax(h);
    assert h[0] in h;
    AppendMax(h, c);
    AppendLost(h, c);
    JumpMissing(h, c);
    SubsetCard(Missing(h), Range(h[0], Max(h) + 1));
    assert LostOf(h + [c]) == LostOf(h) + (c - Max(h) - 1);
  }

  lemma AccountFill(h: History, c: u64)
    requires Accounted(h) && h[0] < c < Max(h) && c !in h
    ensures Accounted(h + [c])
  {
    AppendMax(h, c);
    AppendLost(h, c);
    FillMissing(h, c);
  }

  lemma AccountOvertaken(h: History, c: u64)
    requires Accounted(h) && c < h[0] && InWindow(h, c) && c !in h
    ensures Accounted(h + [c])
  {
    MaxIsMax(h);
    assert h[0] in h;
    AppendMax(h, c);
    AppendLost(h, c);
    OvertakenFrame(h, c);
    assert (h + [c])[0] == h[0];
  }

  lemma AccountStep(h: History, c: u64)
    requires Accounted(h)
    ensures Accounted(Extend(h, c)) && Extend(h, c)[0] == h[0]
  {
    MaxIsMax(h);
    assert h[0] in h;
    if c > Max(h) {
      AccountJump(h, c);
    } else if Accepts(h, c) {
      if c > h[0] { AccountFill(h, c); } else { AccountOvertaken(h, c); }
    }
  }

  /** The holes lie strictly between the first counter and the highest, or there are none. */
  lemma MissingWithin(h: History)
    requires Accounted(h)
    ensures |Missing(h)| <= Max(h) - h[0]
  {
    MaxIsMax(h);
    assert h[0] in h;
    HolesWithin(Counters(h), h[0], Max(h));
  }

  lemma HolesWithin(s: set<nat>, first: nat, last: nat)
    requires first <= last && first in s
    ensures |Holes(s, first, last)| <= last - first
  {
    SubsetCard(Holes(s, first, last), Range(first + 1, last + 1));
  }

  lemma {:induction false} AccountRun(arrivals: seq<u64>)
    requires arrivals != []
    ensures Accounted(Run(arrivals)) && Run(arrivals)[0] == arrivals[0]
  {
    var n := |arrivals| - 1;
    if n == 0 {
      assert Run(arrivals) == arrivals;
      AccountFirst(arrivals[0]);
    } else {
      AccountRun(arrivals[..n]);
      AccountStep(Run(arrivals[..n]), arrivals[n]);
    }
  }

  /**
    The loss statistic against the true number of holes, over any run: it never
    exceeds it, it falls short by at most the frames that overtook the first one,
    and of those there are at most 127. Without overtaking it is exact.
   */
  lemma LossBounds(arrivals: seq<u64>)
    requires arrivals != []
    ensures var h := Run(arrivals);
            && h != [] && h[0] == arrivals[0]
            && |Missing(h)| - |Before(h)| <= LostOf(h) <= |Missing(h)|
            && |Before(h)| <= 127
            && (Before(h) == {} ==> |h| + LostOf(h) == Max(h) - h[0] + 1)
  {
    AccountRun(arrivals);
    var h := Run(arrivals);
    var near := Range(if h[0] < 127 then 0 else h[0] - 127, h[0]);
    SubsetCard(Before(h), near);
  }

  /** And it can fall short: a frame that overtook the first one is refunded though no hole was charged for it. */
  lemma OvertakenFrameHidesHole(h: History, c: u64)
    requires h != [] && c < h[0] && Accepts(h, c) && LostOf(h) > 0
    ensures |Missing(Extend(h, c))| == |Missing(h)| && LostOf(Extend(h, c)) == LostOf(h) - 1
  {
    MaxIsMax(h);
    assert h[0] in h;
    AppendLost(h, c);
    OvertakenFrame(h, c);
  }

  // ---------- when the loss count is exact ----------

  /** The first `k` accepted counters left no hole, and no frame overtook the first one after them. */
  ghost predicate WholeAt(h: History, k: nat) {
    1 <= k <= |h| && Missing(h[..k]) == {} && Before(h[..k]) == Before(h)
  }

  ghost predicate SomeWhole(h: History) {
    exists k :: WholeAt(h, k)
  }

  ghost predicate ExactWhenWhole(h: History) {
    h != [] && (LostOf(h) == |Missing(h)| <==> SomeWhole(h))
  }

  lemma WholeNow(h: History)
    requires h != [] && Missing(h) == {}
    ensures SomeWhole(h)
  {
    assert h[..|h|] == h;
    assert WholeAt(h, |h|);
  }

  lemma PrefixWhole(h: History, c: u64, k: nat)
    requires h != [] && 1 <= k <= |h| && Before(h + [c]) == Before(h)
    ensures WholeAt(h + [c], k) <==> WholeAt(h, k)
  {
    assert (h + [c])[..k] == h[..k];
  }

  lemma WholeIsShorter(h: History, k: nat)
    requires h != [] && WholeAt(h, k) && Missing(h) != {}
    ensures k < |h|
  {
    assert h[..|h|] == h;
  }

  lemma WholeStays(h: History, c: u64)
    requires h != [] && Before(h + [c]) == Before(h) && SomeWhole(h)
    ensures SomeWhole(h + [c])
  {
    var k :| WholeAt(h, k);
    PrefixWhole(h, c, k);
  }

  lemma WholeBefore(h: History, c: u64)
    requires h != [] && Before(h + [c]) == Before(h) && SomeWhole(h + [c]) && Missing(h + [c]) != {}
    ensures SomeWhole(h)
  {
    var k :| WholeAt(h + [c], k);
    WholeIsShorter(h + [c], k);
    PrefixWhole(h, c, k);
  }

  /** A step that leaves the overtaking frames alone decides by the holes it leaves. */
  lemma WholeNext(h: History, c: u64)
    requires h != [] && Before(h + [c]) == Before(h)
    ensures SomeWhole(h + [c]) <==> SomeWhole(h) || Missing(h + [c]) == {}
  {
    if SomeWhole(h) { WholeStays(h, c); }
    if Missing(h + [c]) == {} { WholeNow(h + [c]); } else if SomeWhole(h + [c]) { WholeBefore(h, c); }
  }

  lemma ExactJump(h: History, c: u64)
    requires Accounted(h) && ExactWhenWhole(h) && c > Max(h)
    ensures ExactWhenWhole(h + [c])
  {
    AccountJump(h, c);
    AppendLost(h, c);
    JumpMissing(h, c);
    WholeNext(h, c);
    NoSaturation(h, c);
    if Missing(h + [c]) == {} {
      assert |Missing(h)| == 0;
      WholeNow(h);
    }
  }

  lemma NoSaturation(h: History, c: u64)
    requires Accounted(h) && c > Max(h)
    ensures LostOf(h) + (c - Max(h) - 1) <= U64_MAX
  {
    MaxIsMax(h);
    assert h[0] in h;
    SubsetCard(Missing(h), Range(h[0], Max(h) + 1));
  }

  lemma ExactFill(h: History, c: u64)
    requires Accounted(h) && ExactWhenWhole(h) && h[0] < c < Max(h) && c !in h
    ensures ExactWhenWhole(h + [c])
  {
    AppendLost(h, c);
    FillMissing(h, c);
    WholeNext(h, c);
  }

  lemma ExactOvertaken(h: History, c: u64)
    requires Accounted(h) && c < h[0] && InWindow(h, c) && c !in h
    ensures ExactWhenWhole(h + [c])
  {
    AccountOvertaken(h, c);
    OvertakenIsShort(h, c);
    if Missing(h + [c]) == {} { WholeNow(h + [c]); } else if SomeWhole(h + [c]) { OvertakenIsNotWhole(h, c); }
  }

  lemma OvertakenIsShort(h: History, c: u64)
    requires Accounted(h) && c < h[0] && InWindow(h, c) && c !in h
    ensures LostOf(h + [c]) == |Missing(h + [c])| <==> Missing(h + [c]) == {}
  {
    MaxIsMax(h);
    assert h[0] in h;
    AppendLost(h, c);
    OvertakenFrame(h, c);
  }

  lemma OvertakenIsNotWhole(h: History, c: u64)
    requires h != [] && c < h[0] && c !in h && Missing(h + [c]) != {}
    ensures !SomeWhole(h + [c])
  {
    OvertakenFrame(h, c);
    if k: nat :| WholeAt(h + [c], k) {
      WholeIsShorter(h + [c], k);
      NotWholeBefore(h, c, k);
    }
  }

  lemma NotWholeBefore(h: History, c: u64, k: nat)
    requires 1 <= k <= |h| && |Before(h + [c])| > |Before(h)|
    ensures Before((h + [c])[..k]) != Before(h + [c])
  {
    assert (h + [c])[..k] == h[..k];
    PrefixBefore(h, k);
  }

  lemma PrefixBefore(h: History, k: nat)
    requires 1 <= k <= |h|
    ensures |Before(h[..k])| <= |Before(h)|
  {
    forall c: u64 | c in h[..k] ensures c in h {}
    assert Counters(h[..k]) <= Counters(h);
    SubsetCard(Before(h[..k]), Before(h));
  }

  lemma ExactStep(h: History, c: u64)
    requires Accounted(h) && ExactWhenWhole(h)
    ensures ExactWhenWhole(Extend(h, c))
  {
    MaxIsMax(h);
    assert h[0] in h;
    if c > Max(h) {
      ExactJump(h, c);
    } else if Accepts(h, c) {
      if c > h[0] { ExactFill(h, c); } else { ExactOvertaken(h, c); }
    }
  }

  /**
    The loss count is the true number of holes iff there was a moment without a
    hole and no frame overtook the first one after it.
   */
  lemma {:induction false} LossExactIff(arrivals: seq<u64>)
    requires arrivals != []
    ensures var h := Run(arrivals);
            h != [] && (LostOf(h) == |Missing(h)| <==> exists k :: WholeAt(h, k))
  {
    var n := |arrivals| - 1;
    if n == 0 {
      assert Run(arrivals) == arrivals;
      AccountFirst(arrivals[0]);
      WholeNow([arrivals[0]]);
    } else {
      LossExactIff(arrivals[..n]);
      AccountRun(arrivals[..n]);
      ExactStep(Run(arrivals[..n]), arrivals[n]);
    }
  }

  /** A run that hides a loss: 6 never came, and nothing is counted. */
  lemma HiddenLoss()
    ensures var h := Run([5, 7, 4]);
            h == [5, 7, 4] && Missing(h) == {6} && LostOf(h) == 0
  {
    RunOfThree(5, 7, 4);
    var h: History := [5, 7, 4];
    LostOfThree(5, 7, 4);
    assert h[0] in h && h[1] in h && h[2] in h;
    forall x: nat ensures x in Missing(h) <==> x == 6 {
      assert x in Counters(h) <==> x == 4 || x == 5 || x == 7;
    }
  }

  lemma LostOfThree(a: u64, b: u64, c: u64)
    requires c < a < b
    ensures Max([a, b, c]) == b && LostOf([a, b, c]) == b - a - 1 - if b == a + 1 then 0 else 1
  {
    var all := [a, b, c];
    assert all[..2] == [a, b] && [a, b][..1] == [a];
    assert Max([a]) == a && Max([a, b]) == b;
    assert LostOf([a]) == 0 && LostOf([a, b]) == b - a - 1;
  }

  lemma RunOfThree(a: u64, b: u64, c: u64)
    requires c < a < b < c + WINDOW_BITS
    ensures Run([a, b, c]) == [a, b, c]
  {
    var all := [a, b, c];
    assert all[..2] == [a, b] && all[..2][..1] == [a];
    assert Run([a]) == [a] && Max([a]) == a;
    assert Run([a, b]) == [a, b] && [a, b][..1] == [a] && Max([a, b]) == b;
  }
}
