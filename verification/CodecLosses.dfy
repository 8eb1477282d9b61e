/** The loss statistic of a codec against the holes of all its generations, retired ones included. */
module CodecLosses {
  import opened Wrappers
  import opened Endec
  import opened RW = ReplayWindow
  import opened Wire
  import opened CodecLaws
  import Replay = ReplayLaws

  /** The last generation has taken the counter. */
  function Fed(gens: seq<Generation>, counter: u64): seq<Generation>
    requires gens != []
  {
    var n := |gens| - 1;
    gens[..n] + [gens[n].(history := Extend(gens[n].history, counter))]
  }

  /** Every generation ever opened, oldest first, with the counters it accepted. */
  function Archive(events: seq<Arrival>): seq<Generation> {
    if events == [] then []
    else
      var n := |events| - 1;
      var st, e := After(events[..n]), events[n];
      var earlier := Archive(events[..n]);
      if !Knows(st, e.nonce) then Fed(earlier + [Generation(e.nonce, [])], e.counter)
      else if Position(st.generations, e.nonce) + 1 == |st.generations| && earlier != [] then Fed(earlier, e.counter)
      else earlier
  }

  /** The holes of all generations. */
  ghost function MissingIn(gens: seq<Generation>): nat
    requires AllBooked(gens)
  {
    if gens == [] then 0
    else var n := |gens| - 1; MissingIn(gens[..n]) + |Replay.Missing(gens[n].history)|
  }

  /** The frames of all generations that overtook the first one. */
  ghost function OvertakingIn(gens: seq<Generation>): nat
    requires AllBooked(gens)
  {
    if gens == [] then 0
    else var n := |gens| - 1; OvertakingIn(gens[..n]) + |Replay.Before(gens[n].history)|
  }

  ghost predicate AllBooked(gens: seq<Generation>) {
    forall i :: 0 <= i < |gens| ==> Replay.Accounted(gens[i].history)
  }

  lemma {:induction false} SumBounds(gens: seq<Generation>)
    requires AllBooked(gens)
    ensures MissingIn(gens) - OvertakingIn(gens) <= LostIn(gens) <= MissingIn(gens)
  {
    if gens != [] {
      var n := |gens| - 1;
      SumBounds(gens[..n]);
      assert Replay.Accounted(gens[n].history);
    }
  }

  lemma FedBooked(gens: seq<Generation>, counter: u64)
    requires gens != [] && AllBooked(gens[..|gens| - 1])
    requires var h := gens[|gens| - 1].history; h == [] || Replay.Accounted(h)
    ensures AllBooked(Fed(gens, counter))
  {
    var n := |gens| - 1;
    ExtendBooked(gens[n].history, counter);
    BookedAppend(gens[..n], gens[n].(history := Extend(gens[n].history, counter)));
  }

  lemma ExtendBooked(h: History, counter: u64)
    requires h == [] || Replay.Accounted(h)
    ensures Replay.Accounted(Extend(h, counter))
  {
    if h == [] {
      Replay.AccountFirst(counter);
      assert Extend(h, counter) == [counter];
    } else {
      Replay.AccountStep(h, counter);
    }
  }

  lemma BookedAppend(gens: seq<Generation>, g: Generation)
    requires AllBooked(gens) && Replay.Accounted(g.history)
    ensures AllBooked(gens + [g])
  {
  }

  lemma FedTotals(gens: seq<Generation>, counter: u64)
    requires gens != []
    ensures var h := gens[|gens| - 1].history;
            LostIn(Fed(gens, counter)) == LostIn(gens) - LostOf(h) + LostOf(Extend(h, counter))
  {
    var last := gens[|gens| - 1];
    ReplaceLast(gens, last.(history := Extend(last.history, counter)));
  }

  lemma ReplaceLast(gens: seq<Generation>, g: Generation)
    requires gens != []
    ensures var n := |gens| - 1;
            LostIn(gens[..n] + [g]) == LostIn(gens) - LostOf(gens[n].history) + LostOf(g.history)
  {
    var n := |gens| - 1;
    TotalsOfAppend(gens[..n], g);
    assert LostIn(gens) == LostIn(gens[..n]) + LostOf(gens[n].history);
  }

  /** State and archive of the same run. */
  ghost predicate Matches(st: CodecState, archive: seq<Generation>) {
    && AllBooked(archive)
    && Lost(st) == LostIn(archive)
    && |st.generations| <= |archive| && (archive != [] ==> st.generations != [])
    && (st.generations != [] ==> st.generations[|st.generations| - 1] == archive[|archive| - 1])
  }

  lemma OpeningMatches(st: CodecState, archive: seq<Generation>, e: Arrival)
    requires Matches(st, archive) && !Knows(st, e.nonce)
    ensures Matches(Admit(st, e.nonce, e.counter).0, Fed(archive + [Generation(e.nonce, [])], e.counter))
  {
    ArchiveOpens(archive, e);
    OpeningTotals(st, e);
  }

  lemma ArchiveOpens(archive: seq<Generation>, e: Arrival)
    requires AllBooked(archive)
    ensures var archive' := Fed(archive + [Generation(e.nonce, [])], e.counter);
            && AllBooked(archive') && |archive'| == |archive| + 1
            && LostIn(archive') == LostIn(archive) + LostOf(Extend([], e.counter)) - LostOf([])
            && archive'[|archive|] == Generation(e.nonce, Extend([], e.counter))
  {
    var g := Generation(e.nonce, []);
    assert (archive + [g])[..|archive|] == archive;
    FedBooked(archive + [g], e.counter);
    FedTotals(archive + [g], e.counter);
    TotalsOfAppend(archive, g);
  }

  lemma OpeningTotals(st: CodecState, e: Arrival)
    requires !Knows(st, e.nonce)
    ensures var st' := Admit(st, e.nonce, e.counter).0;
            && Lost(st') == Lost(st) + LostOf(Extend([], e.counter)) - LostOf([])
            && 1 <= |st'.generations| <= |st.generations| + 1
            && st'.generations[|st'.generations| - 1] == Generation(e.nonce, Extend([], e.counter))
  {
    var grown := OpenGeneration(st, e.nonce);
    assert Admit(st, e.nonce, e.counter) == CheckNewest(grown, e.counter);
    RetirementKeepsTotals(st, e.nonce);
    NewestTotals(grown, e.counter);
    NewestIs(grown, e.counter, []);
  }

  lemma CurrentMatches(st: CodecState, archive: seq<Generation>, e: Arrival)
    requires Matches(st, archive) && Position(st.generations, e.nonce) + 1 == |st.generations|
    ensures archive != [] && Matches(Admit(st, e.nonce, e.counter).0, Fed(archive, e.counter))
  {
    FedBooked(archive, e.counter);
    FedTotals(archive, e.counter);
    NewestTotals(st, e.counter);
  }

  lemma {:induction false} RunMatches(events: seq<Arrival>)
    ensures Matches(After(events), Archive(events))
  {
    if events != [] {
      var n := |events| - 1;
      RunMatches(events[..n]);
      var st, e := After(events[..n]), events[n];
      if !Knows(st, e.nonce) {
        OpeningMatches(st, Archive(events[..n]), e);
      } else if Position(st.generations, e.nonce) + 1 == |st.generations| {
        CurrentMatches(st, Archive(events[..n]), e);
      }
    }
  }

  /**
    The lost total over any run, across all evictions: it is the sum over every
    generation ever opened, at most all their holes, and short by at most the
    frames that overtook the first one of their generation.
   */
  lemma LostCountsAllGenerations(events: seq<Arrival>)
    ensures var archive := Archive(events);
            && Lost(After(events)) == LostIn(archive)
            && AllBooked(archive)
            && MissingIn(archive) - OvertakingIn(archive) <= Lost(After(events)) <= MissingIn(archive)
  {
    RunMatches(events);
    SumBounds(Archive(events));
  }

  // ---------- in 64 bits, with and without overflow checks ----------

  /** The run in either build: after a panic under the lock nothing changes any more. */
  function AfterIn(checked: bool, events: seq<Arrival>): CodecState {
    if events == [] then FRESH_STATE
    else
      var n := |events| - 1;
      AdmitIn(checked, AfterIn(checked, events[..n]), events[n].nonce, events[n].counter).0
  }

  lemma RetiredGrows(st: CodecState, nonce: Bytes, counter: u64)
    ensures Admit(st, nonce, counter).0.retiredLost >= st.retiredLost
    ensures !Knows(st, nonce) ==> Admit(st, nonce, counter).0.retiredLost == OpenGeneration(st, nonce).retiredLost
  {
  }

  /** Up to the first panic the builds are in the same state, and none comes before the retired total leaves 64 bits. */
  lemma {:induction false} RunIn(checked: bool, events: seq<Arrival>)
    ensures Poisoned(checked, AfterIn(checked, events)) <==> Poisoned(checked, After(events))
    ensures !(checked && After(events).retiredLost > 0xFFFF_FFFF_FFFF_FFFF) ==>
              AfterIn(checked, events) == After(events)
  {
    if events != [] {
      var n := |events| - 1;
      RunIn(checked, events[..n]);
      RetiredGrows(After(events[..n]), events[n].nonce, events[n].counter);
    }
  }

  /** What the statistic reads after any run, in terms of the true sum. */
  lemma ReadingOfRun(checked: bool, events: seq<Arrival>)
    ensures var sum := LostIn(Archive(events));
            LostReading(checked, AfterIn(checked, events)) == Reading(checked, sum)
  {
    RunIn(checked, events);
    RunMatches(events);
    PoisonedReading(checked, AfterIn(checked, events), After(events));
  }

  lemma PoisonedReading(checked: bool, st: CodecState, ideal: CodecState)
    requires Poisoned(checked, st) <==> Poisoned(checked, ideal)
    requires !Poisoned(checked, ideal) ==> st == ideal
    ensures LostReading(checked, st) == Reading(checked, Lost(ideal))
  {
  }

  lemma ReadingIff(checked: bool, sum: nat)
    ensures Reading(checked, sum) == Some(sum) <==> sum <= U64_MAX
  {
  }

  /** In either build, the lost statistic is the sum over all generations iff that sum fits 64 bits. */
  lemma LostStatisticIff(checked: bool, events: seq<Arrival>)
    ensures var reading, sum := LostReading(checked, AfterIn(checked, events)), LostIn(Archive(events));
            reading == Some(sum) <==> sum <= U64_MAX
  {
    ReadingOfRun(checked, events);
    ReadingIff(checked, LostIn(Archive(events)));
  }

  /** A frame makes the codec panic iff the retired total does not fit 64 bits with it. */
  lemma OpeningPanicsIff(checked: bool, events: seq<Arrival>, e: Arrival)
    ensures AdmitIn(checked, AfterIn(checked, events), e.nonce, e.counter).1 == Panic
            <==> checked && After(events + [e]).retiredLost > 0xFFFF_FFFF_FFFF_FFFF
  {
    RunIn(checked, events);
    assert (events + [e])[..|events|] == events;
    RetiredGrows(After(events), e.nonce, e.counter);
  }

  /** Opening a packet is the same in both builds except for the panic, which only the checking one knows. */
  lemma OpensAlike(checked: bool, st: CodecState, ledger: Ledger, key: Bytes, packet: Bytes)
    ensures var (st', opening) := TryOpenIn(checked, st, ledger, key, packet);
            var (ideal, o) := TryOpen(st, ledger, key, packet);
            && (opening != Panicked ==> st' == ideal && opening == if o.Some? then Delivered(o.value) else Refused)
            && (opening == Panicked ==> checked && st'.retiredLost > 0xFFFF_FFFF_FFFF_FFFF)
  {
  }

  /** What the generations cover, from their first counter to their highest. */
  ghost function SpanIn(gens: seq<Generation>): nat
    requires AllBooked(gens)
  {
    if gens == [] then 0
    else
      var n := |gens| - 1;
      var h := gens[n].history;
      HighestAtLeastFirst(h);
      SpanIn(gens[..n]) + (Max(h) - h[0])
  }

  lemma HighestAtLeastFirst(h: History)
    requires Replay.Accounted(h)
    ensures h[0] <= Max(h) && LostOf(h) <= Max(h) - h[0]
  {
    MaxIsMax(h);
    assert h[0] in h;
    Replay.MissingWithin(h);
  }

  lemma {:induction false} LostWithinSpan(gens: seq<Generation>)
    requires AllBooked(gens)
    ensures LostIn(gens) <= SpanIn(gens)
  {
    if gens != [] {
      var n := |gens| - 1;
      LostWithinSpan(gens[..n]);
      HighestAtLeastFirst(gens[n].history);
    }
  }

  /** Counters alone: as long as the spans of all generations add up to 64 bits, nothing overflows. */
  lemma SmallSpansSuffice(checked: bool, events: seq<Arrival>)
    ensures AllBooked(Archive(events))
    ensures SpanIn(Archive(events)) <= U64_MAX ==>
              LostReading(checked, AfterIn(checked, events)) == Some(LostIn(Archive(events)))
              && AfterIn(checked, events) == After(events)
  {
    RunMatches(events);
    LostWithinSpan(Archive(events));
    LostStatisticIff(checked, events);
    RunIn(checked, events);
  }

  /** A peer that shows its first counter and a far higher one. */
  function Leap(nonce: Bytes, highest: u64): seq<Arrival> { [Arrival(nonce, 1), Arrival(nonce, highest)] }

  lemma LeapOpens(st: CodecState, nonce: Bytes, highest: u64)
    requires !Knows(st, nonce) && |st.generations| < 32 && highest > 1
    ensures var (st', first) := Admit(st, nonce, 1);
            var (st'', second) := Admit(st', nonce, highest);
            first && second && st'' == st.(generations := st.generations + [Generation(nonce, [1, highest])])
  {
    AdmitFirst(st, nonce, 1);
    var st' := st.(generations := st.generations + [Generation(nonce, [1])]);
    AddedIsKnown(st.generations, Generation(nonce, [1]));
    AdmitNext(st', nonce, 1, highest);
    assert st'.generations[..|st.generations|] == st.generations;
  }

  lemma AdmitFirst(st: CodecState, nonce: Bytes, counter: u64)
    requires !Knows(st, nonce) && |st.generations| < 32
    ensures Admit(st, nonce, counter) ==
            (st.(generations := st.generations + [Generation(nonce, [counter])]), true)
  {
    var grown := OpenGeneration(st, nonce);
    NewestIs(grown, counter, []);
    assert Extend([], counter) == [counter];
    assert WithNewest(grown, [counter]).generations == st.generations + [Generation(nonce, [counter])];
  }

  lemma AdmitNext(st: CodecState, nonce: Bytes, counter: u64, next: u64)
    requires st.generations != [] && Position(st.generations, nonce) == |st.generations| - 1 && next > counter
    requires st.generations[|st.generations| - 1] == Generation(nonce, [counter])
    ensures var gens := st.generations[..|st.generations| - 1];
            Admit(st, nonce, next) == (st.(generations := gens + [Generation(nonce, [counter, next])]), true)
  {
    NewestIs(st, next, [counter]);
    assert Max([counter]) == counter && Extend([counter], next) == [counter, next];
    var gens := st.generations[..|st.generations| - 1];
    assert WithNewest(st, [counter, next]).generations == gens + [Generation(nonce, [counter, next])];
  }

  lemma {:induction false} AddedIsKnown(gens: seq<Generation>, g: Generation)
    requires Position(gens, g.nonce) == |gens|
    ensures Position(gens + [g], g.nonce) == |gens|
  {
    if gens != [] {
      assert (gens + [g])[1..] == gens[1..] + [g];
      AddedIsKnown(gens[1..], g);
    }
  }

  lemma LossOfLeap(highest: u64)
    requires highest > 1
    ensures LostOf([1, highest]) == highest - 2
  {
    assert [1, highest][..1] == [1];
    assert Max([1]) == 1 && LostOf([1]) == 0;
  }

  /** Four accepted frames whose losses no longer fit: one build panics, the other reads a smaller number. */
  lemma FourFramesOverflow(a: Bytes, b: Bytes)
    requires a != b
    ensures var events := Leap(a, U64_MAX) + Leap(b, U64_MAX);
            && AcceptedCount(events) == 4
            && Lost(After(events)) == 2 * (U64_MAX - 2)
            && LostReading(true, AfterIn(true, events)) == None
            && LostReading(false, AfterIn(false, events)) == Some(U64_MAX - 5)
  {
    var events := Leap(a, U64_MAX) + Leap(b, U64_MAX);
    FourFramesTotals(a, b);
    ReadingsOfTotal(events);
  }

  lemma ReadingsOfTotal(events: seq<Arrival>)
    requires Lost(After(events)) == 2 * (U64_MAX - 2)
    ensures AcceptedCount(events) == Seen(After(events))
    ensures LostReading(true, AfterIn(true, events)) == None
    ensures LostReading(false, AfterIn(false, events)) == Some(U64_MAX - 5)
  {
    SeenCountsAccepted(events);
    var total := Lost(After(events));
    ReadingOfTotal(true, events, total);
    ReadingOfTotal(false, events, total);
    ReadingOfTwice(total);
  }

  lemma ReadingOfTwice(total: nat)
    requires total == 2 * (U64_MAX - 2)
    ensures Reading(true, total) == None && Reading(false, total) == Some(U64_MAX - 5)
  {
    assert total == U64_SIZE + (U64_MAX - 5);
  }

  lemma ReadingOfTotal(checked: bool, events: seq<Arrival>, sum: nat)
    requires Lost(After(events)) == sum
    ensures LostReading(checked, AfterIn(checked, events)) == Reading(checked, sum)
  {
    RunMatches(events);
    ReadingOfRun(checked, events);
  }

  lemma FourFramesTotals(a: Bytes, b: Bytes)
    requires a != b
    ensures var st := After(Leap(a, U64_MAX) + Leap(b, U64_MAX)); Lost(st) == 2 * (U64_MAX - 2) && Seen(st) == 4
  {
    var first, second := Generation(a, [1, U64_MAX]), Generation(b, [1, U64_MAX]);
    FourFramesState(a, b);
    TotalsOfTwo(first, second);
    LossOfLeap(U64_MAX);
  }

  lemma FourFramesState(a: Bytes, b: Bytes)
    requires a != b
    ensures After(Leap(a, U64_MAX) + Leap(b, U64_MAX)) ==
            CodecState([Generation(a, [1, U64_MAX]), Generation(b, [1, U64_MAX])], 0, 0)
  {
    var first, second := Generation(a, [1, U64_MAX]), Generation(b, [1, U64_MAX]);
    var one := CodecState([first], 0, 0);
    LeapOpens(FRESH_STATE, a, U64_MAX);
    assert FRESH_STATE.(generations := FRESH_STATE.generations + [first]) == one;
    LeapOpens(one, b, U64_MAX);
    assert one.(generations := one.generations + [second]) == CodecState([first, second], 0, 0);
    FourSteps(Leap(a, U64_MAX) + Leap(b, U64_MAX));
  }

  lemma TotalsOfTwo(first: Generation, second: Generation)
    ensures LostIn([first, second]) == LostOf(first.history) + LostOf(second.history)
    ensures SeenIn([first, second]) == |first.history| + |second.history|
  {
    TotalsOfAppend([], first);
    TotalsOfAppend([first], second);
    assert [] + [first] == [first] && [first] + [second] == [first, second];
  }

  lemma FourSteps(events: seq<Arrival>)
    requires |events| == 4
    ensures var s := Admit(FRESH_STATE, events[0].nonce, events[0].counter).0;
            var t := Admit(s, events[1].nonce, events[1].counter).0;
            var u := Admit(t, events[2].nonce, events[2].counter).0;
            After(events) == Admit(u, events[3].nonce, events[3].counter).0
  {
    assert events == events[..4];
    AfterNext(events, 0);
    AfterNext(events, 1);
    AfterNext(events, 2);
    AfterNext(events, 3);
  }
}
