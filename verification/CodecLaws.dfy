/** Laws of the codec over runs of authenticated frames, and across codecs. */
module CodecLaws {
  import opened Wrappers
  import opened Sets
  import opened Endec
  import opened RW = ReplayWindow
  import opened Wire
  import Replay = ReplayLaws

  // ---------- one frame ----------

  ghost predicate WellFormed(st: CodecState) {
    && |st.generations| <= 32
    && forall i, j :: 0 <= i < j < |st.generations| ==> st.generations[i].nonce != st.generations[j].nonce
  }

  lemma PositionOf(gens: seq<Generation>, k: nat, nonce: Bytes)
    requires k < |gens| && gens[k].nonce == nonce
    requires forall i, j :: 0 <= i < j < |gens| ==> gens[i].nonce != gens[j].nonce
    ensures Position(gens, nonce) == k
  {
    assert Position(gens, nonce) <= k;
  }

  lemma AdmitWellFormed(st: CodecState, nonce: Bytes, counter: u64)
    requires WellFormed(st)
    ensures WellFormed(Admit(st, nonce, counter).0)
  {
  }

  /** A refused frame leaves no trace, neither in the windows nor in the generations. */
  lemma RefusalLeavesNoTrace(st: CodecState, nonce: Bytes, counter: u64)
    ensures !Admit(st, nonce, counter).1 ==> Admit(st, nonce, counter).0 == st
  {
    if Knows(st, nonce) && Position(st.generations, nonce) + 1 == |st.generations| {
      var n := |st.generations| - 1;
      var newest := st.generations[n];
      if !Accepts(newest.history, counter) {
        assert newest.(history := Extend(newest.history, counter)) == newest;
        assert st.generations[n := newest] == st.generations;
      }
    }
  }

  lemma FailedOpenLeavesNoTrace(st: CodecState, ledger: Ledger, key: Bytes, packet: Bytes)
    ensures TryOpen(st, ledger, key, packet).1.None? ==> TryOpen(st, ledger, key, packet).0 == st
  {
    match TryParse(packet)
    case None =>
    case Some(f) =>
      RefusalLeavesNoTrace(st, f.nonce[..BOOT_NONCE_SIZE], ReadU64Le(f.nonce[BOOT_NONCE_SIZE..]));
  }

  /** Only the newest generation accepts, and it remembers the counter. */
  lemma OnlyNewestAccepts(st: CodecState, nonce: Bytes, counter: u64)
    requires Admit(st, nonce, counter).1
    ensures var gens := Admit(st, nonce, counter).0.generations;
            && gens != [] && gens[|gens| - 1].nonce == nonce && counter in gens[|gens| - 1].history
            && (Knows(st, nonce) ==> Position(st.generations, nonce) == |st.generations| - 1)
  {
  }

  /**
    What an authenticated frame does: an unknown boot nonce opens a generation
    and is accepted, the oldest of 32 making room; the newest generation accepts
    by the replay rule; any other refuses.
   */
  lemma AdmitIs(st: CodecState, nonce: Bytes, counter: u64)
    requires WellFormed(st)
    ensures var n := |st.generations|;
            var (st', ok) := Admit(st, nonce, counter);
            && ((forall i :: 0 <= i < n ==> st.generations[i].nonce != nonce) ==>
                  && ok
                  && st'.generations ==
                     (if n < 32 then st.generations else st.generations[1..]) + [Generation(nonce, [counter])])
            && (n > 0 && st.generations[n - 1].nonce == nonce ==>
                  var h := st.generations[n - 1].history;
                  && (ok <==> counter !in h && forall x :: x in h ==> Replay.InReach(x, counter))
                  && (ok ==> st'.generations == st.generations[n - 1 := Generation(nonce, h + [counter])]))
            && (n > 0 && st.generations[n - 1].nonce != nonce ==>
                  ((exists i :: 0 <= i < n && st.generations[i].nonce == nonce) ==> !ok && st' == st))
  {
    var n := |st.generations|;
    if Position(st.generations, nonce) == n {
      AdmitNew(st, nonce, counter);
    } else if st.generations[n - 1].nonce == nonce {
      PositionOf(st.generations, n - 1, nonce);
      Replay.AcceptsIff(st.generations[n - 1].history, counter);
      NewestIs(st, counter, st.generations[n - 1].history);
    }
  }

  lemma AdmitNew(st: CodecState, nonce: Bytes, counter: u64)
    requires WellFormed(st) && !Knows(st, nonce)
    ensures var (st', ok) := Admit(st, nonce, counter);
            var kept := if |st.generations| < 32 then st.generations else st.generations[1..];
            ok && st'.generations == kept + [Generation(nonce, [counter])]
  {
    var grown := OpenGeneration(st, nonce);
    var kept := if |st.generations| < 32 then st.generations else st.generations[1..];
    assert grown.generations == kept + [Generation(nonce, [])];
    NewestIs(grown, counter, []);
    assert Extend([], counter) == [counter];
    assert WithNewest(grown, [counter]).generations == kept + [Generation(nonce, [counter])];
  }

  // ---------- runs ----------

  /** A frame that authenticated. */
  datatype Arrival = Arrival(nonce: Bytes, counter: u64)

  function After(events: seq<Arrival>): CodecState {
    if events == [] then FRESH_STATE
    else
      var e := events[|events| - 1];
      Admit(After(events[..|events| - 1]), e.nonce, e.counter).0
  }

  predicate Accepted(events: seq<Arrival>, i: nat)
    requires i < |events|
  {
    Admit(After(events[..i]), events[i].nonce, events[i].counter).1
  }

  lemma AfterNext(events: seq<Arrival>, k: nat)
    requires k < |events|
    ensures After(events[..k + 1]) == Admit(After(events[..k]), events[k].nonce, events[k].counter).0
  {
    assert events[..k + 1][..k] == events[..k];
  }

  lemma {:induction false} AfterWellFormed(events: seq<Arrival>)
    ensures WellFormed(After(events))
  {
    if events != [] {
      var e := events[|events| - 1];
      AfterWellFormed(events[..|events| - 1]);
      AdmitWellFormed(After(events[..|events| - 1]), e.nonce, e.counter);
    }
  }

  ghost function Nonces(events: seq<Arrival>): set<Bytes> {
    set i | 0 <= i < |events| :: events[i].nonce
  }

  /** What `e` opens a generation for. */
  ghost function OpenedFor(st: CodecState, e: Arrival): set<Bytes> {
    if Knows(st, e.nonce) then {} else {e.nonce}
  }

  /** The boot nonces for which the events `from` to `to - 1` opened a generation. */
  ghost function OpenedIn(events: seq<Arrival>, from: nat, to: nat): set<Bytes>
    requires from <= to <= |events|
  {
    if from == to then {}
    else
      var m := to - 1;
      OpenedIn(events, from, m) + OpenedFor(After(events[..m]), events[m])
  }

  lemma {:induction false} OpenedAreNonces(events: seq<Arrival>, from: nat, to: nat)
    requires from <= to <= |events|
    ensures OpenedIn(events, from, to) <= Nonces(events)
  {
    if from < to {
      var m := to - 1;
      OpenedAreNonces(events, from, m);
      assert events[m].nonce in Nonces(events);
    }
  }

  /** The frame is remembered, and everything above it was opened for one of `newer`. */
  ghost predicate Remembered(st: CodecState, frame: Arrival, p: nat, newer: set<Bytes>) {
    && p < |st.generations|
    && st.generations[p].nonce == frame.nonce && frame.counter in st.generations[p].history
    && forall q :: p < q < |st.generations| ==> st.generations[q].nonce in newer
  }

  lemma RememberedIsRefused(st: CodecState, frame: Arrival, p: nat, newer: set<Bytes>)
    requires WellFormed(st) && Remembered(st, frame, p, newer)
    ensures !Admit(st, frame.nonce, frame.counter).1
  {
    PositionOf(st.generations, p, frame.nonce);
    MaxIsMax(st.generations[p].history);
  }

  /** One more frame: still remembered, or its generation left behind 32 others. */
  lemma RememberOrEvict(st: CodecState, frame: Arrival, p: nat, newer: set<Bytes>, e: Arrival)
    requires WellFormed(st) && Remembered(st, frame, p, newer) && OpenedFor(st, e) <= newer
    ensures var st' := Admit(st, e.nonce, e.counter).0;
            || Remembered(st', frame, p, newer)
            || (p > 0 && Remembered(st', frame, p - 1, newer))
            || |newer - {frame.nonce}| >= 32
  {
    var gens := st.generations;
    var i := Position(gens, e.nonce);
    if i == |gens| {
      if |gens| == 32 && p == 0 {
        var above := gens[1..] + [Generation(e.nonce, [])];
        assert forall q :: 0 <= q < |above| ==> above[q].nonce in newer - {frame.nonce};
        DistinctNoncesCount(above, newer - {frame.nonce});
      } else if |gens| == 32 {
        assert Remembered(Admit(st, e.nonce, e.counter).0, frame, p - 1, newer);
      } else {
        assert Remembered(Admit(st, e.nonce, e.counter).0, frame, p, newer);
      }
    } else {
      assert Remembered(Admit(st, e.nonce, e.counter).0, frame, p, newer);
    }
  }

  lemma {:induction false} DistinctNoncesCount(gens: seq<Generation>, s: set<Bytes>)
    requires forall i, j :: 0 <= i < j < |gens| ==> gens[i].nonce != gens[j].nonce
    requires forall i :: 0 <= i < |gens| ==> gens[i].nonce in s
    ensures |s| >= |gens|
  {
    if gens != [] {
      var last := gens[|gens| - 1].nonce;
      DistinctNoncesCount(gens[..|gens| - 1], s - {last});
    }
  }

  ghost predicate RememberedOrEvicted(st: CodecState, frame: Arrival, newer: set<Bytes>) {
    || (exists p :: Remembered(st, frame, p, newer))
    || |newer - {frame.nonce}| >= 32
  }

  lemma ForgetStep(st: CodecState, frame: Arrival, before: set<Bytes>, e: Arrival)
    requires WellFormed(st) && RememberedOrEvicted(st, frame, before)
    ensures RememberedOrEvicted(Admit(st, e.nonce, e.counter).0, frame, before + OpenedFor(st, e))
  {
    var newer := before + OpenedFor(st, e);
    if |before - {frame.nonce}| >= 32 {
      SubsetCard(before - {frame.nonce}, newer - {frame.nonce});
    } else {
      var p :| Remembered(st, frame, p, before);
      assert Remembered(st, frame, p, newer);
      RememberOrEvict(st, frame, p, newer, e);
    }
  }

  lemma FreshlyRemembered(events: seq<Arrival>, i: nat, newer: set<Bytes>)
    requires i < |events| && Accepted(events, i)
    ensures RememberedOrEvicted(After(events[..i + 1]), events[i], newer)
  {
    AfterNext(events, i);
    OnlyNewestAccepts(After(events[..i]), events[i].nonce, events[i].counter);
    var st := After(events[..i + 1]);
    assert Remembered(st, events[i], |st.generations| - 1, newer);
  }

  lemma ForgetNext(events: seq<Arrival>, frame: Arrival, from: nat, k: nat)
    requires from <= k < |events|
    requires RememberedOrEvicted(After(events[..k]), frame, OpenedIn(events, from, k))
    ensures RememberedOrEvicted(After(events[..k + 1]), frame, OpenedIn(events, from, k + 1))
  {
    AfterNext(events, k);
    AfterWellFormed(events[..k]);
    ForgetStep(After(events[..k]), frame, OpenedIn(events, from, k), events[k]);
  }

  /** Forgetting takes time: until then 32 generations of other boot nonces have been opened. */
  lemma {:induction false} Forgetting(events: seq<Arrival>, i: nat, k: nat)
    requires i < k <= |events| && Accepted(events, i)
    ensures RememberedOrEvicted(After(events[..k]), events[i], OpenedIn(events, i + 1, k))
    decreases k
  {
    var m := k - 1;
    if m == i {
      FreshlyRemembered(events, i, {});
    } else {
      Forgetting(events, i, m);
      ForgetNext(events, events[i], i + 1, m);
    }
  }

  /**
    The same frame is accepted twice only if at least 32 generations were newly
    opened in between, for as many boot nonces other than its own. Frames of
    generations that are known, replayed ones too, do not bring that closer.
   */
  lemma ReplayNeedsEviction(events: seq<Arrival>, i: nat, j: nat)
    requires i < j < |events| && events[i] == events[j]
    requires Accepted(events, i) && Accepted(events, j)
    ensures |OpenedIn(events, i + 1, j) - {events[i].nonce}| >= 32
  {
    Forgetting(events, i, j);
    var newer := OpenedIn(events, i + 1, j);
    AfterWellFormed(events[..j]);
    if p :| Remembered(After(events[..j]), events[i], p, newer) {
      RememberedIsRefused(After(events[..j]), events[i], p, newer);
    }
  }

  /** A peer that restarted at most 31 times never gets a frame in twice. */
  lemma FewRestartsNoReplay(events: seq<Arrival>, i: nat, j: nat)
    requires |Nonces(events)| <= 32
    requires i < j < |events| && events[i] == events[j] && Accepted(events, i)
    ensures !Accepted(events, j)
  {
    if Accepted(events, j) {
      ReplayNeedsEviction(events, i, j);
      OpenedAreNonces(events, i + 1, j);
      assert events[i].nonce in Nonces(events);
      SubsetCard(OpenedIn(events, i + 1, j) - {events[i].nonce}, Nonces(events) - {events[i].nonce});
    }
  }

  // ---------- the statistics ----------

  lemma {:induction false} TotalsOfAppend(gens: seq<Generation>, g: Generation)
    ensures SeenIn(gens + [g]) == SeenIn(gens) + |g.history|
    ensures LostIn(gens + [g]) == LostIn(gens) + LostOf(g.history)
  {
    assert (gens + [g])[..|gens|] == gens;
  }

  lemma {:induction false} TotalsOfTail(gens: seq<Generation>)
    requires gens != []
    ensures SeenIn(gens) == |gens[0].history| + SeenIn(gens[1..])
    ensures LostIn(gens) == LostOf(gens[0].history) + LostIn(gens[1..])
  {
    var n := |gens| - 1;
    if n > 0 {
      TotalsOfTail(gens[..n]);
      assert gens[..n][1..] == gens[1..][..n - 1];
    }
  }

  /** Opening a generation, with or without retiring one, moves no sample. */
  lemma RetirementKeepsTotals(st: CodecState, nonce: Bytes)
    ensures Seen(OpenGeneration(st, nonce)) == Seen(st)
    ensures Lost(OpenGeneration(st, nonce)) == Lost(st)
  {
    var g := Generation(nonce, []);
    TotalsOfAppend(st.generations, g);
    TotalsOfTail(st.generations + [g]);
  }

  lemma NewestTotals(st: CodecState, counter: u64)
    requires st.generations != []
    ensures var (st', ok) := CheckNewest(st, counter);
            var h := st.generations[|st.generations| - 1].history;
            && Seen(st') == Seen(st) + (if ok then 1 else 0)
            && Lost(st') - LostOf(Extend(h, counter)) == Lost(st) - LostOf(h)
  {
    var n := |st.generations| - 1;
    var newest := st.generations[n];
    var newest' := newest.(history := Extend(newest.history, counter));
    TotalsOfAppend(st.generations[..n], newest);
    TotalsOfAppend(st.generations[..n], newest');
    assert st.generations == st.generations[..n] + [newest];
    assert st.generations[n := newest'] == st.generations[..n] + [newest'];
  }

  function AcceptedCount(events: seq<Arrival>): nat {
    if events == [] then 0
    else
      var n := |events| - 1;
      AcceptedCount(events[..n]) + (if Accepted(events, n) then 1 else 0)
  }

  /** The receive statistic counts every frame ever accepted, across all evictions. */
  lemma {:induction false} SeenCountsAccepted(events: seq<Arrival>)
    ensures Seen(After(events)) == AcceptedCount(events)
  {
    if events != [] {
      var n := |events| - 1;
      SeenCountsAccepted(events[..n]);
      var st, e := After(events[..n]), events[n];
      if !Knows(st, e.nonce) {
        RetirementKeepsTotals(st, e.nonce);
        NewestTotals(OpenGeneration(st, e.nonce), e.counter);
      } else if Position(st.generations, e.nonce) + 1 == |st.generations| {
        NewestTotals(st, e.counter);
      }
    }
  }
}
