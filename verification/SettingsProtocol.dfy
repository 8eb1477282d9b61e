/**
  The settings protocol as a whole: one device row on the server, one node
  whose workers come and go, and a network that may lose, delay, reorder and
  duplicate every message.
 */
module SettingsProtocol {
  import opened Wrappers
  import opened SettingsServer
  import opened SettingsNode

  datatype Message =
    | Reply(revision: nat, content: Content)   // answer to a settings fetch
    | Heartbeat(applied: nat)                  // the worker reports its applied revision
    | FailReport(failed: nat)                  // a worker could not start

  /**
    `messages` holds everything ever sent: a message may be delivered later,
    again, or never. `history` and `acknowledged` record which content each
    revision had and which revisions a worker took over.
   */
  datatype System = System(
    row: Option<Row>,
    worker: Option<Worker>,
    messages: set<Message>,
    history: map<nat, Content>,
    acknowledged: set<nat>)

  datatype Step =
    | AdminPut(update: Content)
    | Fetch
    | StartWorker(reply: Message)
    | ApplyReply(reply: Message)
    | FailToStart(reply: Message)
    | StopWorker
    | Beat
    | DeliverHeartbeat(beat: Message)
    | DeliverFail(report: Message, error: string)

  const INITIAL: System := System(None, None, {}, map[0 := UNMANAGED], {})

  predicate Enabled(s: System, step: Step) {
    match step
    case AdminPut(_) => true
    case Fetch => true
    case StartWorker(m) => m in s.messages && m.Reply?
    case ApplyReply(m) => m in s.messages && m.Reply? && s.worker.Some?
    case FailToStart(m) => m in s.messages && m.Reply?
    case StopWorker => true
    case Beat => s.worker.Some?
    case DeliverHeartbeat(m) => m in s.messages && m.Heartbeat?
    case DeliverFail(m, _) => m in s.messages && m.FailReport?
  }

  function Record(s: System, row: Option<Row>): System {
    s.(row := row, history := s.history[RevisionOf(row) := ContentOf(row)])
  }

  function Acknowledge(s: System, w: Worker): System {
    s.(worker := Some(w), acknowledged := s.acknowledged + {w.applied}, messages := s.messages + {Heartbeat(w.applied)})
  }

  function Next(s: System, step: Step): System
    requires Enabled(s, step)
  {
    match step
    case AdminPut(update) => Record(s, Some(Put(s.row, update)))
    case Fetch => s.(messages := s.messages + {Reply(RevisionOf(s.row), ContentOf(s.row))})
    case StartWorker(m) => Acknowledge(s, Started(m.revision, m.content))
    case ApplyReply(m) =>
      var w := Applied(s.worker.value, m.revision, m.content);
      if w.applied != s.worker.value.applied then Acknowledge(s, w) else s.(worker := Some(w))
    case FailToStart(m) => s.(messages := s.messages + {FailReport(m.revision)})
    case StopWorker => s.(worker := None)
    case Beat => s.(messages := s.messages + {Heartbeat(s.worker.value.applied)})
    case DeliverHeartbeat(m) => s.(row := Confirm(s.row, m.applied))
    case DeliverFail(m, error) => Record(s, Fail(s.row, m.failed, error))
  }

  /** The run of `steps` from `s`; a step that is not enabled does nothing. */
  function Continue(s: System, steps: seq<Step>): System {
    if steps == [] then s
    else
      var n := |steps| - 1;
      var before := Continue(s, steps[..n]);
      if Enabled(before, steps[n]) then Next(before, steps[n]) else before
  }

  // ---------- the invariant ----------

  ghost predicate HistoryOk(s: System) {
    && (s.row.Some? ==> s.row.value.revision > 0)
    && (forall r :: r in s.history <==> 0 <= r <= RevisionOf(s.row))
    && s.history[RevisionOf(s.row)] == ContentOf(s.row)
  }

  ghost predicate MessageOk(s: System, m: Message) {
    match m
    case Reply(r, c) => r in s.history && s.history[r] == c
    case Heartbeat(a) => a in s.acknowledged
    case FailReport(r) => r in s.history
  }

  /** A rollback anchor is the content of a revision some worker took over. */
  ghost predicate AnchorOk(s: System) {
    LastGoodOf(s.row).Some? ==>
      exists r :: r in s.acknowledged && r in s.history && r > 0 && s.history[r] == LastGoodOf(s.row).value
  }

  ghost predicate WorkerOk(s: System) {
    s.worker.Some? ==>
      var w := s.worker.value;
      && w.applied in s.acknowledged && w.applied in s.history
      && w.runtime.listen != [] && RunsWith(w.runtime, s.history[w.applied])
  }

  ghost predicate Invariant(s: System) {
    && HistoryOk(s)
    && (forall m :: m in s.messages ==> MessageOk(s, m))
    && s.acknowledged <= s.history.Keys
    && AnchorOk(s)
    && WorkerOk(s)
  }

  lemma RecordKeeps(s: System, row: Option<Row>)
    requires Invariant(s) && row.Some? && RevisionOf(row) == RevisionOf(s.row) + 1 &&
             LastGoodOf(row) == LastGoodOf(s.row)
    ensures Invariant(Record(s, row))
  {
    var s' := Record(s, row);
    forall r | r in s.history ensures s'.history[r] == s.history[r] {}
    forall m | m in s'.messages ensures MessageOk(s', m) {
      assert MessageOk(s, m);
    }
  }

  lemma StepKeeps(s: System, step: Step)
    requires Invariant(s) && Enabled(s, step)
    ensures Invariant(Next(s, step))
  {
    var s' := Next(s, step);
    match step
    case AdminPut(update) =>
      RecordKeeps(s, Some(Put(s.row, update)));
    case DeliverFail(m, error) =>
      if RollsBack(s.row, m.failed) {
        RecordKeeps(s, Fail(s.row, m.failed, error));
      } else {
        assert s'.history == s.history;
        assert s' == s;
      }
    case DeliverHeartbeat(m) =>
      assert MessageOk(s, m);
      HeartbeatKeeps(s, m.applied);
    case StartWorker(m) =>
      assert MessageOk(s, m);
      StartRunsWith(m.content);
      AcknowledgeKeeps(s, Started(m.revision, m.content));
    case ApplyReply(m) =>
      assert MessageOk(s, m);
      var w := Applied(s.worker.value, m.revision, m.content);
      if w.applied != s.worker.value.applied {
        AcknowledgeKeeps(s, w);
      } else {
        SameRowKeeps(s, s');
      }
    case FailToStart(m) =>
      assert MessageOk(s, m);
      SameRowKeeps(s, s');
    case Fetch => SameRowKeeps(s, s');
    case StopWorker => SameRowKeeps(s, s');
    case Beat => SameRowKeeps(s, s');
  }

  lemma SameRowKeeps(s: System, s': System)
    requires Invariant(s) && s'.row == s.row && s'.history == s.history && s'.acknowledged == s.acknowledged
    requires WorkerOk(s') && forall m :: m in s'.messages ==> m in s.messages || MessageOk(s', m)
    ensures Invariant(s')
  {
    forall m | m in s'.messages ensures MessageOk(s', m) {
      if m in s.messages { assert MessageOk(s, m); }
    }
  }

  lemma AcknowledgeKeeps(s: System, w: Worker)
    requires Invariant(s) && w.applied in s.history && w.runtime.listen != [] &&
             RunsWith(w.runtime, s.history[w.applied])
    ensures Invariant(Acknowledge(s, w))
  {
    var s' := Acknowledge(s, w);
    forall m | m in s'.messages ensures MessageOk(s', m) {
      if m in s.messages { assert MessageOk(s, m); }
    }
  }

  /** The guard lets a heartbeat confirm only the very revision it reports. */
  lemma HeartbeatKeeps(s: System, applied: nat)
    requires Invariant(s) && applied in s.acknowledged
    ensures Invariant(s.(row := Confirm(s.row, applied)))
    ensures Confirm(s.row, applied) != s.row ==> applied == RevisionOf(s.row)
  {
    var s' := s.(row := Confirm(s.row, applied));
    assert applied <= RevisionOf(s.row);
    forall m | m in s'.messages ensures MessageOk(s', m) {
      assert MessageOk(s, m);
    }
  }

  lemma {:induction false} RunInvariant(steps: seq<Step>)
    ensures Invariant(Continue(INITIAL, steps))
  {
    if steps != [] {
      var n := |steps| - 1;
      RunInvariant(steps[..n]);
      var before := Continue(INITIAL, steps[..n]);
      if Enabled(before, steps[n]) { StepKeeps(before, steps[n]); }
    }
  }

  // ---------- what the invariant gives ----------

  /** Whatever interleaves, the anchor is empty or the content of an acknowledged revision. */
  lemma AnchorWasAcknowledged(steps: seq<Step>, s: System)
    requires s == Continue(INITIAL, steps)
    ensures LastGoodOf(s.row).Some? ==>
              exists r :: r in s.acknowledged && r in s.history && r > 0 && s.history[r] == LastGoodOf(s.row).value
  {
    RunInvariant(steps);
  }

  /** So a rollback restores acknowledged content or, before any acknowledgement, none. */
  lemma RollbackRestoresAcknowledged(steps: seq<Step>, s: System, report: Message, error: string)
    requires s == Continue(INITIAL, steps) && Enabled(s, DeliverFail(report, error)) && RollsBack(s.row, report.failed)
    ensures var restored := ContentOf(Next(s, DeliverFail(report, error)).row);
            restored == UNMANAGED ||
            exists r :: r in s.acknowledged && r in s.history && r > 0 && s.history[r] == restored
  {
    RunInvariant(steps);
  }

  /** A delivered heartbeat for the current revision makes its content the anchor. */
  lemma CurrentHeartbeatConfirms(steps: seq<Step>, s: System, beat: Message)
    requires s == Continue(INITIAL, steps) && Enabled(s, DeliverHeartbeat(beat))
    ensures var row' := Next(s, DeliverHeartbeat(beat)).row;
            if beat.applied == RevisionOf(s.row) && s.row.Some?
            then LastGoodOf(row') == Some(ContentOf(s.row)) && row'.value.lastError == None
            else row' == s.row
  {
    RunInvariant(steps);
    assert MessageOk(s, beat);
  }

  /** A running worker's applied revision demands nothing of it that needs a restart. */
  lemma AppliedRevisionRuns(steps: seq<Step>, s: System)
    requires s == Continue(INITIAL, steps) && s.worker.Some?
    ensures var w := s.worker.value;
            w.applied in s.history && RunsWith(w.runtime, s.history[w.applied])
  {
    RunInvariant(steps);
  }

  /** The old worker acknowledges a new revision iff it already runs with it, an explicit empty listen list apart. */
  lemma AcknowledgedWithoutRestart(w: Worker, revision: nat, c: Content)
    requires w.applied < revision && w.runtime.listen != []
    ensures Applied(w, revision, c).applied == revision <==> RunsWith(w.runtime, c) && c.listen != Some([])
    ensures Applied(w, revision, c).applied != revision ==>
              Applied(w, revision, c).applied == w.applied && Applied(w, revision, c).stopping
    ensures Applied(w, revision, c).runtime == w.runtime
  {
  }

  /** In every reachable state: what a reply with a newer revision makes of the worker and of the acknowledgements. */
  lemma NewerReply(steps: seq<Step>, s: System, m: Message)
    requires s == Continue(INITIAL, steps) && Enabled(s, ApplyReply(m)) && s.worker.value.applied < m.revision
    ensures var w, s' := s.worker.value, Next(s, ApplyReply(m));
            && s'.worker.Some? && s'.worker.value.runtime == w.runtime
            && (if RunsWith(w.runtime, m.content) && m.content.listen != Some([])
                then s'.worker.value == w.(applied := m.revision) && s'.acknowledged == s.acknowledged + {m.revision}
                else s'.worker.value.stopping && s'.acknowledged == s.acknowledged && s'.messages == s.messages)
  {
    RunInvariant(steps);
    AcknowledgedWithoutRestart(s.worker.value, m.revision, m.content);
  }

  /**
    A PUT that changes nothing: in every reachable state the worker takes the
    content it has acknowledged over again, under its new revision, without a
    restart, exactly if that does not hold an explicitly empty listen list.
   */
  lemma SameContentAcknowledgedIff(steps: seq<Step>, s: System, m: Message)
    requires s == Continue(INITIAL, steps) && Enabled(s, ApplyReply(m)) && s.worker.value.applied < m.revision
    requires s.worker.value.applied in s.history && m.content == s.history[s.worker.value.applied]
    ensures Next(s, ApplyReply(m)).worker.value.applied == m.revision <==> m.content.listen != Some([])
    ensures m.content.listen == Some([]) ==> Next(s, ApplyReply(m)).worker.value.stopping
  {
    RunInvariant(steps);
    NewerReply(steps, s, m);
  }

  /** Settings whose listen list is explicitly empty, twice the same: the second PUT stops the worker. */
  lemma EmptyListenRestarts(c: Content) returns (steps: seq<Step>)
    requires c.listen == Some([])
    ensures var s := Continue(INITIAL, steps);
            && s.worker.Some? && s.worker.value.stopping && s.worker.value.applied == 1
            && 1 in s.history && 2 in s.history && s.history[1] == s.history[2] == c
            && s.worker.value.runtime == StartValues(c)
  {
    var first, second := Reply(1, c), Reply(2, c);
    var start := [AdminPut(c), Fetch, StartWorker(first)];
    steps := start + [AdminPut(c), Fetch, ApplyReply(second)];
    ThreeSteps(INITIAL, start[0], start[1], start[2]);
    ThreeSteps(Continue(INITIAL, start), AdminPut(c), Fetch, ApplyReply(second));
    ContinueAppend(INITIAL, start, [AdminPut(c), Fetch, ApplyReply(second)]);
  }

  lemma {:induction false} ContinueAppend(s: System, a: seq<Step>, b: seq<Step>)
    ensures Continue(s, a + b) == Continue(Continue(s, a), b)
    decreases |b|
  {
    if b == [] {
      assert a + b == a;
    } else {
      var n := |b| - 1;
      assert (a + b)[..|a| + n] == a + b[..n];
      ContinueAppend(s, a, b[..n]);
    }
  }

  lemma ThreeSteps(s: System, a: Step, b: Step, c: Step)
    requires Enabled(s, a) && Enabled(Next(s, a), b) && Enabled(Next(Next(s, a), b), c)
    ensures Continue(s, [a, b, c]) == Next(Next(Next(s, a), b), c)
  {
    var all := [a, b, c];
    assert all[..2] == [a, b] && [a, b][..1] == [a];
    assert Continue(s, [a]) == Next(s, a);
    assert Continue(s, [a, b]) == Next(Next(s, a), b);
  }

  // ---------- the steps of the node ----------

  /**
    A fetch is answered with the row as it is; a worker that starts reports the
    revision it started with; a beat repeats it; one that fails reports that;
    one that stops is gone. None of these touches the row.
   */
  lemma NodeSteps(s: System, m: Message)
    ensures Next(s, Fetch) == s.(messages := s.messages + {Reply(RevisionOf(s.row), ContentOf(s.row))})
    ensures Next(s, StopWorker) == s.(worker := None)
    ensures s.worker.Some? ==>
              Next(s, Beat) == s.(messages := s.messages + {Heartbeat(s.worker.value.applied)})
    ensures m in s.messages && m.Reply? ==>
              && Next(s, StartWorker(m)) ==
                 s.(worker := Some(Worker(m.revision, StartValues(m.content), false, false)),
                    acknowledged := s.acknowledged + {m.revision}, messages := s.messages + {Heartbeat(m.revision)})
              && Next(s, FailToStart(m)) == s.(messages := s.messages + {FailReport(m.revision)})
  {
  }

  // ---------- where the content comes from ----------

  /** A PUT stores its content under the next revision and leaves the anchor and the errors alone. */
  lemma PutTakesEffect(s: System, update: Content)
    ensures var s' := Next(s, AdminPut(update));
            && s'.row.Some? && ContentOf(s'.row) == update && RevisionOf(s'.row) == RevisionOf(s.row) + 1
            && LastGoodOf(s'.row) == LastGoodOf(s.row)
            && s'.history == s.history[RevisionOf(s'.row) := update]
            && s'.worker == s.worker && s'.messages == s.messages
            && (s.row.Some? ==> s'.row.value.lastError == s.row.value.lastError
                                && s'.row.value.failedRevision == s.row.value.failedRevision)
            && (s.row.None? ==> s'.row.value.lastError.None? && s'.row.value.failedRevision.None?)
  {
  }

  /** A fail report changes the row iff it names the current revision of an existing row; then the anchor comes back. */
  lemma FailReportIff(s: System, report: Message, error: string)
    requires Enabled(s, DeliverFail(report, error))
    ensures var s' := Next(s, DeliverFail(report, error));
            && (s'.row != s.row <==> s.row.Some? && report.failed == s.row.value.revision)
            && (s'.row != s.row ==>
                  && RevisionOf(s'.row) == report.failed + 1 && LastGoodOf(s'.row) == LastGoodOf(s.row)
                  && ContentOf(s'.row) == (if LastGoodOf(s.row).Some? then LastGoodOf(s.row).value else UNMANAGED)
                  && s'.row.value.failedRevision == Some(report.failed))
  {
  }

  /** Step `i` of the run is a PUT, or a fail report of the revision that was current. */
  predicate Writes(steps: seq<Step>, i: nat)
    requires i < |steps|
  {
    var s := Continue(INITIAL, steps[..i]);
    || steps[i].AdminPut?
    || (steps[i].DeliverFail? && Enabled(s, steps[i]) && s.row.Some? && steps[i].report.failed == s.row.value.revision)
  }

  /** What step `i` writes: the content put, or the last confirmed one. */
  function Written(steps: seq<Step>, i: nat): Content
    requires i < |steps|
  {
    if steps[i].AdminPut? then steps[i].update
    else
      var anchor := LastGoodOf(Continue(INITIAL, steps[..i]).row);
      if anchor.Some? then anchor.value else UNMANAGED
  }

  ghost predicate LastWriteIs(steps: seq<Step>, i: nat) {
    i < |steps| && Writes(steps, i) && forall j :: i < j < |steps| ==> !Writes(steps, j)
  }

  lemma WritesInPrefix(steps: seq<Step>, i: nat)
    requires i + 1 < |steps|
    ensures Writes(steps[..|steps| - 1], i) == Writes(steps, i)
    ensures Written(steps[..|steps| - 1], i) == Written(steps, i)
  {
    var n := |steps| - 1;
    assert steps[..n][..i] == steps[..i];
  }

  lemma LastWriteStays(steps: seq<Step>, i: nat)
    requires steps != [] && !Writes(steps, |steps| - 1) && LastWriteIs(steps[..|steps| - 1], i)
    ensures LastWriteIs(steps, i) && Written(steps, i) == Written(steps[..|steps| - 1], i)
  {
    var n := |steps| - 1;
    WritesInPrefix(steps, i);
    forall j | i < j < n ensures !Writes(steps, j) { WritesInPrefix(steps, j); }
  }

  lemma StepWrites(s: System, step: Step)
    requires Enabled(s, step) && !step.AdminPut?
    requires step.DeliverFail? ==> !(s.row.Some? && step.report.failed == s.row.value.revision)
    ensures ContentOf(Next(s, step).row) == ContentOf(s.row)
  {
  }

  /**
    In every reachable state the content is what the last PUT stored or a later
    rollback restored; before either, nothing is managed.
   */
  lemma {:induction false} ContentIsLastWritten(steps: seq<Step>)
    ensures var content := ContentOf(Continue(INITIAL, steps).row);
            if exists i: nat :: LastWriteIs(steps, i)
            then exists i: nat :: LastWriteIs(steps, i) && content == Written(steps, i)
            else content == UNMANAGED
  {
    if steps != [] {
      var n := |steps| - 1;
      var before := Continue(INITIAL, steps[..n]);
      ContentIsLastWritten(steps[..n]);
      if Writes(steps, n) {
        assert LastWriteIs(steps, n);
        WriteTakesEffect(steps);
      } else {
        if Enabled(before, steps[n]) { StepWrites(before, steps[n]); }
        if i: nat :| LastWriteIs(steps[..n], i) && ContentOf(before.row) == Written(steps[..n], i) {
          LastWriteStays(steps, i);
        } else if i: nat :| LastWriteIs(steps, i) {
          LastWriteWas(steps, i);
        }
      }
    }
  }

  lemma WriteTakesEffect(steps: seq<Step>)
    requires steps != [] && Writes(steps, |steps| - 1)
    ensures ContentOf(Continue(INITIAL, steps).row) == Written(steps, |steps| - 1)
  {
    var n := |steps| - 1;
    var before := Continue(INITIAL, steps[..n]);
    if steps[n].AdminPut? {
      PutTakesEffect(before, steps[n].update);
    } else {
      FailReportIff(before, steps[n].report, steps[n].error);
    }
  }

  lemma LastWriteWas(steps: seq<Step>, i: nat)
    requires LastWriteIs(steps, i) && i + 1 < |steps|
    ensures LastWriteIs(steps[..|steps| - 1], i)
  {
    var n := |steps| - 1;
    WritesInPrefix(steps, i);
    forall j | i < j < n ensures !Writes(steps[..n], j) { WritesInPrefix(steps, j); }
  }

  // ---------- after the last PUT ----------

  predicate NoPut(steps: seq<Step>) { forall step :: step in steps ==> !step.AdminPut? }

  /** A rollback would restore what is there already. */
  predicate Settled(s: System) {
    ContentOf(s.row) == if LastGoodOf(s.row).Some? then LastGoodOf(s.row).value else UNMANAGED
  }

  /** How often the content changes along the way. */
  function Changes(s: System, steps: seq<Step>): nat {
    if steps == [] then 0
    else
      var n := |steps| - 1;
      Changes(s, steps[..n]) +
      (if ContentOf(Continue(s, steps).row) != ContentOf(Continue(s, steps[..n]).row) then 1 else 0)
  }

  lemma QuietStep(s: System, step: Step)
    requires Enabled(s, step) && !step.AdminPut?
    ensures var s' := Next(s, step);
            && (ContentOf(s'.row) != ContentOf(s.row) ==> !Settled(s) && Settled(s'))
            && (Settled(s) ==> Settled(s'))
            && RevisionOf(s'.row) >= RevisionOf(s.row)
  {
  }

  /** Without a PUT the content changes at most once, and not at all once it is settled. */
  lemma {:induction false} ContentChangesAtMostOnce(s: System, steps: seq<Step>)
    requires NoPut(steps)
    ensures Changes(s, steps) <= (if Settled(s) then 0 else 1)
    ensures Settled(s) || Changes(s, steps) == 1 ==> Settled(Continue(s, steps))
    decreases |steps|
  {
    if steps != [] {
      var n := |steps| - 1;
      ContentChangesAtMostOnce(s, steps[..n]);
      var before := Continue(s, steps[..n]);
      if Enabled(before, steps[n]) { QuietStep(before, steps[n]); }
    }
  }

  /** Confirmed content is settled, and so is rolled-back content. */
  lemma ConfirmAndRollbackSettle(s: System, step: Step)
    requires Enabled(s, step) && HistoryOk(s)
    ensures step.DeliverHeartbeat? && s.row.Some? && step.beat.applied >= RevisionOf(s.row) ==> Settled(Next(s, step))
    ensures step.DeliverFail? && RollsBack(s.row, step.report.failed) ==> Settled(Next(s, step))
  {
  }

  /** A revision that was rolled back is gone: a second report of it does nothing, ever. */
  lemma {:induction false} RolledBackOnce(s: System, failed: nat, error: string, steps: seq<Step>)
    requires RollsBack(s.row, failed)
    ensures !RollsBack(Continue(s.(row := Fail(s.row, failed, error)), steps).row, failed)
  {
    RevisionGrows(s.(row := Fail(s.row, failed, error)), steps);
  }

  lemma {:induction false} RevisionGrows(s: System, steps: seq<Step>)
    ensures RevisionOf(Continue(s, steps).row) >= RevisionOf(s.row)
    decreases |steps|
  {
    if steps != [] {
      RevisionGrows(s, steps[..|steps| - 1]);
    }
  }
}
