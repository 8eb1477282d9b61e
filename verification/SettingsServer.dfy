/** Managed device settings, and the server row that pushes, confirms and rolls them back. */
module SettingsServer {
  import opened Wrappers

  datatype Mode = Proxy | Tun

  /** Managed content; `None` means unmanaged. `hot` stands for the fields that apply without restart. */
  datatype Content = Content(
    mode: Option<Mode>,
    listen: Option<seq<string>>,
    mtu: Option<nat>,
    socks: Option<string>,
    forwards: Option<seq<string>>,
    hot: string)

  const UNMANAGED: Content := Content(None, None, None, None, None, "")

  datatype Row = Row(
    revision: nat,
    content: Content,
    lastGood: Option<Content>,
    lastError: Option<string>,
    failedRevision: Option<int>)

  // ---------- the row transactions ----------

  function RevisionOf(row: Option<Row>): nat { if row.Some? then row.value.revision else 0 }

  function ContentOf(row: Option<Row>): Content { if row.Some? then row.value.content else UNMANAGED }

  function LastGoodOf(row: Option<Row>): Option<Content> { if row.Some? then row.value.lastGood else None }

  /** An administrator's PUT: insert or overwrite under the next revision. */
  function Put(row: Option<Row>, update: Content): Row {
    match row
    case None => Row(1, update, None, None, None)
    case Some(r) => r.(revision := r.revision + 1, content := update)
  }

  /** The node reports an applied revision: confirm the content, guarded by the revision. */
  function Confirm(row: Option<Row>, applied: int): Option<Row> {
    match row
    case None => None
    case Some(r) =>
      if r.revision > 0 && r.revision <= applied then
        Some(r.(lastGood := Some(r.content), lastError := None, failedRevision := None))
      else row
  }

  function Anchor(row: Row): Content { if row.lastGood.Some? then row.lastGood.value else UNMANAGED }

  predicate RollsBack(row: Option<Row>, failed: int) { row.Some? && failed == row.value.revision }

  function Truncated(error: string): string { if |error| > 500 then error[..500] else error }

  /** A failed start is reported: roll the current revision back to its anchor, once. */
  function Fail(row: Option<Row>, failed: int, error: string): Option<Row> {
    if RollsBack(row, failed) then
      var r := row.value;
      Some(Row(r.revision + 1, Anchor(r), r.lastGood, Some(Truncated(error)), Some(failed)))
    else row
  }

  class SettingsTable {
    var rows: map<nat, Row>

    function RowOf(device: nat): Option<Row>
      reads this
    {
      if device in rows then Some(rows[device]) else None
    }

    constructor ()
      ensures rows == map[]
    {
      rows := map[];
    }

    method Get(device: nat) returns (revision: nat, content: Content)
      ensures revision == RevisionOf(RowOf(device)) && content == ContentOf(RowOf(device))
    {
      if device in rows {
        return rows[device].revision, rows[device].content;
      }
      return 0, UNMANAGED;
    }

    method SetDeviceSettings(device: nat, update: Content) returns (revision: nat)
      modifies this
      ensures rows == old(rows)[device := Put(old(RowOf(device)), update)]
      ensures device in rows && rows[device].content == update && rows[device].revision == revision
      ensures device in old(rows) ==>
                var was := old(rows)[device];
                && revision == was.revision + 1 && rows[device].lastGood == was.lastGood
                && rows[device].lastError == was.lastError && rows[device].failedRevision == was.failedRevision
      ensures device !in old(rows) ==> rows[device] == Row(1, update, None, None, None)
      ensures rows.Keys == old(rows).Keys + {device}
      ensures forall d :: d in old(rows) && d != device ==> rows[d] == old(rows)[d]
    {
      var current := if device in rows then rows[device].revision else 0;
      revision := current + 1;
      if device in rows {
        rows := rows[device := rows[device].(revision := revision, content := update)];
      } else {
        rows := rows[device := Row(revision, update, None, None, None)];
      }
    }

    method MarkSettingsApplied(device: nat, applied: int)
      modifies this
      ensures RowOf(device) == Confirm(old(RowOf(device)), applied)
      ensures device in rows ==>
                var was, row := old(rows)[device], rows[device];
                && row.revision == was.revision && row.content == was.content
                && if 0 < was.revision <= applied
                   then row.lastGood == Some(was.content) && row.lastError.None? && row.failedRevision.None?
                   else row == was
      ensures rows.Keys == old(rows).Keys && forall d :: d in rows && d != device ==> rows[d] == old(rows)[d]
    {
      if device in rows && rows[device].revision > 0 && rows[device].revision <= applied {
        var row := rows[device];
        rows := rows[device := row.(lastGood := Some(row.content), lastError := None, failedRevision := None)];
      }
    }

    method ReportSettingsFail(device: nat, failed: int, error: string) returns (rolled: Option<(Content, nat)>)
      modifies this
      ensures RowOf(device) == Fail(old(RowOf(device)), failed, error)
      ensures rolled.Some? <==> device in old(rows) && failed == old(rows)[device].revision
      ensures rolled.None? ==> rows == old(rows)
      ensures rolled.Some? ==>
                var was, row := old(rows)[device], rows[device];
                && rolled == Some((row.content, row.revision))
                && row.revision == was.revision + 1 && row.failedRevision == Some(failed)
                && row.lastGood == was.lastGood
                && (was.lastGood.Some? ==> row.content == was.lastGood.value)
                && (was.lastGood.None? ==> row.content == Content(None, None, None, None, None, ""))
                && row.lastError.Some? && row.lastError.value <= error
                && |row.lastError.value| == if |error| > 500 then 500 else |error|
      ensures rows.Keys == old(rows).Keys && forall d :: d in rows && d != device ==> rows[d] == old(rows)[d]
      ensures rolled == if RollsBack(old(RowOf(device)), failed)
                        then Some((ContentOf(RowOf(device)), RevisionOf(RowOf(device)))) else None
    {
      if device !in rows { return None; }
      var row := rows[device];
      if failed != row.revision { return None; }
      var content := if row.lastGood.Some? then row.lastGood.value else UNMANAGED;
      var next := row.revision + 1;
      rows := rows[device := Row(next, content, row.lastGood, Some(Truncated(error)), Some(failed))];
      return Some((content, next));
    }
  }
}
