/** Queue rows for a server's deployments: events times runs, flattened and sorted
    (apps/api/src/service.ts:48-58, 142-239). */
module DeploymentRows {
  import opened Ordering
  import opened InngestEvents

  /** A time in milliseconds, or what an unreadable date gives. */
  datatype Ms = At(n: int) | NotANumber

  datatype State = Pending | Active | Completed | Failed | Cancelled

  /** `error` is the `error` entry of an object `output`. */
  datatype Run = Run(runId: string, status: string, startedAt: Option<string>, startedAtMs: Option<int>,
                     endedAt: Option<string>, error: Option<string>)

  datatype Row = Row(id: string, name: string, data: Payload, timestamp: Ms, processedOn: Ms,
                     finishedOn: Option<Ms>, failedReason: Option<string>, state: State)

  /** `new Date(text).getTime()` */
  type DateReader = string -> Ms

  // --- Run state ----------------------------------------------------------------

  function LowerChar(c: char): char { if 'A' <= c <= 'Z' then c - 'A' + 'a' else c }

  function ToLower(s: string): string { seq(|s|, i requires 0 <= i < |s| => LowerChar(s[i])) }

  function RunStatusToState(status: string): State {
    var s := ToLower(status);
    if s == "running" then Active
    else if s == "completed" then Completed
    else if s == "failed" then Failed
    else if s == "cancelled" then Cancelled
    else if s == "queued" then Pending
    else Pending
  }

  /** `s` is the lower-case text `word` in any casing. */
  ghost predicate Spells(s: string, word: string) {
    && |s| == |word|
    && forall i :: 0 <= i < |s| ==>
         s[i] == word[i] || ('a' <= word[i] <= 'z' && s[i] as int == word[i] as int - 'a' as int + 'A' as int)
  }

  lemma LowerSpells(s: string, word: string)
    requires forall i :: 0 <= i < |word| ==> 'a' <= word[i] <= 'z'
    ensures ToLower(s) == word <==> Spells(s, word)
  {
    if ToLower(s) == word {
      forall i | 0 <= i < |s|
        ensures s[i] == word[i] || s[i] as int == word[i] as int - 'a' as int + 'A' as int
      {
        assert LowerChar(s[i]) == word[i];
      }
    }
    if Spells(s, word) {
      forall i | 0 <= i < |s| ensures LowerChar(s[i]) == word[i] {}
    }
  }

  /** What state a status gives, in any casing; statuses that are none of the four words are pending. */
  lemma StatusUpToCase(status: string)
    ensures RunStatusToState(status) == Active <==> Spells(status, "running")
    ensures RunStatusToState(status) == Completed <==> Spells(status, "completed")
    ensures RunStatusToState(status) == Failed <==> Spells(status, "failed")
    ensures RunStatusToState(status) == Cancelled <==> Spells(status, "cancelled")
  {
    LowerSpells(status, "running");
    LowerSpells(status, "completed");
    LowerSpells(status, "failed");
    LowerSpells(status, "cancelled");
  }

  predicate Terminal(s: State) { s.Completed? || s.Failed? || s.Cancelled? }

  // --- Rows ---------------------------------------------------------------------

  predicate IsRequested(e: Event, serverId: string) {
    e.name == "deployment/requested" && e.data.Some? && e.data.value.serverId == Some(serverId)
  }

  function Requested(events: seq<Event>, serverId: string): seq<Event> {
    if events == [] then []
    else
      var front, e := Requested(events[..|events| - 1], serverId), events[|events| - 1];
      if IsRequested(e, serverId) then front + [e] else front
  }

  function DataOf(e: Event): Payload { match e.data case Some(d) => d case None => Payload(None, "") }

  function RunsOf(e: Event, runs: map<string, seq<Run>>): seq<Run> { if e.id in runs then runs[e.id] else [] }

  function PendingRow(e: Event): Row { Row(e.id, e.name, DataOf(e), At(e.ts), At(e.ts), None, None, Pending) }

  function StartOf(e: Event, run: Run, date: DateReader): Ms {
    if run.startedAtMs.Some? then At(run.startedAtMs.value)
    else if Truthy(run.startedAt) then date(run.startedAt.value)
    else At(e.ts)
  }

  function EndOf(run: Run, date: DateReader): Option<Ms> {
    if Truthy(run.endedAt) then Some(date(run.endedAt.value)) else None
  }

  function RunRow(e: Event, run: Run, date: DateReader): Row {
    var state := RunStatusToState(run.status);
    Row(run.runId, e.name, DataOf(e), StartOf(e, run, date), StartOf(e, run, date),
        if Terminal(state) then EndOf(run, date) else None,
        if state.Failed? then run.error else None, state)
  }

  /** The rows of one event: one for each run, or a pending one. */
  function EventRows(e: Event, runs: seq<Run>, date: DateReader): seq<Row> {
    if runs == [] then [PendingRow(e)] else RunRows(e, runs, date)
  }

  function RunRows(e: Event, runs: seq<Run>, date: DateReader): (rows: seq<Row>)
    ensures |rows| == |runs|
  {
    if runs == [] then [] else RunRows(e, runs[..|runs| - 1], date) + [RunRow(e, runs[|runs| - 1], date)]
  }

  function AllRows(events: seq<Event>, runs: map<string, seq<Run>>, date: DateReader): seq<Row> {
    if events == [] then []
    else AllRows(events[..|events| - 1], runs, date)
         + EventRows(events[|events| - 1], RunsOf(events[|events| - 1], runs), date)
  }

  // --- Sorting ------------------------------------------------------------------

  /** The sign of `(b.timestamp ?? 0) - (a.timestamp ?? 0)` is positive: `a` belongs behind `b`. */
  predicate BelongsBehind(a: Row, b: Row) { a.timestamp.At? && b.timestamp.At? && a.timestamp.n < b.timestamp.n }

  /** `row` moved towards the front past all rows that belong behind it. */
  function InsertRow(rows: seq<Row>, row: Row): seq<Row> {
    if rows != [] && BelongsBehind(rows[|rows| - 1], row)
    then InsertRow(rows[..|rows| - 1], row) + [rows[|rows| - 1]]
    else rows + [row]
  }

  /** A stable sort with the program's comparator. */
  function SortRows(rows: seq<Row>): seq<Row> {
    if rows == [] then [] else InsertRow(SortRows(rows[..|rows| - 1]), rows[|rows| - 1])
  }

  /** The inner loop of `buildDeploymentRowsFromRuns`, over the runs of one event. */
  method AddRunRows(before: seq<Row>, ev: Event, runs: seq<Run>, date: DateReader) returns (rows: seq<Row>)
    ensures rows == before + RunRows(ev, runs, date)
  {
    rows := before;
    ghost var done := [];
    for j := 0 to |runs|
      invariant rows == before + done && done == RunRows(ev, runs[..j], date)
    {
      var run := runs[j];
      var state := RunStatusToState(run.status);
      var runStartedMs := StartOf(ev, run, date);
      var endedMs := EndOf(run, date);
      var failedReason := if state == Failed then run.error else None;
      var row := Row(run.runId, ev.name, DataOf(ev), runStartedMs, runStartedMs,
                     if state == Completed || state == Failed || state == Cancelled then endedMs else None,
                     failedReason, state);
      RunRowsNext(ev, runs, date, j);
      Append(before, done, row);
      rows, done := rows + [row], done + [row];
    }
    assert runs[..|runs|] == runs;
  }

  /** `buildDeploymentRowsFromRuns` */
  method BuildDeploymentRows(events: seq<Event>, runsByEventId: map<string, seq<Run>>, serverId: string,
                             date: DateReader)
    returns (rows: seq<Row>)
    ensures rows == SortRows(AllRows(Requested(events, serverId), runsByEventId, date))
    ensures exists requested :: Chosen(requested, events, serverId, |events|)
                                && Lists(rows, requested, runsByEventId, date)
  {
    var requested := Requested(events, serverId);
    rows := [];
    for i := 0 to |requested|
      invariant rows == AllRows(requested[..i], runsByEventId, date)
    {
      var ev := requested[i];
      var runs := RunsOf(ev, runsByEventId);
      AllRowsNext(requested, runsByEventId, date, i);
      if runs == [] {
        rows := rows + [PendingRow(ev)];
        continue;
      }
      rows := AddRunRows(rows, ev, runs, date);
    }
    assert requested[..|requested|] == requested;
    rows := SortRows(rows);
    RequestedChosen(events, serverId);
    SortedRowsList(requested, runsByEventId, date);
  }

  lemma AllRowsNext(events: seq<Event>, runs: map<string, seq<Run>>, date: DateReader, i: nat)
    requires i < |events|
    ensures AllRows(events[..i + 1], runs, date)
            == AllRows(events[..i], runs, date) + EventRows(events[i], RunsOf(events[i], runs), date)
  {
    assert events[..i + 1][..i] == events[..i];
  }

  lemma Append(before: seq<Row>, done: seq<Row>, row: Row)
    ensures before + done + [row] == before + (done + [row])
  {
  }

  lemma RunRowsNext(e: Event, runs: seq<Run>, date: DateReader, j: nat)
    requires j < |runs|
    ensures RunRows(e, runs[..j + 1], date) == RunRows(e, runs[..j], date) + [RunRow(e, runs[j], date)]
  {
    assert runs[..j + 1][..j] == runs[..j];
  }

  datatype Jobs = Listing(rows: seq<Row>) | MissingBaseUrl

  /** `fetchDeploymentJobs`, from the fetched events and the gathered runs on. */
  method FetchDeploymentJobs(signingKey: string, baseUrl: string, serverId: string, events: seq<Event>,
                             runsByEventId: map<string, seq<Run>>, date: DateReader) returns (jobs: Jobs)
    ensures signingKey == "" ==> jobs == Listing([])
    ensures signingKey != "" && baseUrl == "" ==> jobs == MissingBaseUrl
    ensures signingKey != "" && baseUrl != "" ==>
              && jobs == Listing(SortRows(AllRows(ToFetch(events, serverId), runsByEventId, date)))
              && exists fetched :: Chosen(fetched, events, serverId, 50)
                                   && Lists(jobs.rows, fetched, runsByEventId, date)
  {
    if signingKey == "" { return Listing([]); }
    if baseUrl == "" { return MissingBaseUrl; }
    var toFetch := ToFetch(events, serverId);
    var rows := BuildDeploymentRows(toFetch, runsByEventId, serverId, date);
    RequestedIsNoOp(events, serverId);
    ToFetchChosen(events, serverId);
    SortedRowsList(toFetch, runsByEventId, date);
    return Listing(rows);
  }

  const MAX_FETCHES := 50

  /** The first MAX_FETCHES events that request a deployment on the server. */
  function ToFetch(events: seq<Event>, serverId: string): seq<Event> {
    var requested := Requested(events, serverId);
    requested[..Min(|requested|, MAX_FETCHES)]
  }

  /** `chosen` are, in order, the events that ask for a deployment on the server, up to `limit` of them. */
  ghost predicate Chosen(chosen: seq<Event>, events: seq<Event>, serverId: string, limit: nat) {
    exists at: seq<nat> :: ChosenAt(chosen, events, serverId, limit, at)
  }

  ghost predicate ChosenAt(chosen: seq<Event>, events: seq<Event>, serverId: string, limit: nat, at: seq<nat>) {
    && |at| == |chosen| <= limit
    && (forall k :: 0 <= k < |at| ==> at[k] < |events| && chosen[k] == events[at[k]] && Asks(chosen[k], serverId))
    && (forall j, k :: 0 <= j < k < |at| ==> at[j] < at[k])
    && (forall i: nat :: i < |events| && Asks(events[i], serverId) && i !in at ==>
          |at| == limit && forall k :: 0 <= k < |at| ==> at[k] < i)
  }

  ghost predicate Asks(e: Event, serverId: string) {
    e.name == "deployment/requested" && e.data.Some? && e.data.value.serverId == Some(serverId)
  }

  /** `chosen` are all events that ask, and `at` are their places. */
  ghost predicate AllAsking(chosen: seq<Event>, events: seq<Event>, serverId: string, at: seq<nat>) {
    && |at| == |chosen| <= |events|
    && (forall k :: 0 <= k < |at| ==> at[k] < |events| && chosen[k] == events[at[k]] && Asks(chosen[k], serverId))
    && (forall j, k :: 0 <= j < k < |at| ==> at[j] < at[k])
    && (forall i: nat :: i < |events| && Asks(events[i], serverId) ==> i in at)
  }

  lemma OneMoreAsks(chosen: seq<Event>, events: seq<Event>, serverId: string, at: seq<nat>, e: Event)
    requires AllAsking(chosen, events, serverId, at)
    ensures Asks(e, serverId) ==> AllAsking(chosen + [e], events + [e], serverId, at + [|events|])
    ensures !Asks(e, serverId) ==> AllAsking(chosen, events + [e], serverId, at)
  {
    forall i: nat | i < |events + [e]| && Asks((events + [e])[i], serverId) ensures i in at + [|events|] {
      if i < |events| { assert i in at; } else { assert (at + [|events|])[|at|] == i; }
    }
  }

  /** Where the requested events stand. */
  lemma {:induction false} RequestedAt(events: seq<Event>, serverId: string) returns (at: seq<nat>)
    ensures AllAsking(Requested(events, serverId), events, serverId, at)
  {
    if events == [] {
      at := [];
    } else {
      var front, e := events[..|events| - 1], events[|events| - 1];
      at := RequestedAt(front, serverId);
      OneMoreAsks(Requested(front, serverId), front, serverId, at, e);
      if IsRequested(e, serverId) { at := at + [|front|]; }
      assert events == front + [e];
    }
  }

  lemma ToFetchChosen(events: seq<Event>, serverId: string)
    ensures Chosen(ToFetch(events, serverId), events, serverId, 50)
  {
    var all := RequestedAt(events, serverId);
    var at := all[..Min(|all|, MAX_FETCHES)];
    forall i: nat | i < |events| && Asks(events[i], serverId) && i !in at
      ensures |at| == 50 && forall k :: 0 <= k < |at| ==> at[k] < i
    {
      var j :| 0 <= j < |all| && all[j] == i;
      assert forall k :: 0 <= k < |at| ==> at[k] == all[k] != i;
      assert j >= |at|;
    }
    assert ChosenAt(ToFetch(events, serverId), events, serverId, 50, at);
  }

  lemma RequestedChosen(events: seq<Event>, serverId: string)
    ensures Chosen(Requested(events, serverId), events, serverId, |events|)
  {
    var at := RequestedAt(events, serverId);
    assert ChosenAt(Requested(events, serverId), events, serverId, |events|, at);
  }

  lemma {:induction false} RequestedAll(events: seq<Event>, serverId: string)
    ensures forall e :: e in Requested(events, serverId) <==> e in events && IsRequested(e, serverId)
  {
    if events == [] {
    } else {
      RequestedAll(events[..|events| - 1], serverId);
      assert events == events[..|events| - 1] + [events[|events| - 1]];
    }
  }

  lemma {:induction false} RequestedKeeps(events: seq<Event>, serverId: string)
    requires forall e :: e in events ==> IsRequested(e, serverId)
    ensures Requested(events, serverId) == events
  {
    if events == [] {
    } else {
      var front, e := events[..|events| - 1], events[|events| - 1];
      assert e in events && forall x :: x in front ==> x in events;
      RequestedKeeps(front, serverId);
      assert events == front + [e];
    }
  }

  /** The filter inside `buildDeploymentRowsFromRuns` does nothing to what `fetchDeploymentJobs` passes it. */
  lemma RequestedIsNoOp(events: seq<Event>, serverId: string)
    ensures Requested(ToFetch(events, serverId), serverId) == ToFetch(events, serverId)
  {
    RequestedAll(events, serverId);
    RequestedKeeps(ToFetch(events, serverId), serverId);
  }

  // --- What a row says ----------------------------------------------------------

  ghost predicate ShowsEvent(row: Row, e: Event) {
    row.name == e.name && row.data == (match e.data case Some(d) => d case None => Payload(None, ""))
  }

  /** The start of a run: its milliseconds, else its start date, else the time of its event. */
  ghost predicate StartsAt(row: Row, e: Event, run: Run, date: DateReader) {
    && row.processedOn == row.timestamp
    && (run.startedAtMs.Some? ==> row.timestamp == At(run.startedAtMs.value))
    && (run.startedAtMs.None? && run.startedAt.Some? && run.startedAt.value != "" ==>
          row.timestamp == date(run.startedAt.value))
    && (run.startedAtMs.None? && (run.startedAt.None? || run.startedAt.value == "") ==> row.timestamp == At(e.ts))
  }

  /** State, finish time and failure reason of a run. */
  ghost predicate EndsAs(row: Row, run: Run, date: DateReader) {
    var failed := Spells(run.status, "failed");
    var over := Spells(run.status, "completed") || Spells(run.status, "cancelled");
    && (row.state == Failed <==> failed)
    && (row.state == Completed <==> Spells(run.status, "completed"))
    && (row.state == Cancelled <==> Spells(run.status, "cancelled"))
    && (row.state == Active <==> Spells(run.status, "running"))
    && row.finishedOn == (if (failed || over) && run.endedAt.Some? && run.endedAt.value != ""
                          then Some(date(run.endedAt.value)) else None)
    && row.failedReason == if failed then run.error else None
  }

  /** `row` tells of the run `run` of event `e`. */
  ghost predicate ShowsRun(row: Row, e: Event, run: Run, date: DateReader) {
    row.id == run.runId && ShowsEvent(row, e) && StartsAt(row, e, run, date) && EndsAs(row, run, date)
  }

  /** `row` tells that event `e` waits for a run. */
  ghost predicate ShowsWaiting(row: Row, e: Event) {
    && row.id == e.id && ShowsEvent(row, e) && row.timestamp == At(e.ts) && row.processedOn == At(e.ts)
    && row.finishedOn == None && row.failedReason == None && row.state == Pending
  }

  lemma RunRowShows(e: Event, run: Run, date: DateReader)
    ensures ShowsRun(RunRow(e, run, date), e, run, date)
  {
    StatusUpToCase(run.status);
  }

  /** The rows before sorting: a block for each event, at the place that the counts of the earlier events give, with a
      row for each run in order, or one row of a waiting event. */
  ghost predicate InBlocks(rows: seq<Row>, events: seq<Event>, runs: map<string, seq<Run>>, date: DateReader) {
    && |rows| == RowCount(events, runs)
    && forall i :: 0 <= i < |events| ==> IsBlock(rows, RowCount(events[..i], runs), events[i], runs, date)
  }

  ghost predicate IsBlock(rows: seq<Row>, start: nat, e: Event, runs: map<string, seq<Run>>, date: DateReader) {
    if e.id in runs && runs[e.id] != []
    then start + |runs[e.id]| <= |rows|
         && forall j :: 0 <= j < |runs[e.id]| ==> ShowsRun(rows[start + j], e, runs[e.id][j], date)
    else start < |rows| && ShowsWaiting(rows[start], e)
  }

  lemma AllRowsInBlocks(events: seq<Event>, runs: map<string, seq<Run>>, date: DateReader)
    ensures InBlocks(AllRows(events, runs, date), events, runs, date)
  {
    AllRowsCount(events, runs, date);
    forall i | 0 <= i < |events|
      ensures IsBlock(AllRows(events, runs, date), RowCount(events[..i], runs), events[i], runs, date)
    {
      RowsByEvent(events, runs, date, i);
      BlockShows(AllRows(events, runs, date), RowCount(events[..i], runs), events[i], runs, date);
    }
  }

  lemma BlockShows(rows: seq<Row>, start: nat, e: Event, runs: map<string, seq<Run>>, date: DateReader)
    requires HasBlock(rows, start, EventRows(e, RunsOf(e, runs), date))
    ensures IsBlock(rows, start, e, runs, date)
  {
    var block := EventRows(e, RunsOf(e, runs), date);
    if RunsOf(e, runs) == [] {
      assert rows[start] == rows[start..start + 1][0];
    } else {
      forall j | 0 <= j < |runs[e.id]| ensures ShowsRun(rows[start + j], e, runs[e.id][j], date) {
        assert rows[start + j] == block[j];
        RunRowsAt(e, runs[e.id], date, j);
        RunRowShows(e, runs[e.id][j], date);
      }
    }
  }

  /** `rows` are the rows `flat` rearranged: by non-increasing time if all dates are readable, and rows of one time in
      their order in `flat`. */
  ghost predicate Arranged(rows: seq<Row>, flat: seq<Row>) {
    && multiset(rows) == multiset(flat)
    && (forall t :: Dated(rows, t) == Dated(flat, t))
    && ((forall r :: r in flat ==> r.timestamp.At?) ==>
          forall i, j :: 0 <= i < j < |rows| ==>
            rows[i].timestamp.At? && rows[j].timestamp.At? && rows[i].timestamp.n >= rows[j].timestamp.n)
  }

  lemma SortArranges(flat: seq<Row>)
    ensures Arranged(SortRows(flat), flat)
  {
    SortRowsElements(flat);
    forall t ensures Dated(SortRows(flat), t) == Dated(flat, t) { SortIsStable(flat, t); }
    if forall r :: r in flat ==> r.timestamp.At? {
      SortedByTimestamp(flat);
      assert forall r :: r in SortRows(flat) ==> r.timestamp.At?;
    }
  }

  /** `rows` are the listing of `events`. */
  ghost predicate Lists(rows: seq<Row>, events: seq<Event>, runs: map<string, seq<Run>>, date: DateReader) {
    exists flat :: InBlocks(flat, events, runs, date) && Arranged(rows, flat)
  }

  lemma SortedRowsList(events: seq<Event>, runs: map<string, seq<Run>>, date: DateReader)
    ensures Lists(SortRows(AllRows(events, runs, date)), events, runs, date)
  {
    AllRowsInBlocks(events, runs, date);
    SortArranges(AllRows(events, runs, date));
  }

  /** Every run of an event has a row that tells of it, and so has every event without runs. */
  lemma EveryRunIsListed(rows: seq<Row>, events: seq<Event>, runs: map<string, seq<Run>>, date: DateReader, e: Event)
    requires Lists(rows, events, runs, date) && e in events
    ensures if e.id in runs && runs[e.id] != []
            then forall run :: run in runs[e.id] ==> exists row :: row in rows && ShowsRun(row, e, run, date)
            else exists row :: row in rows && ShowsWaiting(row, e)
  {
    var flat :| InBlocks(flat, events, runs, date) && Arranged(rows, flat);
    SameElements(rows, flat);
    var i :| 0 <= i < |events| && events[i] == e;
    BlockHasRows(flat, RowCount(events[..i], runs), e, runs, date);
  }

  lemma BlockHasRows(flat: seq<Row>, start: nat, e: Event, runs: map<string, seq<Run>>, date: DateReader)
    requires IsBlock(flat, start, e, runs, date)
    ensures if e.id in runs && runs[e.id] != []
            then forall run :: run in runs[e.id] ==> exists row :: row in flat && ShowsRun(row, e, run, date)
            else exists row :: row in flat && ShowsWaiting(row, e)
  {
    if e.id in runs && runs[e.id] != [] {
      forall run | run in runs[e.id] ensures exists row :: row in flat && ShowsRun(row, e, run, date) {
        var j :| 0 <= j < |runs[e.id]| && runs[e.id][j] == run;
        assert flat[start + j] in flat && ShowsRun(flat[start + j], e, run, date);
      }
    } else {
      assert flat[start] in flat && ShowsWaiting(flat[start], e);
    }
  }

  /** The row tells of a run of the event, or that it has none. */
  ghost predicate TellsOf(row: Row, e: Event, runs: map<string, seq<Run>>, date: DateReader) {
    if e.id in runs && runs[e.id] != [] then exists run :: run in runs[e.id] && ShowsRun(row, e, run, date)
    else ShowsWaiting(row, e)
  }

  lemma BlockTells(rows: seq<Row>, start: nat, e: Event, runs: map<string, seq<Run>>, date: DateReader, k: nat)
    requires IsBlock(rows, start, e, runs, date)
    requires start <= k < start + if RunsOf(e, runs) == [] then 1 else |RunsOf(e, runs)|
    ensures k < |rows| && TellsOf(rows[k], e, runs, date)
  {
    if RunsOf(e, runs) != [] {
      var j := k - start;
      assert runs[e.id][j] in runs[e.id] && ShowsRun(rows[start + j], e, runs[e.id][j], date);
    }
  }

  /** Every listed row tells of a run of one of the events, or of one of them without runs. */
  lemma EveryRowTells(rows: seq<Row>, events: seq<Event>, runs: map<string, seq<Run>>, date: DateReader, row: Row)
    requires Lists(rows, events, runs, date) && row in rows
    ensures exists e :: e in events && TellsOf(row, e, runs, date)
  {
    var flat :| InBlocks(flat, events, runs, date) && Arranged(rows, flat);
    SameElements(rows, flat);
    var k :| 0 <= k < |flat| && flat[k] == row;
    var i := BlockOf(events, runs, k);
    BlockTells(flat, RowCount(events[..i], runs), events[i], runs, date, k);
    assert events[i] in events;
  }

  /** A row is told apart by what it tells. */
  lemma TellsOne(a: Row, b: Row, e: Event, run: Run, date: DateReader)
    requires ShowsRun(a, e, run, date) && ShowsRun(b, e, run, date)
    ensures a == b
  {
  }

  /** A row is listed exactly if it tells of a run of one of the events, or of one of them without runs. */
  lemma EveryRowAccounted(rows: seq<Row>, events: seq<Event>, runs: map<string, seq<Run>>, date: DateReader, row: Row)
    requires Lists(rows, events, runs, date)
    ensures row in rows <==> exists e :: e in events && TellsOf(row, e, runs, date)
  {
    if row in rows { EveryRowTells(rows, events, runs, date, row); }
    if e :| e in events && TellsOf(row, e, runs, date) {
      EveryRunIsListed(rows, events, runs, date, e);
      if e.id in runs && runs[e.id] != [] {
        var run :| run in runs[e.id] && ShowsRun(row, e, run, date);
        var other :| other in rows && ShowsRun(other, e, run, date);
        TellsOne(row, other, e, run, date);
      } else {
        var other :| other in rows && ShowsWaiting(other, e);
        assert row == other;
      }
    }
  }

  /** A finish time stands only on completed, failed and cancelled rows, a failure reason only on failed rows. */
  lemma RowFields(rows: seq<Row>, events: seq<Event>, runs: map<string, seq<Run>>, date: DateReader, row: Row)
    requires Lists(rows, events, runs, date) && row in rows
    ensures row.finishedOn.Some? ==> row.state in {Completed, Failed, Cancelled}
    ensures row.failedReason.Some? ==> row.state == Failed
    ensures row.processedOn == row.timestamp
  {
    EveryRowTells(rows, events, runs, date, row);
  }

  /** The event whose block covers place `k`. */
  lemma {:induction false} BlockOf(events: seq<Event>, runs: map<string, seq<Run>>, k: nat) returns (i: nat)
    requires k < RowCount(events, runs)
    ensures i < |events|
    ensures var start, n := RowCount(events[..i], runs), |RunsOf(events[i], runs)|;
            start <= k < start + if n == 0 then 1 else n
  {
    var front := events[..|events| - 1];
    if k < RowCount(front, runs) {
      i := BlockOf(front, runs, k);
      assert front[..i] == events[..i];
    } else {
      i := |events| - 1;
    }
  }

  // --- Conservation -------------------------------------------------------------

  lemma {:induction false} InsertRowElements(rows: seq<Row>, row: Row)
    ensures multiset(InsertRow(rows, row)) == multiset(rows) + multiset([row])
  {
    if rows == [] || !BelongsBehind(rows[|rows| - 1], row) {
    } else {
      InsertRowElements(rows[..|rows| - 1], row);
      assert rows == rows[..|rows| - 1] + [rows[|rows| - 1]];
    }
  }

  lemma {:induction false} SortRowsElements(rows: seq<Row>)
    ensures multiset(SortRows(rows)) == multiset(rows)
  {
    if rows == [] {
    } else {
      SortRowsElements(rows[..|rows| - 1]);
      InsertRowElements(SortRows(rows[..|rows| - 1]), rows[|rows| - 1]);
      assert rows == rows[..|rows| - 1] + [rows[|rows| - 1]];
    }
  }

  /** Sum over the events of max(1, number of runs). */
  function RowCount(events: seq<Event>, runs: map<string, seq<Run>>): nat {
    if events == [] then 0
    else RowCount(events[..|events| - 1], runs)
         + if RunsOf(events[|events| - 1], runs) == [] then 1 else |RunsOf(events[|events| - 1], runs)|
  }

  lemma {:induction false} AllRowsCount(events: seq<Event>, runs: map<string, seq<Run>>, date: DateReader)
    ensures |AllRows(events, runs, date)| == RowCount(events, runs)
  {
    if events == [] {
    } else {
      AllRowsCount(events[..|events| - 1], runs, date);
    }
  }

  lemma {:induction false} AllRowsPrefix(events: seq<Event>, runs: map<string, seq<Run>>, date: DateReader, n: nat)
    requires n <= |events|
    ensures AllRows(events[..n], runs, date) <= AllRows(events, runs, date)
  {
    if n == |events| {
      assert events[..n] == events;
    } else {
      var front := events[..|events| - 1];
      AllRowsPrefix(front, runs, date, n);
      assert front[..n] == events[..n];
    }
  }

  ghost predicate HasBlock(rows: seq<Row>, start: nat, block: seq<Row>) {
    start + |block| <= |rows| && rows[start..start + |block|] == block
  }

  /** Every event has its own block of rows, at the place that the counts of the earlier events give. */
  lemma RowsByEvent(events: seq<Event>, runs: map<string, seq<Run>>, date: DateReader, i: nat)
    requires i < |events|
    ensures HasBlock(AllRows(events, runs, date), RowCount(events[..i], runs),
                     EventRows(events[i], RunsOf(events[i], runs), date))
  {
    AllRowsCount(events[..i], runs, date);
    AllRowsNext(events, runs, date, i);
    AllRowsPrefix(events, runs, date, i + 1);
    BlockInPlace(AllRows(events[..i], runs, date), EventRows(events[i], RunsOf(events[i], runs), date),
                 AllRows(events, runs, date));
  }

  lemma BlockInPlace(before: seq<Row>, block: seq<Row>, all: seq<Row>)
    requires before + block <= all
    ensures HasBlock(all, |before|, block)
  {
  }

  /** The listing is a permutation of one row for each run and one pending row for each event without runs. */
  lemma RowsConserved(events: seq<Event>, runs: map<string, seq<Run>>, date: DateReader)
    ensures var rows := SortRows(AllRows(events, runs, date));
            && multiset(rows) == multiset(AllRows(events, runs, date))
            && |rows| == RowCount(events, runs)
  {
    var all := AllRows(events, runs, date);
    SortRowsElements(all);
    SameElements(SortRows(all), all);
    AllRowsCount(events, runs, date);
  }

  /** The row of each run, in order. */
  lemma {:induction false} RunRowsAt(e: Event, runs: seq<Run>, date: DateReader, j: nat)
    requires j < |runs|
    ensures RunRows(e, runs, date)[j] == RunRow(e, runs[j], date)
  {
    if j == |runs| - 1 {
    } else {
      RunRowsAt(e, runs[..|runs| - 1], date, j);
    }
  }

  // --- Order --------------------------------------------------------------------

  ghost predicate InOrder(rows: seq<Row>) {
    forall i, j :: 0 <= i < j < |rows| ==> !BelongsBehind(rows[i], rows[j])
  }

  predicate AllDated(rows: seq<Row>) { forall r :: r in rows ==> r.timestamp.At? }

  lemma {:induction false} InsertRowInOrder(rows: seq<Row>, row: Row)
    requires InOrder(rows) && AllDated(rows) && row.timestamp.At?
    ensures InOrder(InsertRow(rows, row))
  {
    if rows == [] {
    } else if !BelongsBehind(rows[|rows| - 1], row) {
      forall i | 0 <= i < |rows| ensures !BelongsBehind(rows[i], row) {
        assert rows[i] in rows && rows[|rows| - 1] in rows;
      }
    } else {
      var front, last := rows[..|rows| - 1], rows[|rows| - 1];
      InsertRowInOrder(front, row);
      InsertRowElements(front, row);
      forall r | r in InsertRow(front, row) ensures !BelongsBehind(r, last) {
        assert r in multiset(InsertRow(front, row));
        if r != row { assert r in multiset(front); }
      }
    }
  }

  /** With readable dates the listing is sorted by non-increasing timestamp. */
  lemma {:induction false} SortedByTimestamp(rows: seq<Row>)
    requires AllDated(rows)
    ensures InOrder(SortRows(rows)) && AllDated(SortRows(rows))
    ensures forall i, j :: 0 <= i < j < |SortRows(rows)| ==>
              SortRows(rows)[i].timestamp.n >= SortRows(rows)[j].timestamp.n
  {
    SortRowsElements(rows);
    SameElements(SortRows(rows), rows);
    if rows == [] {
    } else {
      var front := rows[..|rows| - 1];
      assert rows[|rows| - 1] in rows;
      forall r | r in front ensures r in rows {}
      SortedByTimestamp(front);
      InsertRowInOrder(SortRows(front), rows[|rows| - 1]);
    }
  }

  /** The rows of one timestamp, in order. */
  function Dated(rows: seq<Row>, t: Ms): seq<Row> {
    if rows == [] then []
    else Dated(rows[..|rows| - 1], t) + if rows[|rows| - 1].timestamp == t then [rows[|rows| - 1]] else []
  }

  lemma {:induction false} InsertRowStable(rows: seq<Row>, row: Row, t: Ms)
    ensures Dated(InsertRow(rows, row), t) == Dated(rows, t) + if row.timestamp == t then [row] else []
  {
    if rows == [] || !BelongsBehind(rows[|rows| - 1], row) {
      assert (rows + [row])[..|rows|] == rows;
    } else {
      var front, last := rows[..|rows| - 1], rows[|rows| - 1];
      InsertRowStable(front, row, t);
      assert (InsertRow(front, row) + [last])[..|InsertRow(front, row)|] == InsertRow(front, row);
    }
  }

  /** Rows of equal timestamps keep the order of the events and of their runs. */
  lemma {:induction false} SortIsStable(rows: seq<Row>, t: Ms)
    ensures Dated(SortRows(rows), t) == Dated(rows, t)
  {
    if rows == [] {
    } else {
      SortIsStable(rows[..|rows| - 1], t);
      InsertRowStable(SortRows(rows[..|rows| - 1]), rows[|rows| - 1], t);
    }
  }

  /** The comparator treats "neither belongs behind the other" as equality; on these rows that is transitive. */
  ghost predicate ComparatorConsistent(rows: seq<Row>) {
    forall a, b, c :: a in rows && b in rows && c in rows && Tied(a, b) && Tied(b, c) ==> Tied(a, c)
  }

  predicate Tied(a: Row, b: Row) { !BelongsBehind(a, b) && !BelongsBehind(b, a) }

  ghost predicate OneDate(rows: seq<Row>) {
    forall a, b :: a in rows && b in rows && a.timestamp.At? && b.timestamp.At? ==> a.timestamp == b.timestamp
  }

  /** An unreadable start date ties with everything: the comparator is usable for sorting exactly when no row has
      one, or all readable dates agree. Otherwise the order is up to the JavaScript engine. */
  lemma ConsistentComparator(rows: seq<Row>)
    ensures ComparatorConsistent(rows) <==> AllDated(rows) || OneDate(rows)
  {
    if ComparatorConsistent(rows) && !AllDated(rows) {
      var b :| b in rows && !b.timestamp.At?;
      forall a, c | a in rows && c in rows && a.timestamp.At? && c.timestamp.At? ensures a.timestamp == c.timestamp {
        assert Tied(a, b) && Tied(b, c);
      }
    }
  }

  lemma {:induction false} OneDateStays(rows: seq<Row>)
    requires OneDate(rows)
    ensures SortRows(rows) == rows && InOrder(rows)
  {
    if rows == [] {
    } else {
      var front, last := rows[..|rows| - 1], rows[|rows| - 1];
      assert rows == front + [last];
      OneDateStays(front);
      if front != [] { assert front[|front| - 1] in rows && last in rows; }
      forall i, j | 0 <= i < j < |rows| ensures !BelongsBehind(rows[i], rows[j]) {
        assert rows[i] in rows && rows[j] in rows;
      }
    }
  }

  /** `a` stands somewhere before `c`. */
  ghost predicate Precedes(rows: seq<Row>, a: Row, c: Row) {
    exists i, j :: 0 <= i < j < |rows| && rows[i] == a && rows[j] == c
  }

  /** An insertion changes nothing in the order of the other rows. */
  lemma {:induction false} InsertRowKeepsOrder(rows: seq<Row>, row: Row, a: Row, c: Row)
    requires Precedes(rows, a, c)
    ensures Precedes(InsertRow(rows, row), a, c)
  {
    var i, j :| 0 <= i < j < |rows| && rows[i] == a && rows[j] == c;
    if BelongsBehind(rows[|rows| - 1], row) {
      var front, last := rows[..|rows| - 1], rows[|rows| - 1];
      var inner := InsertRow(front, row);
      if j < |front| {
        assert front[i] == a && front[j] == c;
        InsertRowKeepsOrder(front, row, a, c);
        var k, l :| 0 <= k < l < |inner| && inner[k] == a && inner[l] == c;
        assert (inner + [last])[k] == a && (inner + [last])[l] == c;
      } else {
        InsertRowElements(front, row);
        assert a in multiset(front) by { assert front[i] == a; }
        assert a in multiset(inner);
        var k :| 0 <= k < |inner| && inner[k] == a;
        assert (inner + [last])[k] == a && (inner + [last])[|inner|] == c;
      }
    } else {
      assert (rows + [row])[i] == a && (rows + [row])[j] == c;
    }
  }

  lemma {:induction false} SortKeepsOrder(first: seq<Row>, rest: seq<Row>, a: Row, c: Row)
    requires Precedes(SortRows(first), a, c)
    ensures Precedes(SortRows(first + rest), a, c)
  {
    if rest == [] {
      assert first + rest == first;
    } else {
      var front, x := first + rest[..|rest| - 1], rest[|rest| - 1];
      SortKeepsOrder(first, rest[..|rest| - 1], a, c);
      OneMoreKeepsOrder(front, x, a, c);
      LastApart(first, rest);
    }
  }

  lemma LastApart(first: seq<Row>, rest: seq<Row>)
    requires rest != []
    ensures first + rest == first + rest[..|rest| - 1] + [rest[|rest| - 1]]
  {
  }

  lemma OneMoreKeepsOrder(rows: seq<Row>, x: Row, a: Row, c: Row)
    requires Precedes(SortRows(rows), a, c)
    ensures Precedes(SortRows(rows + [x]), a, c)
  {
    assert (rows + [x])[..|rows|] == rows;
    InsertRowKeepsOrder(SortRows(rows), x, a, c);
  }

  /** The claim of a sorted listing fails for such rows: a stable sort leaves 1, unreadable, 2 as it is. */
  lemma UnreadableDateBreaksTheOrder(a: Row, b: Row, c: Row)
    requires a.timestamp.At? && b.timestamp == NotANumber && c.timestamp.At? && a.timestamp.n < c.timestamp.n
    ensures SortRows([a, b, c]) == [a, b, c] && !InOrder(SortRows([a, b, c]))
  {
    assert [a, b, c][..2] == [a, b] && [a, b][..1] == [a] && [a][..0] == [];
    assert SortRows([a]) == [a];
    assert SortRows([a, b]) == [a, b];
    assert BelongsBehind([a, b, c][0], [a, b, c][2]);
  }

  lemma TakeOut(rows: seq<Row>, x: Row) returns (rest: seq<Row>)
    requires x in rows
    ensures multiset(rows) == multiset{x} + multiset(rest)
  {
    var k :| 0 <= k < |rows| && rows[k] == x;
    rest := rows[..k] + rows[k + 1..];
    assert rows == rows[..k] + [x] + rows[k + 1..];
  }

  /** The rows with three given ones of different timestamps in front. */
  lemma ThreeFirst(rows: seq<Row>, a: Row, b: Row, c: Row) returns (rest: seq<Row>)
    requires a in rows && b in rows && c in rows && a != b && b != c && a != c
    ensures multiset(rows) == multiset{a, b, c} + multiset(rest)
  {
    var noA := TakeOut(rows, a);
    assert b in multiset(rows) && c in multiset(rows);
    assert b in noA && c in noA by { assert b in multiset(noA) && c in multiset(noA); }
    var noB := TakeOut(noA, b);
    assert c in noB by { assert c in multiset(noA) && c in multiset(noB); }
    rest := TakeOut(noB, c);
  }

  /** Rows in an order in which the sort goes wrong. */
  lemma BadOrder(rows: seq<Row>, a: Row, b: Row, c: Row) returns (other: seq<Row>)
    requires a in rows && b in rows && c in rows && b.timestamp == NotANumber
    requires a.timestamp.At? && c.timestamp.At? && a.timestamp.n < c.timestamp.n
    ensures multiset(other) == multiset(rows) && !InOrder(SortRows(other))
  {
    var rest := ThreeFirst(rows, a, b, c);
    other := [a, b, c] + rest;
    assert multiset([a, b, c]) == multiset{a, b, c};
    UnreadableDateBreaksTheOrder(a, b, c);
    assert [a, b, c][0] == a && [a, b, c][2] == c;
    SortKeepsOrder([a, b, c], rest, a, c);
  }

  /** In whatever order the rows come, the listing is sorted exactly if the comparator is consistent on them:
      no date is unreadable, or all readable ones agree. */
  lemma SortedExactlyIfConsistent(rows: seq<Row>)
    ensures (forall other :: multiset(other) == multiset(rows) ==> InOrder(SortRows(other)))
            <==> AllDated(rows) || OneDate(rows)
  {
    if AllDated(rows) || OneDate(rows) {
      forall other | multiset(other) == multiset(rows) ensures InOrder(SortRows(other)) {
        SameElements(other, rows);
        if AllDated(rows) { SortedByTimestamp(other); } else { OneDateStays(other); }
      }
    } else {
      var b :| b in rows && !b.timestamp.At?;
      var a, c :| a in rows && c in rows && a.timestamp.At? && c.timestamp.At? && a.timestamp != c.timestamp;
      var other;
      if a.timestamp.n < c.timestamp.n { other := BadOrder(rows, a, b, c); } else { other := BadOrder(rows, c, b, a); }
    }
  }
}
