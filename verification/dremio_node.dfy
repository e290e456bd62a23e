/** The n8n node's `execute`: for each input item, submit the item's SQL,
    poll the job until it leaves the transient states, fetch the rows if
    it completed, and emit one output record per row tagged with the
    item's index. With continue-on-fail an item's error becomes an
    `{error}` record; without it the first error ends the batch. */
module DremioNode {
  import opened JsValue
  import opened Text
  import opened Endpoints
  import opened JobProtocol

  /** The credential fields `execute` reads. A missing project identifier
      is None and is interpolated as "undefined". */
  datatype Credentials = Credentials(baseUrl: string, kind: string, projectId: Option<string>)

  /** The node parameters and host flags `execute` consults once per batch. */
  datatype NodeParams = NodeParams(
    resource: string,
    operation: string,
    continueOnFail: bool,
    creds: Credentials)

  /** What the service answers to one query: the submit response's `id`
      (None when absent), the successive status replies, and the results
      response's `rows` (None when absent or falsy). */
  datatype Server = Server(
    submit: Reply<Option<string>>,
    statuses: seq<Reply<JobState>>,
    results: Reply<Option<seq<Row>>>)

  /** One input item: its `sql` parameter and the service's answers to it. */
  datatype Item = Item(sql: string, server: Server)

  /** How one query ended: with rows, with an exception carrying a message,
      or still polling when the scripted replies ran out. */
  datatype QueryOutcome = Rows(rows: seq<Row>) | Threw(message: string) | StillPolling

  /** The requests one query made, in order, and how it ended. */
  datatype QueryRun = QueryRun(calls: seq<Call>, outcome: QueryOutcome)

  /** An output record: the JSON payload and the index of the input item
      it is paired with. */
  datatype Record = Record(json: Row, pairedItem: nat)

  /** What one item contributes: records, an error that aborts the batch,
      or nothing yet because its job is still polling. */
  datatype ItemOutcome = Emitted(records: seq<Record>) | Raised(message: string) | Hung

  /** How the batch ended. `Aborted` is the node throwing: `execute`
      rejects, and the records appended before the failing item are not
      handed back to the host. `Blocked` is an item whose job never left
      the transient states within the scripted replies. */
  datatype BatchResult =
    | Returned(records: seq<Record>)
    | Aborted(item: nat, message: string, appended: seq<Record>)
    | Blocked(item: nat, appended: seq<Record>)

  /** The exception message for a job that left the loop in any state
      other than COMPLETED. */
  function JobFailedMessage(state: JobState): (m: string)
    // A fixed prefix, then the state's name; a missing state reads "undefined".
    ensures |m| >= |FailedPrefix| && m[..|FailedPrefix|] == FailedPrefix
    ensures state.Some? ==> m[|FailedPrefix|..] == state.value
    ensures state.None? ==> m[|FailedPrefix|..] == "undefined"
  {
    FailedPrefix + Show(state)
  }

  const FailedPrefix: string := "Job failed with state: "

  /** `resultsRes.rows || []`. */
  function RowsOrEmpty(rows: Option<seq<Row>>): (r: seq<Row>)
    ensures rows.None? ==> r == []
    ensures rows.Some? ==> r == rows.value
  {
    match rows
    case None => []
    case Some(rs) => rs
  }

  /** One query: submit, poll with the node's loop, and fetch the rows only
      when the loop ended in COMPLETED. */
  function RunQuery(creds: Credentials, sql: string, srv: Server): (r: QueryRun)
    // The first request is always the submit, to the cleaned base's submit URL.
    ensures |r.calls| >= 1
    ensures r.calls[0] == Submit(SubmitUrl(creds.kind, CleanBaseUrl(creds.baseUrl), creds.projectId), sql)
    // A failed submit makes no further request.
    ensures srv.submit.Failed? ==> r == QueryRun(r.calls[..1], Threw(srv.submit.message))
    // After a successful submit, every status request goes to the job's URL,
    // one per poll of the node's loop.
    ensures srv.submit.Ok? ==>
      var polls := NodePoll(InitialState, srv.statuses).polls;
      && |r.calls| >= 1 + polls
      && forall k :: 1 <= k <= polls ==>
           r.calls[k] == Status(StatusUrl(creds.kind, CleanBaseUrl(creds.baseUrl), creds.projectId, srv.submit.body))
    // Results are requested exactly when the loop ended in COMPLETED, and
    // then as the last request, to the status URL plus "/results".
    ensures RequestedResults(r.calls) <==>
      srv.submit.Ok? && NodePoll(InitialState, srv.statuses).end == Exited(Completed)
    ensures RequestedResults(r.calls) ==>
      && |r.calls| == 2 + NodePoll(InitialState, srv.statuses).polls
      && r.calls[|r.calls| - 1] ==
         Results(StatusUrl(creds.kind, CleanBaseUrl(creds.baseUrl), creds.projectId, srv.submit.body) + "/results")
    // Without a fetch, the trace is the submit and the status requests only.
    ensures srv.submit.Ok? && !RequestedResults(r.calls) ==>
      |r.calls| == 1 + NodePoll(InitialState, srv.statuses).polls
    // A failed status request throws its own error.
    ensures srv.submit.Ok? && NodePoll(InitialState, srv.statuses).end.PollFailed? ==>
      r.outcome == Threw(NodePoll(InitialState, srv.statuses).end.message)
    // A failed fetch throws its own error.
    ensures RequestedResults(r.calls) && srv.results.Failed? ==> r.outcome == Threw(srv.results.message)
    // Any other exit state throws, naming the state.
    ensures srv.submit.Ok? && NodePoll(InitialState, srv.statuses).end.Exited? &&
            NodePoll(InitialState, srv.statuses).end.state != Completed ==>
      r.outcome == Threw(JobFailedMessage(NodePoll(InitialState, srv.statuses).end.state))
    // Rows come back only from a successful results request, missing rows as none.
    ensures r.outcome.Rows? <==> RequestedResults(r.calls) && srv.results.Ok?
    ensures r.outcome.Rows? ==> r.outcome.rows == RowsOrEmpty(srv.results.body)
    ensures r.outcome.StillPolling? <==>
      srv.submit.Ok? && NodePoll(InitialState, srv.statuses).end.OutOfReplies?
  {
    var clean := CleanBaseUrl(creds.baseUrl);
    var submitCall := Submit(SubmitUrl(creds.kind, clean, creds.projectId), sql);
    match srv.submit
    case Failed(m) => QueryRun([submitCall], Threw(m))
    case Ok(jobId) =>
      var statusUrl := StatusUrl(creds.kind, clean, creds.projectId, jobId);
      var t := NodePoll(InitialState, srv.statuses);
      var polled := [submitCall] + Repeat(Status(statusUrl), t.polls);
      match t.end
      case PollFailed(m) => QueryRun(polled, Threw(m))
      case OutOfReplies => QueryRun(polled, StillPolling)
      case Exited(state) =>
        if state != Completed then QueryRun(polled, Threw(JobFailedMessage(state)))
        else
          CallSitesAgree(creds.kind, clean, creds.projectId, jobId);
          var calls := polled + [Results(ResultsUrl(creds.kind, clean, creds.projectId, jobId))];
          assert calls[|calls| - 1].Results?;
          match srv.results
          case Failed(m) => QueryRun(calls, Threw(m))
          case Ok(rows) => QueryRun(calls, Rows(RowsOrEmpty(rows)))
  }

  /** The node only does anything for the query resource's execute operation. */
  predicate IsQueryExecute(p: NodeParams) {
    p.resource == "query" && p.operation == "execute"
  }

  /** The `{ error: message }` record continue-on-fail emits. */
  function ErrorRecord(message: string, i: nat): Record {
    Record(map["error" := JString(message)], i)
  }

  /** One output record per row, in row order, each paired with item `i`. */
  function RowRecords(rows: seq<Row>, i: nat): (rs: seq<Record>)
    ensures |rs| == |rows|
    ensures forall k :: 0 <= k < |rs| ==> rs[k].json == rows[k] && rs[k].pairedItem == i
  {
    if rows == [] then [] else [Record(rows[0], i)] + RowRecords(rows[1..], i)
  }

  /** What item `i` contributes to the output. */
  function ItemOutput(p: NodeParams, i: nat, item: Item): (o: ItemOutcome)
    ensures !IsQueryExecute(p) ==> o == Emitted([])
    ensures o.Emitted? ==> forall k :: 0 <= k < |o.records| ==> o.records[k].pairedItem == i
    ensures p.continueOnFail ==> !o.Raised?
    ensures IsQueryExecute(p) ==>
      var q := RunQuery(p.creds, item.sql, item.server).outcome;
      && (q.Rows? ==> o.Emitted? && |o.records| == |q.rows| &&
                      forall k :: 0 <= k < |q.rows| ==> o.records[k].json == q.rows[k])
      && (q.Threw? && p.continueOnFail ==> o == Emitted([ErrorRecord(q.message, i)]))
      && (q.Threw? && !p.continueOnFail ==> o == Raised(q.message))
      && (q.StillPolling? <==> o.Hung?)
  {
    if !IsQueryExecute(p) then Emitted([])
    else match RunQuery(p.creds, item.sql, item.server).outcome
      case Rows(rows) => Emitted(RowRecords(rows, i))
      case Threw(m) => if p.continueOnFail then Emitted([ErrorRecord(m, i)]) else Raised(m)
      case StillPolling => Hung
  }

  /** The item loop from index `i` on, with the records appended so far. */
  function BatchFrom(p: NodeParams, items: seq<Item>, i: nat, acc: seq<Record>): (r: BatchResult)
    requires i <= |items|
    // Records already appended are never dropped or rewritten.
    ensures |acc| <= |RecordsOf(r)| && RecordsOf(r)[..|acc|] == acc
    // A batch that stops, stops at an item not yet processed.
    ensures !r.Returned? ==> i <= r.item < |items|
    decreases |items| - i
  {
    if i == |items| then Returned(acc)
    else match ItemOutput(p, i, items[i])
      case Emitted(rs) =>
        var r := BatchFrom(p, items, i + 1, acc + rs);
        assert RecordsOf(r)[..|acc|] == (acc + rs)[..|acc|];
        r
      case Raised(m) => Aborted(i, m, acc)
      case Hung => Blocked(i, acc)
  }

  /** The records a batch result holds, whether returned or not. */
  function RecordsOf(r: BatchResult): seq<Record> {
    match r
    case Returned(rs) => rs
    case Aborted(_, _, app) => app
    case Blocked(_, app) => app
  }

  /** `execute` over a batch of items. */
  function Execute(p: NodeParams, items: seq<Item>): (r: BatchResult)
    ensures items == [] ==> r == Returned([])
    ensures !r.Returned? ==> r.item < |items|
  {
    BatchFrom(p, items, 0, [])
  }

  /** The records of `rs` paired with item `i`, in order. */
  function PairedWith(rs: seq<Record>, i: nat): seq<Record> {
    if rs == [] then []
    else (if rs[0].pairedItem == i then [rs[0]] else []) + PairedWith(rs[1..], i)
  }

  /** Records never go back to an earlier item. */
  ghost predicate InItemOrder(rs: seq<Record>) {
    forall a, b :: 0 <= a < b < |rs| ==> rs[a].pairedItem <= rs[b].pairedItem
  }

  ghost predicate AllBefore(rs: seq<Record>, n: nat) {
    forall k :: 0 <= k < |rs| ==> rs[k].pairedItem < n
  }

  lemma {:induction false} PairedWithAppend(a: seq<Record>, b: seq<Record>, i: nat)
    ensures PairedWith(a + b, i) == PairedWith(a, i) + PairedWith(b, i)
    decreases |a|
  {
    if a == [] {
      assert a + b == b;
    } else {
      assert (a + b)[0] == a[0];
      assert (a + b)[1..] == a[1..] + b;
      PairedWithAppend(a[1..], b, i);
      var h := if a[0].pairedItem == i then [a[0]] else [];
      assert PairedWith(a + b, i) == h + (PairedWith(a[1..], i) + PairedWith(b, i));
      assert PairedWith(a, i) == h + PairedWith(a[1..], i);
    }
  }

  lemma {:induction false} PairedWithAll(rs: seq<Record>, i: nat)
    requires forall k :: 0 <= k < |rs| ==> rs[k].pairedItem == i
    ensures PairedWith(rs, i) == rs
    decreases |rs|
  {
    if rs != [] {
      PairedWithAll(rs[1..], i);
    }
  }

  lemma {:induction false} PairedWithNone(rs: seq<Record>, i: nat)
    requires forall k :: 0 <= k < |rs| ==> rs[k].pairedItem != i
    ensures PairedWith(rs, i) == []
    decreases |rs|
  {
    if rs != [] {
      PairedWithNone(rs[1..], i);
    }
  }

  /** What the loop keeps true about the records appended before item `i`. */
  ghost predicate Appended(p: NodeParams, items: seq<Item>, i: nat, acc: seq<Record>)
    requires i <= |items|
  {
    && InItemOrder(acc)
    && AllBefore(acc, i)
    && (forall q :: 0 <= q < i ==> ItemOutput(p, q, items[q]).Emitted?)
    && (forall q :: 0 <= q < i ==> PairedWith(acc, q) == ItemOutput(p, q, items[q]).records)
  }

  /** Appending item `i`'s records keeps the loop's facts, one item further. */
  lemma AppendedStep(p: NodeParams, items: seq<Item>, i: nat, acc: seq<Record>)
    requires i < |items| && Appended(p, items, i, acc)
    requires ItemOutput(p, i, items[i]).Emitted?
    ensures Appended(p, items, i + 1, acc + ItemOutput(p, i, items[i]).records)
  {
    var rs := ItemOutput(p, i, items[i]).records;
    var acc' := acc + rs;
    forall q | 0 <= q < i + 1
      ensures PairedWith(acc', q) == ItemOutput(p, q, items[q]).records
    {
      PairedWithAppend(acc, rs, q);
      if q == i {
        PairedWithNone(acc, i);
        PairedWithAll(rs, i);
      } else {
        PairedWithNone(rs, q);
      }
    }
    assert InItemOrder(acc') by {
      forall a, b | 0 <= a < b < |acc'|
        ensures acc'[a].pairedItem <= acc'[b].pairedItem
      {
        if b >= |acc| {
          assert acc'[b] == rs[b - |acc|];
          if a >= |acc| {
            assert acc'[a] == rs[a - |acc|];
          }
        }
      }
    }
  }

  lemma {:induction false} BatchFromSpec(p: NodeParams, items: seq<Item>, i: nat, acc: seq<Record>)
    requires i <= |items| && Appended(p, items, i, acc)
    ensures match BatchFrom(p, items, i, acc)
      case Returned(rs) => Appended(p, items, |items|, rs)
      case Aborted(j, m, app) =>
        i <= j < |items| && ItemOutput(p, j, items[j]) == Raised(m) && Appended(p, items, j, app)
      case Blocked(j, app) =>
        i <= j < |items| && ItemOutput(p, j, items[j]) == Hung && Appended(p, items, j, app)
    decreases |items| - i
  {
    if i < |items| && ItemOutput(p, i, items[i]).Emitted? {
      AppendedStep(p, items, i, acc);
      BatchFromSpec(p, items, i + 1, acc + ItemOutput(p, i, items[i]).records);
    }
  }

  /** The batch runs items strictly in order. The output lists item 0's
      records, then item 1's, and so on; the records paired with each item
      are exactly that item's contribution. The batch stops at the first item
      that raises (only possible without continue-on-fail) or hangs. */
  lemma ExecuteSpec(p: NodeParams, items: seq<Item>)
    ensures match Execute(p, items)
      case Returned(rs) =>
        && InItemOrder(rs) && AllBefore(rs, |items|)
        && (forall q :: 0 <= q < |items| ==> ItemOutput(p, q, items[q]).Emitted?)
        && (forall q :: 0 <= q < |items| ==> PairedWith(rs, q) == ItemOutput(p, q, items[q]).records)
      case Aborted(j, m, app) =>
        && !p.continueOnFail && j < |items|
        && RunQuery(p.creds, items[j].sql, items[j].server).outcome == Threw(m)
        && (forall q :: 0 <= q < j ==> ItemOutput(p, q, items[q]).Emitted?)
        && InItemOrder(app) && AllBefore(app, j)
        && (forall q :: 0 <= q < j ==> PairedWith(app, q) == ItemOutput(p, q, items[q]).records)
      case Blocked(j, app) =>
        && j < |items| && IsQueryExecute(p)
        && RunQuery(p.creds, items[j].sql, items[j].server).outcome.StillPolling?
        && (forall q :: 0 <= q < j ==> ItemOutput(p, q, items[q]).Emitted?)
        && InItemOrder(app) && AllBefore(app, j)
        && (forall q :: 0 <= q < j ==> PairedWith(app, q) == ItemOutput(p, q, items[q]).records)
  {
    BatchFromSpec(p, items, 0, []);
  }

  /** A batch for any other resource or operation emits nothing. */
  lemma {:induction false} OtherOperationEmitsNothing(p: NodeParams, items: seq<Item>, i: nat)
    requires !IsQueryExecute(p) && i <= |items|
    ensures BatchFrom(p, items, i, []) == Returned([])
    decreases |items| - i
  {
    if i < |items| {
      assert [] + ItemOutput(p, i, items[i]).records == [];
      OtherOperationEmitsNothing(p, items, i + 1);
    }
  }

  /** With continue-on-fail every failing item yields exactly one error
      record paired with it, and the batch never aborts. */
  lemma ContinueOnFailNeverAborts(p: NodeParams, items: seq<Item>)
    requires p.continueOnFail
    ensures !Execute(p, items).Aborted?
    ensures Execute(p, items).Returned? ==>
      forall q :: 0 <= q < |items| && IsQueryExecute(p) &&
                  RunQuery(p.creds, items[q].sql, items[q].server).outcome.Threw? ==>
        PairedWith(Execute(p, items).records, q) ==
          [ErrorRecord(RunQuery(p.creds, items[q].sql, items[q].server).outcome.message, q)]
  {
    ExecuteSpec(p, items);
  }

  // -----------------------------------------------------------------------
  // Worked scenarios
  // -----------------------------------------------------------------------

  /** A cloud query against a base without a version segment: the node
      inserts "/v0", polls twice, fetches once and returns the one row. */
  lemma CloudScenario(base: string, p: string, j: string, sql: string, row: Row)
    requires !Includes(base, VersionSegment) && !EndsWithSlash(base)
    ensures
      var srv := Server(Ok(Some(j)), [Ok(Some("RUNNING")), Ok(Some("COMPLETED"))], Ok(Some([row])));
      var jobUrl := base + "/v0/projects/" + p + "/job/" + j;
      RunQuery(Credentials(base, "cloud", Some(p)), sql, srv) == QueryRun(
        [ Submit(base + "/v0/projects/" + p + "/sql", sql),
          Status(jobUrl),
          Status(jobUrl),
          Results(jobUrl + "/results") ],
        Rows([row]))
  {
    var statuses: seq<Reply<JobState>> := [Ok(Some("RUNNING")), Ok(Some("COMPLETED"))];
    var srv := Server(Ok(Some(j)), statuses, Ok(Some([row])));
    NodePollCount(statuses, 1);
    var run := RunQuery(Credentials(base, "cloud", Some(p)), sql, srv);
    assert |run.calls| == 4;
    assert run.calls == [run.calls[0], run.calls[1], run.calls[2], run.calls[3]];
  }

  /** A job that fails after one transient reply: two status requests, no
      results request, and an exception naming the state. */
  lemma FailedJobScenario(creds: Credentials, sql: string, jobId: Option<string>, results: Reply<Option<seq<Row>>>)
    ensures
      var srv := Server(Ok(jobId), [Ok(Some("RUNNING")), Ok(Some("FAILED"))], results);
      var run := RunQuery(creds, sql, srv);
      && |run.calls| == 3
      && !RequestedResults(run.calls)
      && run.outcome == Threw("Job failed with state: FAILED")
  {
    var statuses: seq<Reply<JobState>> := [Ok(Some("RUNNING")), Ok(Some("FAILED"))];
    NodePollCount(statuses, 1);
  }

  /** Three replies ending in COMPLETED: three status requests, then the
      results request. */
  lemma QueuedThenCompletedScenario(creds: Credentials, sql: string, jobId: Option<string>, rows: seq<Row>)
    ensures
      var srv := Server(Ok(jobId), [Ok(Some("RUNNING")), Ok(Some("QUEUED")), Ok(Some("COMPLETED"))], Ok(Some(rows)));
      var run := RunQuery(creds, sql, srv);
      && |run.calls| == 5
      && run.calls[4].Results?
      && run.outcome == Rows(rows)
  {
    var statuses: seq<Reply<JobState>> := [Ok(Some("RUNNING")), Ok(Some("QUEUED")), Ok(Some("COMPLETED"))];
    NodePollCount(statuses, 2);
  }

  /** A submit response without an `id` is not rejected: the job URL reads
      "undefined" where the identifier would be. */
  lemma MissingJobIdIsInterpolated(creds: Credentials, sql: string, statuses: seq<Reply<JobState>>, results: Reply<Option<seq<Row>>>)
    requires statuses != []
    ensures
      var run := RunQuery(creds, sql, Server(Ok(None), statuses, results));
      var clean := CleanBaseUrl(creds.baseUrl);
      && |run.calls| >= 2
      && run.calls[1] == Status(ApiRoot(creds.kind, clean, creds.projectId) + "/job/undefined")
  {
    var clean := CleanBaseUrl(creds.baseUrl);
    var root := ApiRoot(creds.kind, clean, creds.projectId);
    var run := RunQuery(creds, sql, Server(Ok(None), statuses, results));
    assert NodePoll(InitialState, statuses).polls >= 1;
    assert run.calls[1] == Status(StatusUrl(creds.kind, clean, creds.projectId, None));
    CallSitesAgree(creds.kind, clean, creds.projectId, None);
    UndefinedJobPath(root);
  }

  lemma UndefinedJobPath(root: string)
    ensures root + "/job/" + Show(None) == root + "/job/undefined"
  {
    assert "/job/" + Show(None) == "/job/undefined";
  }
}
