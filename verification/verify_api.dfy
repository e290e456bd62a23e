/** The smoke-test script: load `.env` into the environment, read the
    connection settings with their defaults, refuse to start without a
    base URL and a token, then submit a fixed query, poll at most thirty
    times and fetch the rows if the job completed. File access, console
    output and `process.exit` are replaced by the outcome the run ends
    with. */
module VerifyApi {
  import opened JsValue
  import opened Text
  import opened Endpoints
  import opened JobProtocol
  import opened EnvFile
  import opened DremioNode

  /** The statement the script submits. */
  const TestQuery: string := "SELECT 1 AS test_col"

  /** The settings the script reads from the environment. */
  datatype ScriptConfig = ScriptConfig(
    kind: string,
    baseUrl: string,
    token: Option<string>,
    projectId: Option<string>)

  /** `process.env[k]`. */
  function Lookup(env: map<string, string>, k: string): (v: Option<string>)
    ensures v.Some? <==> k in env
    ensures v.Some? ==> v.value == env[k]
  {
    if k in env then Some(env[k]) else None
  }

  /** `v || fallback` for a string that may be undefined: an undefined or
      empty value falls back. */
  function OrElse(v: Option<string>, fallback: string): string {
    if v.None? || v.value == "" then fallback else v.value
  }

  /** The settings, with the type defaulting to "cloud" and the base URL to
      the empty string before one trailing '/' is removed. */
  function ReadConfig(env: map<string, string>): (c: ScriptConfig)
    // The type is never empty: an unset or empty DREMIO_TYPE means cloud.
    ensures c.kind != ""
    ensures "DREMIO_TYPE" in env && env["DREMIO_TYPE"] != "" ==> c.kind == env["DREMIO_TYPE"]
    // The base URL is the configured one, less at most one final '/'.
    ensures "DREMIO_BASE_URL" !in env ==> c.baseUrl == ""
    ensures "DREMIO_BASE_URL" in env && EndsWithSlash(env["DREMIO_BASE_URL"]) ==>
      c.baseUrl + "/" == env["DREMIO_BASE_URL"]
    ensures "DREMIO_BASE_URL" in env && !EndsWithSlash(env["DREMIO_BASE_URL"]) ==>
      c.baseUrl == env["DREMIO_BASE_URL"]
    ensures ("DREMIO_TYPE" !in env || env["DREMIO_TYPE"] == "") ==> c.kind == "cloud"
    // The token and project id are taken as they are, absent when unset.
    ensures c.token.Some? <==> "DREMIO_TOKEN" in env
    ensures "DREMIO_TOKEN" in env ==> c.token == Some(env["DREMIO_TOKEN"])
    ensures c.projectId.Some? <==> "DREMIO_PROJECT_ID" in env
    ensures "DREMIO_PROJECT_ID" in env ==> c.projectId == Some(env["DREMIO_PROJECT_ID"])
  {
    ScriptConfig(
      OrElse(Lookup(env, "DREMIO_TYPE"), "cloud"),
      CleanBaseUrl(OrElse(Lookup(env, "DREMIO_BASE_URL"), "")),
      Lookup(env, "DREMIO_TOKEN"),
      Lookup(env, "DREMIO_PROJECT_ID"))
  }

  /** The precondition the script checks before any request. */
  predicate Ready(c: ScriptConfig) {
    c.baseUrl != "" && c.token.Some? && c.token.value != ""
  }

  /** The type defaults to cloud; the script starts only with a base URL
      that is more than a single '/' and a non-empty token. */
  lemma ConfigDefaults(env: map<string, string>)
    ensures "DREMIO_TYPE" !in env ==> ReadConfig(env).kind == "cloud"
    ensures "DREMIO_TYPE" in env && env["DREMIO_TYPE"] == "" ==> ReadConfig(env).kind == "cloud"
    ensures Ready(ReadConfig(env)) <==>
      && "DREMIO_BASE_URL" in env && env["DREMIO_BASE_URL"] != "" && env["DREMIO_BASE_URL"] != "/"
      && "DREMIO_TOKEN" in env && env["DREMIO_TOKEN"] != ""
  {
    if "DREMIO_BASE_URL" in env {
      var b := env["DREMIO_BASE_URL"];
      if b != "" && b != "/" && EndsWithSlash(b) {
        assert |CleanBaseUrl(b)| == |b| - 1 > 0;
      }
    }
  }

  /** A token set by the `.env` file overrides one already in the
      environment: in a file made of the given lines, the last line that
      assigns DREMIO_TOKEN decides the token the script sends. */
  lemma EnvFileTokenWins(processEnv: map<string, string>, lines: seq<string>, j: nat, v: string)
    requires forall k :: 0 <= k < |lines| ==> '\n' !in lines[k]
    requires j < |lines| && ParseLine(lines[j]) == Some(Assignment("DREMIO_TOKEN", v))
    requires forall i :: j < i < |lines| ==> !Assigns(ParseLine(lines[i]), "DREMIO_TOKEN")
    ensures ReadConfig(LoadEnv(processEnv, Join(lines, '\n'))).token == Some(v)
  {
    SplitJoin(lines, '\n');
    LoadLinesLastWins(processEnv, ParseLines(lines), j, "DREMIO_TOKEN");
  }

  /** The fetch of the submit request: whether the response was ok, its
      status, and the `id` of its JSON body. */
  datatype SubmitResponse = SubmitResponse(ok: bool, status: int, id: Option<string>)

  /** What the service answers to the script. A failed reply is a rejected
      fetch or a body that is not JSON; both end in the script's catch. */
  datatype ScriptServer = ScriptServer(
    submit: Reply<SubmitResponse>,
    statuses: seq<Reply<JobState>>,
    results: Reply<Option<seq<Row>>>)

  /** How a run ends. `Passed` ends normally and every other real outcome
      exits with status 1. `Unfinished` is not an exit of the script: it
      marks a run whose scripted replies ran out while it was still
      polling. */
  datatype ScriptOutcome =
    | NoEnvFile
    | MissingSettings
    | SubmitRejected(status: int)
    | NotCompleted(state: JobState)
    | Passed(rows: Option<seq<Row>>)
    | Crashed(message: string)
    | Unfinished

  datatype ScriptRun = ScriptRun(calls: seq<Call>, outcome: ScriptOutcome)

  /** The script's `main`, given the `.env` text (None when the file is
      missing), the environment before loading, and the service's replies. */
  function SmokeTest(envFile: Option<string>, processEnv: map<string, string>, srv: ScriptServer): (r: ScriptRun)
    // Without a `.env` file the script makes no request.
    ensures envFile.None? ==> r == ScriptRun([], NoEnvFile)
    ensures r.calls != [] ==> envFile.Some? && r.calls[0].Submit? && r.calls[0].sql == TestQuery
    ensures |r.calls| <= 2 + MaxScriptPolls
    // With a `.env` file, the run uses the settings read after loading it:
    // it stops before any request exactly when they are incomplete, and
    // otherwise submits to the URL those settings give.
    ensures envFile.Some? ==>
      var cfg := ReadConfig(LoadEnv(processEnv, envFile.value));
      && (r.calls == [] <==> !Ready(cfg))
      && (!Ready(cfg) ==> r.outcome == MissingSettings)
      && (r.calls != [] ==> r.calls[0] == Submit(SubmitUrl(cfg.kind, cfg.baseUrl, cfg.projectId), TestQuery))
    // The script passes only after fetching a job's results.
    ensures r.outcome.Passed? ==> RequestedResults(r.calls)
  {
    if envFile.None? then ScriptRun([], NoEnvFile)
    else RunWithConfig(ReadConfig(LoadEnv(processEnv, envFile.value)), srv)
  }

  /** Everything after `loadEnv`: the settings check, then submit, poll and
      fetch. */
  function RunWithConfig(cfg: ScriptConfig, srv: ScriptServer): (r: ScriptRun)
    ensures !Ready(cfg) ==> r == ScriptRun([], MissingSettings)
    // The first request is the submit of the test query.
    ensures r.calls != [] ==> r.calls[0] == Submit(SubmitUrl(cfg.kind, cfg.baseUrl, cfg.projectId), TestQuery)
    // A failed or rejected submit makes no further request.
    ensures Ready(cfg) && srv.submit.Failed? ==> r == ScriptRun(r.calls, Crashed(srv.submit.message)) && |r.calls| == 1
    ensures Ready(cfg) && srv.submit.Ok? && !srv.submit.body.ok ==>
      r == ScriptRun(r.calls, SubmitRejected(srv.submit.body.status)) && |r.calls| == 1
    ensures r.outcome.SubmitRejected? ==> |r.calls| == 1
    ensures |r.calls| <= 2 + MaxScriptPolls
    // After an accepted submit, one status request per poll of the
    // script's loop, each to the job's URL.
    ensures Ready(cfg) && srv.submit.Ok? && srv.submit.body.ok ==>
      var polls := ScriptPoll(InitialState, 0, srv.statuses).polls;
      && |r.calls| >= 1 + polls
      && (!RequestedResults(r.calls) ==> |r.calls| == 1 + polls)
      && forall k :: 1 <= k <= polls ==>
           r.calls[k] == Status(StatusUrl(cfg.kind, cfg.baseUrl, cfg.projectId, srv.submit.body.id))
    // Results are fetched exactly when the loop ended in COMPLETED, as the
    // last request, from the job's URL plus "/results".
    ensures RequestedResults(r.calls) <==>
      && Ready(cfg) && srv.submit.Ok? && srv.submit.body.ok
      && ScriptPoll(InitialState, 0, srv.statuses).end == Exited(Completed)
    ensures RequestedResults(r.calls) ==>
      && |r.calls| == 2 + ScriptPoll(InitialState, 0, srv.statuses).polls
      && r.calls[|r.calls| - 1] ==
         Results(StatusUrl(cfg.kind, cfg.baseUrl, cfg.projectId, srv.submit.body.id) + "/results")
    // How the run ends after an accepted submit.
    ensures Ready(cfg) && srv.submit.Ok? && srv.submit.body.ok ==>
      var end := ScriptPoll(InitialState, 0, srv.statuses).end;
      && (end.PollFailed? ==> r.outcome == Crashed(end.message))
      && (end.OutOfReplies? ==> r.outcome == Unfinished)
      && (end.Exited? && end.state != Completed ==> r.outcome == NotCompleted(end.state))
    ensures RequestedResults(r.calls) && srv.results.Failed? ==> r.outcome == Crashed(srv.results.message)
    ensures RequestedResults(r.calls) && srv.results.Ok? ==> r.outcome == Passed(srv.results.body)
    ensures r.outcome.Passed? ==> RequestedResults(r.calls) && srv.results.Ok?
    ensures r.outcome.NotCompleted? ==> r.outcome.state != Completed && !RequestedResults(r.calls)
  {
    if !Ready(cfg) then ScriptRun([], MissingSettings)
    else
      var submitCall := Submit(SubmitUrl(cfg.kind, cfg.baseUrl, cfg.projectId), TestQuery);
      if srv.submit.Failed? then ScriptRun([submitCall], Crashed(srv.submit.message))
      else if !srv.submit.body.ok then ScriptRun([submitCall], SubmitRejected(srv.submit.body.status))
      else
        var jobId := srv.submit.body.id;
        var t := ScriptPoll(InitialState, 0, srv.statuses);
        var polled := [submitCall] + Repeat(Status(StatusUrl(cfg.kind, cfg.baseUrl, cfg.projectId, jobId)), t.polls);
        if t.end.PollFailed? then ScriptRun(polled, Crashed(t.end.message))
        else if t.end.OutOfReplies? then ScriptRun(polled, Unfinished)
        else if t.end.state != Completed then ScriptRun(polled, NotCompleted(t.end.state))
        else
          var calls := polled + [Results(ResultsUrl(cfg.kind, cfg.baseUrl, cfg.projectId, jobId))];
          assert calls[|calls| - 1].Results?;
          if srv.results.Failed? then ScriptRun(calls, Crashed(srv.results.message))
          else ScriptRun(calls, Passed(srv.results.body))
  }

  /** Thirty replies whose state is unknown, missing or otherwise not
      terminal exhaust the script's retries: thirty status requests, no
      results request, and a failure naming the thirtieth state. */
  lemma UnknownStatesExhaustRetries(cfg: ScriptConfig, srv: ScriptServer)
    requires Ready(cfg)
    requires srv.submit.Ok? && srv.submit.body.ok
    requires |srv.statuses| >= MaxScriptPolls
    requires forall j :: 0 <= j < |srv.statuses| ==>
      srv.statuses[j].Ok? && !IsScriptTerminal(srv.statuses[j].body)
    ensures RunWithConfig(cfg, srv).outcome == NotCompleted(srv.statuses[MaxScriptPolls - 1].body)
    ensures |RunWithConfig(cfg, srv).calls| == 1 + MaxScriptPolls
  {
    ScriptPollsThroughUnknown(InitialState, 0, srv.statuses);
  }

  /** The node's view of the script's replies: the submit's `id`, the same
      status replies and the same results reply. */
  function AsNodeServer(srv: ScriptServer): Server
    requires srv.submit.Ok?
  {
    Server(Ok(srv.submit.body.id), srv.statuses, srv.results)
  }

  /** The script exercises the node's flow: with the settings the node
      would read, an accepted submit and documented states that settle
      within thirty polls, the script makes exactly the node's requests for
      the test query, and passes exactly when the node returns rows. */
  lemma ScriptMatchesNode(cfg: ScriptConfig, creds: Credentials, srv: ScriptServer)
    requires Ready(cfg)
    requires cfg.kind == creds.kind && cfg.baseUrl == CleanBaseUrl(creds.baseUrl) && cfg.projectId == creds.projectId
    requires srv.submit.Ok? && srv.submit.body.ok
    requires forall j :: 0 <= j < |srv.statuses| ==> srv.statuses[j].Ok? && IsKnown(srv.statuses[j].body)
    requires NodePoll(InitialState, srv.statuses).end.Exited?
    requires NodePoll(InitialState, srv.statuses).polls <= MaxScriptPolls
    ensures RunWithConfig(cfg, srv).calls == RunQuery(creds, TestQuery, AsNodeServer(srv)).calls
    ensures RunWithConfig(cfg, srv).outcome.Passed? <==> RunQuery(creds, TestQuery, AsNodeServer(srv)).outcome.Rows?
  {
    ScriptAgreesWithNode(InitialState, 0, srv.statuses);
    var sc := RunWithConfig(cfg, srv).calls;
    var nc := RunQuery(creds, TestQuery, AsNodeServer(srv)).calls;
    assert |sc| == |nc|;
    forall k | 0 <= k < |sc|
      ensures sc[k] == nc[k]
    {
    }
  }
}
