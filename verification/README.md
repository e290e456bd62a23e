# Dremio n8n connector: the query flow, modelled in Dafny

The connector runs SQL against Dremio, either Dremio Cloud or a
self-hosted Dremio Software server. Each query follows the service's
asynchronous job protocol. The client POSTs the statement to `…/sql`
and gets back a job id. It then polls `…/job/<id>` until the job leaves
its transient states. If the job ended in `COMPLETED`, it fetches
`…/job/<id>/results`.

The model covers two pieces of code:

- **The node's `execute`** (`nodes/Dremio/Dremio.node.ts`). It runs the
  three steps for every input item, one item after the other. It emits
  one output record per row, tagged with the item's index. On an error it
  either emits an `{error}` record for that item (continue-on-fail) or
  rejects the whole batch.
- **The smoke-test script** (`scripts/verify_api.js`). It loads `.env`
  into the environment and applies default settings. It refuses to start
  without a base URL and a token. It then runs the same three steps with
  at most thirty polls.

The model is made of these modules:

| module | file | what it holds |
|---|---|---|
| `JsValue` | `js_value.dfy` | `undefined` as `None`, and how a template literal prints it; JSON rows. |
| `Text` | `text.dfy` | The JavaScript string built-ins the code relies on, with their exact edge cases: `trim`, `indexOf`, `includes`, `replace(/\/$/, '')` and `split('\n')`. |
| `Endpoints` | `endpoints.dfy` | The three URL call sites as written. One decision table, `ApiRoot`, that they all agree with. |
| `JobProtocol` | `job_protocol.dfy` | Job states, scripted HTTP replies, the call trace, and both poll loops. |
| `DremioNode` | `dremio_node.dfy` | One query run, what one item contributes, and the batch loop. |
| `EnvFile` | `env_file.dfy` | `loadEnv`, as a fold from the environment before loading to the environment after. |
| `VerifyApi` | `verify_api.dfy` | The script's `main`: settings, the start check, submit, poll and fetch. |

How the outside world is represented:

- **HTTP.** Each request gets a scripted reply, `Ok(body)` or
  `Failed(message)`. For the node, `Failed` covers a rejected request and
  every status the host's helper turns into an exception. For the script,
  `Failed` covers a rejected fetch and a body that is not JSON. The script
  checks the status code of its submit only, so that reply also carries
  `ok` and `status`.
- **Call trace.** Every run returns the sequence of requests it made.
  Each request is a submit, status or results call, with its URL.
- **Poll loops.** They consume a finite sequence of status replies. When
  the replies run out and the real client would still be waiting, the run
  ends as `StillPolling`, `Blocked` or `Unfinished`.
- **Sleeps, headers and TLS** are left out. They do not affect which
  requests are made or what is returned.

### Behaviour worth knowing

- A cloud profile without a project id is not rejected. The credential's
  project id defaults to the empty string, and a blank one gives URLs with
  an empty segment, such as `projects//sql`. See
  `Endpoints.BlankProjectIdLeavesEmptySegment`. A project id that is
  missing altogether reads `projects/undefined`. See
  `Endpoints.MissingProjectIdIsInterpolated`.
- A submit response without an `id` is not rejected either. The job URL
  then ends in `/job/undefined`. See `DremioNode.MissingJobIdIsInterpolated`.
- Cleaning the base URL removes only one trailing `/`. A base ending in
  `//` still ends in `/` afterwards, so cleaning is not idempotent. See
  `Text.TrimTrailingSlashOnce` and `Endpoints.DoubleSlashBaseKeepsOne`.
- The version check looks for `/v0` as a plain substring, not as a path
  segment. A base containing `/v01` counts as already versioned. See
  `Endpoints.VersionMatchIsSubstring`.
- When an item fails without continue-on-fail, `execute` throws. The
  records collected for earlier items are never returned. `Aborted`
  keeps them in the model only so that lemmas can talk about them.
- The script reads the status and results responses without checking
  their status code. A non-2xx response with a JSON body is an ordinary
  reply to the script, which can then pass, while the node's request
  helper throws on it. See `VerifyApi.ScriptMatchesNode`.
- The node stops polling on any state outside its six transient names,
  even a state it does not know or a missing one. It then throws
  `Job failed with state: …`. The script, by contrast, keeps polling on
  such states until its thirty polls are used up. See
  `JobProtocol.NodeStopsOnUnknown` and
  `JobProtocol.ScriptPollsThroughUnknown`.

## Model

| member | source | states |
|---|---|---|
| Text.Trim | scripts/verify_api.js:21 | `trim` returns an infix of the line that starts right after the leading white space, and neither end of the result is white space. |
| Text.TrimStrips | scripts/verify_api.js:21 | Everything `trim` removes, on either side, is ECMAScript white space or a line terminator. |
| Text.TrimIdentity | scripts/verify_api.js:21 | Trimming leaves a string unchanged exactly when neither of its ends is white space. |
| Text.TrimIdempotent | scripts/verify_api.js:25-26 | Trimming the key or value a second time changes nothing. |
| Text.TrimInfix | scripts/verify_api.js:21 | Trimming a string that is white space around `u` gives the same result as trimming `u`. |
| Text.TrimPadded | scripts/verify_api.js:21 | White space added in front of or behind a string does not change what `trim` keeps. |
| Text.TrimJoin | scripts/verify_api.js:21-26 | Trimming `k`, a non-space separator and `v` removes white space only in front of `k` and behind `v`. The separator and everything between stay. |
| Text.IndexOf | scripts/verify_api.js:23-24 | `indexOf('=')` finds the first '=' (no earlier position holds one) and returns -1, here None, exactly when the line has no '='. |
| Text.Includes | nodes/Dremio/Dremio.node.ts:128 | `includes` never finds a string longer than the one searched, and it finds an occurrence even at the very end. |
| Text.IncludesIff | nodes/Dremio/Dremio.node.ts:128 | `includes('/v0')` holds exactly when "/v0" starts at some offset of the base, whatever follows it. |
| Text.TrimTrailingSlash | nodes/Dremio/Dremio.node.ts:121 | The anchored, non-global `replace(/\/$/, '')` removes one final '/', and leaves a string without one unchanged. |
| Text.TrimTrailingSlashOnce | nodes/Dremio/Dremio.node.ts:121 | A base ending in "//" keeps one '/', so cleaning a second time changes the base again. |
| Text.Split | scripts/verify_api.js:19 | `split('\n')` gives at least one piece, no piece holds a '\n', and joining the pieces with '\n' gives back the file's text. |
| Text.SplitJoin | scripts/verify_api.js:19 | Splitting pieces that were joined with '\n', none of them holding a '\n', gives back exactly those pieces. |
| Endpoints.CleanBaseUrl | nodes/Dremio/Dremio.node.ts:121 | The cleaned base is the configured base, or the configured base minus exactly one final '/'. |
| Endpoints.SubmitUrl | nodes/Dremio/Dremio.node.ts:123-133 | The submit URL, as written at its call site, starts with the cleaned base and ends in "/sql". |
| Endpoints.StatusUrl | nodes/Dremio/Dremio.node.ts:153-162 | The job URL, as written inside the poll loop, starts with the cleaned base and ends in "/job/" and the job id, or "undefined" when there is none. |
| Endpoints.ResultsUrl | nodes/Dremio/Dremio.node.ts:177-186 | The results URL, as written for the fetch, starts with the cleaned base and ends in "/job/<id>/results". |
| Endpoints.ApiRoot | nodes/Dremio/Dremio.node.ts:124-133 | For software, the API root is the cleaned base itself. For cloud, it extends the base and always contains "/v0". |
| Endpoints.CallSitesAgree | nodes/Dremio/Dremio.node.ts:124-186 | The three separately written call sites follow one decision: submit is the root plus "/sql", status is the root plus "/job/<id>", and results is the status URL plus "/results". |
| Endpoints.SoftwareUrls | nodes/Dremio/Dremio.node.ts:124-179 | Software URLs are the base plus a fixed path. The project id plays no part in any of the three. |
| Endpoints.CloudUrls | nodes/Dremio/Dremio.node.ts:154-162 | A cloud job URL inserts "/v0" after a base that lacks it, and goes straight to "/projects/" after a base that already has it. |
| Endpoints.CloudUrlsVersioned | nodes/Dremio/Dremio.node.ts:126-186 | Every cloud request URL (submit, status and results) contains "/v0", so the version segment is never left out. |
| Endpoints.VersionMatchIsSubstring | nodes/Dremio/Dremio.node.ts:128-131 | Any base with "/v0" anywhere in it, such as ".../v01", gets no second version segment. |
| Endpoints.DoubleSlashBaseKeepsOne | nodes/Dremio/Dremio.node.ts:121-125 | A software base ending in "//" produces a submit URL with a doubled slash before "sql". |
| Endpoints.MissingProjectIdIsInterpolated | nodes/Dremio/Dremio.node.ts:101-184 | A missing project id is not rejected. All three URLs are those of a project named "undefined". |
| Endpoints.BlankProjectIdLeavesEmptySegment | nodes/Dremio/Dremio.node.ts:127-132 | A blank cloud project id is not rejected: the submit URL has an empty segment, "/projects//sql", with or without an inserted "/v0". |
| JobProtocol.NodePoll | nodes/Dremio/Dremio.node.ts:147-170 | The node's loop makes no request from a non-transient state. Every reply before the last one was transient. It ends on the first reply that is an error or a non-transient state (including unknown or missing states), and reports that reply. With no reply to read from a transient state it is still waiting. |
| JobProtocol.NodePollCount | nodes/Dremio/Dremio.node.ts:147-170 | Starting from RUNNING, the node makes one status request more than the index of the first reply that settles, and ends with that reply's state or error. |
| JobProtocol.NodePollNeverSettles | nodes/Dremio/Dremio.node.ts:151 | If every reply is one of the six transient states, the node uses them all and is still waiting: the loop has no bound. |
| JobProtocol.ScriptPoll | scripts/verify_api.js:84-106 | The script makes at most thirty status requests. Every reply before the last one polled was a non-terminal state. It stops at the first COMPLETED, FAILED or CANCELED state, or at the first error, and reports that reply. It runs out of replies only when the last one polled did not stop it. Without a poll it exits only when it was already done. |
| JobProtocol.ScriptPollBounded | scripts/verify_api.js:85-87 | Thirty replies always suffice for the script to stop, and it polls at least once. |
| JobProtocol.ScriptPollsThroughUnknown | scripts/verify_api.js:87-106 | A state outside the three terminal names, or a missing state, never stops the script. Thirty such replies give exactly thirty polls and exit with the thirtieth state. |
| JobProtocol.NodeStopsOnUnknown | nodes/Dremio/Dremio.node.ts:151 | The node stops after one poll on an unknown state, where the script does not stop at that state after one poll. |
| JobProtocol.ScriptAgreesWithNode | scripts/verify_api.js:84-106 | When every reply is a documented state and the node settles within thirty polls, the script makes the same requests and ends in the same state. |
| DremioNode.JobFailedMessage | nodes/Dremio/Dremio.node.ts:172-174 | The message is "Job failed with state: " followed by the state's name, or by "undefined" for a missing state. |
| DremioNode.RowsOrEmpty | nodes/Dremio/Dremio.node.ts:194 | A response without `rows` reads as no rows, and the rows of a response that has them are kept as they are. |
| DremioNode.RunQuery | nodes/Dremio/Dremio.node.ts:118-194 | One query submits first. It then sends one status request per poll to the job URL. It fetches the results exactly when the poll ended in COMPLETED, as the last request. Any other exit state throws a message naming that state. Rows come only from a successful fetch, with missing rows read as none. |
| DremioNode.RowRecords | nodes/Dremio/Dremio.node.ts:197-204 | One record per row, in row order, each carrying its row unchanged and paired with the item's index. |
| DremioNode.ItemOutput | nodes/Dremio/Dremio.node.ts:116-223 | An item emits its rows' records, or a single `{error}` record under continue-on-fail, or raises. It contributes nothing for another resource or operation. |
| DremioNode.BatchFrom | nodes/Dremio/Dremio.node.ts:115-224 | The item loop never drops or rewrites records already appended. A batch that stops, stops at an item not yet processed. |
| DremioNode.Execute | nodes/Dremio/Dremio.node.ts:91-227 | An empty batch returns no records. A batch that throws or hangs names an item of the batch. |
| DremioNode.BatchFromSpec | nodes/Dremio/Dremio.node.ts:115-224 | The item loop keeps its output in item order, and the records paired with each earlier item are exactly that item's contribution. |
| DremioNode.ExecuteSpec | nodes/Dremio/Dremio.node.ts:91-227 | A batch either returns every item's records grouped by item in input order, or stops at the first item whose query threw without continue-on-fail, or at the first item still polling. |
| DremioNode.OtherOperationEmitsNothing | nodes/Dremio/Dremio.node.ts:117 | For any resource or operation other than query/execute, the batch returns no records. |
| DremioNode.ContinueOnFailNeverAborts | nodes/Dremio/Dremio.node.ts:206-215 | With continue-on-fail the batch never throws. Each failing item gets exactly one error record carrying the error's message. |
| DremioNode.CloudScenario | nodes/Dremio/Dremio.node.ts:121-194 | A cloud base without "/v0" and the replies RUNNING then COMPLETED give exactly these requests: one submit, two polls and one fetch, to the expected URLs. The row is returned. |
| DremioNode.FailedJobScenario | nodes/Dremio/Dremio.node.ts:172-174 | RUNNING then FAILED gives two polls, no fetch, and the message "Job failed with state: FAILED". |
| DremioNode.QueuedThenCompletedScenario | nodes/Dremio/Dremio.node.ts:151-186 | A QUEUED state keeps the node polling. Three polls are followed by the fetch, and the rows come back. |
| DremioNode.MissingJobIdIsInterpolated | nodes/Dremio/Dremio.node.ts:144-162 | A submit response without an `id` still leads to polling, at a job URL ending in "/job/undefined". |
| EnvFile.ParseLine | scripts/verify_api.js:21-26 | A blank or '#' line assigns nothing. An assignment's key contains no '=', and both the key and the value are trimmed. |
| EnvFile.ParseTrimmed | scripts/verify_api.js:22-26 | A trimmed line assigns exactly when it is neither empty nor a '#' comment and holds a '='. |
| EnvFile.ParsePaddedLine | scripts/verify_api.js:21-27 | A line made of white space, a key, white space, '=', white space, a value and white space parses to exactly that key and value. The key must be trimmed, free of '=' and not start with '#'; the value must be trimmed and may hold '='. |
| EnvFile.NoEqualsNoAssignment | scripts/verify_api.js:23-24 | A line without '=' never assigns, whatever else it holds. |
| EnvFile.ParseLineRoundTrip | scripts/verify_api.js:21-27 | `key=value`, with a trimmed key free of '=' that does not start with '#' and a trimmed value, parses back to exactly that assignment. The value may itself contain '='. |
| EnvFile.ApplyLine | scripts/verify_api.js:27 | An assignment sets its key to its value and leaves every other variable as it was. A non-assignment changes nothing. |
| EnvFile.LoadLines | scripts/verify_api.js:20-28 | Applying the lines in order never removes a variable. Every variable that was not there before is assigned by some line. |
| EnvFile.LoadEnv | scripts/verify_api.js:13-28 | Loading the file only adds or overwrites variables, and every new variable is assigned by some line of the file. |
| EnvFile.LoadEnvLastWins | scripts/verify_api.js:19-28 | For any variable, the last line of the file that assigns it decides its value after loading. |
| EnvFile.LoadEnvUntouched | scripts/verify_api.js:19-28 | A variable that no line of the file assigns keeps its previous value, or stays absent. |
| EnvFile.LoadLinesUntouched | scripts/verify_api.js:20-28 | A variable that no line assigns keeps its previous value, or stays absent. |
| EnvFile.LoadLinesLastWins | scripts/verify_api.js:20-28 | The last line assigning a key decides its value: later lines overwrite earlier ones and the previous environment. |
| VerifyApi.ConfigDefaults | scripts/verify_api.js:36-44 | The type defaults to "cloud" when it is unset or empty. The script proceeds exactly when the base URL is set and is neither "" nor a lone "/", and the token is set and not empty. |
| VerifyApi.ReadConfig | scripts/verify_api.js:36-39 | The type is DREMIO_TYPE when that is set and not empty, and "cloud" when it is unset or empty. A base URL ending in '/' loses exactly that '/', any other is kept as it is, and an unset one reads "". The token and project id are the environment's values, and absent exactly when unset. |
| VerifyApi.EnvFileTokenWins | scripts/verify_api.js:13-38 | A token assigned in `.env` overrides any token already in the environment. For a file made of lines joined by '\n', the last line that assigns the token gives the token the script sends. |
| VerifyApi.RunWithConfig | scripts/verify_api.js:41-130 | Without the settings, no request is made. The first request is the submit, and a rejected submit makes no other. At most 32 requests are made. Results are fetched exactly when the poll ended in COMPLETED. A pass needs a fetched result, and any other final state fails without a fetch. |
| VerifyApi.UnknownStatesExhaustRetries | scripts/verify_api.js:84-111 | Thirty non-terminal replies give thirty polls, no fetch, and a failure naming the thirtieth state. |
| VerifyApi.SmokeTest | scripts/verify_api.js:33-67 | Without a `.env` file the script makes no request. Otherwise it uses the settings read after loading the file: it makes no request, ending with missing settings, exactly when they are incomplete, and its first request is the submit of the test query to the URL those settings give. It makes at most 32 requests and passes only after fetching results. |
| VerifyApi.ScriptMatchesNode | scripts/verify_api.js:41-130 | For replies both clients read alike (2xx responses with JSON bodies), with the node's settings, an accepted submit and documented states that settle within thirty polls, the script makes exactly the node's requests for the test query. It passes exactly when the node returns rows. |

## Left out

- VerifyApi.ScriptMatchesNode: shares one reply sequence between the script and the node, so it covers only responses both read alike. A non-2xx status or results response with a JSON body passes the script but makes the node throw, and no lemma relates the two clients on such a response, because the shared reply type cannot express a response the two read differently.
- HTTP itself is not modelled: headers, the bearer token, TLS (`ignoreSsl`) and JSON encoding of the request body. Replies are scripted values, because the code reads only `id`, `jobState` and `rows` from the bodies, plus `ok` and `status` of the script's submit response. Status codes of the other responses are not modelled: the node's helper turns a failing one into an exception, which is a `Failed` reply, and the script never looks at them.
- `sleep(1000)` and every other notion of time are not modelled. They do not change which requests are made.
- An unbounded wait is not modelled. A loop that would still be polling when the scripted replies run out ends as `StillPolling`, `Blocked` or `Unfinished`, because a finite model cannot block forever.
- The wrapping of plain errors in `NodeOperationError` (nodes/Dremio/Dremio.node.ts:217-222) is left out. Only the message and the fact that the batch rejects are kept, because the host's error classes are outside this code.
- A `rows` field that is truthy but not an array is left out. Its `forEach` at nodes/Dremio/Dremio.node.ts:197 throws inside `execute`'s `try`. The catch at :206 then turns it into an `{error}` record under continue-on-fail, and otherwise rejects the batch. The model takes `rows` as an array or absent, because result rows are JSON documents the service returns as an array.
- Response bodies are reduced to the fields the code reads, because nothing else in them affects the run.
- Reading the `.env` file, `console` output and `process.exit` are left out. They become the file's text (None when it is missing) and the run's final outcome.
- `process.env` is modelled as a map passed in and returned, not as global state.
- An assignment with an empty key (a line like `=value`) is stored under the key "" in the model. What the host does with an empty environment variable name is outside this code.
- The credential test request (credentials/DremioApi.credentials.ts:80-87) is left out, because it is run by the host, not by `execute`. Its URL also adds "/v0" without checking the base.
- The node's description metadata (display names, parameter definitions) is left out, because it is data for the editor.
