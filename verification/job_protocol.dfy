/** The asynchronous job protocol: the states a Dremio job reports, the
    scripted replies that stand in for HTTP responses, the calls a client
    makes, and the two poll loops — the node's, which polls while the
    state is one of six transient names and has no bound, and the smoke
    test script's, which polls until one of three terminal names or 30
    polls, whichever comes first. */
module JobProtocol {
  import opened JsValue

  /** The `jobState` field of a status response; None when the field is
      missing (`undefined`). Any other string is possible too. */
  type JobState = Option<string>

  /** A scripted answer to one HTTP call: the parsed body, or the message of
      the error the transport raised (a rejected request, a non-2xx status
      the host's helper turns into an exception, an unreadable body). */
  datatype Reply<+T> = Ok(body: T) | Failed(message: string)

  /** One HTTP request a client issues, in order. */
  datatype Call =
    | Submit(url: string, sql: string)
    | Status(url: string)
    | Results(url: string)

  /** Some request of the trace fetched a job's results. */
  predicate RequestedResults(calls: seq<Call>) {
    exists k :: 0 <= k < |calls| && calls[k].Results?
  }

  /** `n` copies of one call: the status requests of a poll loop. */
  function Repeat(c: Call, n: nat): (r: seq<Call>)
    ensures |r| == n
    ensures forall k :: 0 <= k < n ==> r[k] == c
  {
    if n == 0 then [] else [c] + Repeat(c, n - 1)
  }

  /** The state both loops start from before the first poll. */
  const InitialState: JobState := Some("RUNNING")
  const Completed: JobState := Some("COMPLETED")

  /** The states the node keeps polling on. */
  const NodeTransient: set<string> := {"RUNNING", "ENQUEUED", "STARTING", "ENGINE_START", "QUEUED", "PLANNING"}

  /** The states the smoke test stops polling on. */
  const ScriptTerminal: set<string> := {"COMPLETED", "FAILED", "CANCELED"}

  /** The smoke test's cap on status requests. */
  const MaxScriptPolls: nat := 30

  predicate IsTransient(s: JobState) {
    s.Some? && s.value in NodeTransient
  }

  predicate IsScriptTerminal(s: JobState) {
    s.Some? && s.value in ScriptTerminal
  }

  /** A state the service documents: transient or terminal. */
  predicate IsKnown(s: JobState) {
    IsTransient(s) || IsScriptTerminal(s)
  }

  /** A reply that ends the node's loop: an error, or a non-transient state. */
  predicate Settles(r: Reply<JobState>) {
    r.Failed? || !IsTransient(r.body)
  }

  /** How a poll loop ended: its loop condition became false with the given
      last state, a status request raised an error, or the scripted replies
      ran out while the loop still wanted another one (the real client
      would go on waiting). */
  datatype PollEnd = Exited(state: JobState) | PollFailed(message: string) | OutOfReplies

  /** The number of status requests made and how the loop ended. */
  datatype PollTrace = PollTrace(polls: nat, end: PollEnd)

  /** The node's loop: while the last state is transient, request the
      status again and take its `jobState`. A missing or unknown state ends
      the loop just like a terminal one. */
  function NodePoll(state: JobState, replies: seq<Reply<JobState>>): (t: PollTrace)
    ensures t.polls <= |replies|
    ensures t.polls == 0 <==> !IsTransient(state) || replies == []
    // Without a poll, the loop has either already stopped or is still waiting.
    ensures t.polls == 0 ==> t.end == (if IsTransient(state) then OutOfReplies else Exited(state))
    ensures forall j :: 0 <= j < t.polls - 1 ==> !Settles(replies[j])
    ensures t.end.OutOfReplies? ==> t.polls == |replies| && (t.polls == 0 || !Settles(replies[t.polls - 1]))
    ensures t.end.PollFailed? ==> t.polls >= 1 && replies[t.polls - 1] == Failed(t.end.message)
    ensures t.end.Exited? ==> !IsTransient(t.end.state)
    ensures t.end.Exited? && t.polls >= 1 ==> replies[t.polls - 1] == Ok(t.end.state)
    decreases |replies|
  {
    if !IsTransient(state) then PollTrace(0, Exited(state))
    else if replies == [] then PollTrace(0, OutOfReplies)
    else match replies[0]
      case Failed(m) => PollTrace(1, PollFailed(m))
      case Ok(s) =>
        var t := NodePoll(s, replies[1..]);
        PollTrace(t.polls + 1, t.end)
  }

  /** From the initial state the node makes one status request more than
      the index of the first reply that settles, and ends with that reply. */
  lemma NodePollCount(replies: seq<Reply<JobState>>, k: nat)
    requires k < |replies| && Settles(replies[k])
    requires forall j :: 0 <= j < k ==> !Settles(replies[j])
    ensures NodePoll(InitialState, replies).polls == k + 1
    ensures replies[k].Ok? ==> NodePoll(InitialState, replies).end == Exited(replies[k].body)
    ensures replies[k].Failed? ==> NodePoll(InitialState, replies).end == PollFailed(replies[k].message)
  {
  }

  /** If no reply settles, the node uses every reply and is still waiting. */
  lemma NodePollNeverSettles(replies: seq<Reply<JobState>>)
    requires forall j :: 0 <= j < |replies| ==> !Settles(replies[j])
    ensures NodePoll(InitialState, replies) == PollTrace(|replies|, OutOfReplies)
  {
  }

  /** The smoke test's loop: while the last state is not terminal and
      fewer than 30 requests were made, request the status again. An
      unknown or missing state keeps it polling. */
  function ScriptPoll(state: JobState, retries: nat, replies: seq<Reply<JobState>>): (t: PollTrace)
    requires retries <= MaxScriptPolls
    ensures retries + t.polls <= MaxScriptPolls
    ensures t.polls <= |replies|
    ensures t.polls == 0 <==> IsScriptTerminal(state) || retries == MaxScriptPolls || replies == []
    ensures forall j :: 0 <= j < t.polls - 1 ==> replies[j].Ok? && !IsScriptTerminal(replies[j].body)
    ensures t.end.Exited? ==> IsScriptTerminal(t.end.state) || retries + t.polls == MaxScriptPolls
    ensures t.end.Exited? && t.polls >= 1 ==> replies[t.polls - 1] == Ok(t.end.state)
    ensures t.end.PollFailed? ==> t.polls >= 1 && replies[t.polls - 1] == Failed(t.end.message)
    ensures t.end.OutOfReplies? ==> t.polls == |replies| && retries + |replies| < MaxScriptPolls
    // Running out of replies means the last reply polled did not stop the loop.
    ensures t.end.OutOfReplies? && t.polls >= 1 ==>
      replies[t.polls - 1].Ok? && !IsScriptTerminal(replies[t.polls - 1].body)
    // Without a poll, the loop exits only when it was already done.
    ensures t.polls == 0 ==>
      t.end == (if IsScriptTerminal(state) || retries == MaxScriptPolls then Exited(state) else OutOfReplies)
    decreases |replies|
  {
    if IsScriptTerminal(state) || retries == MaxScriptPolls then PollTrace(0, Exited(state))
    else if replies == [] then PollTrace(0, OutOfReplies)
    else match replies[0]
      case Failed(m) => PollTrace(1, PollFailed(m))
      case Ok(s) =>
        var t := ScriptPoll(s, retries + 1, replies[1..]);
        PollTrace(t.polls + 1, t.end)
  }

  /** Thirty replies are always enough for the smoke test to stop, and it
      never makes more than thirty status requests. */
  lemma ScriptPollBounded(replies: seq<Reply<JobState>>)
    ensures ScriptPoll(InitialState, 0, replies).polls <= MaxScriptPolls
    ensures |replies| >= MaxScriptPolls ==> !ScriptPoll(InitialState, 0, replies).end.OutOfReplies?
    ensures replies != [] ==> ScriptPoll(InitialState, 0, replies).polls >= 1
  {
  }

  /** A state outside the three terminal names (an unknown string, or a
      missing field) never stops the smoke test early: thirty such replies
      make it poll exactly thirty times. */
  lemma {:induction false} ScriptPollsThroughUnknown(state: JobState, retries: nat, replies: seq<Reply<JobState>>)
    requires retries <= MaxScriptPolls && !IsScriptTerminal(state)
    requires |replies| >= MaxScriptPolls - retries
    requires forall j :: 0 <= j < |replies| ==> replies[j].Ok? && !IsScriptTerminal(replies[j].body)
    ensures ScriptPoll(state, retries, replies).polls == MaxScriptPolls - retries
    ensures retries < MaxScriptPolls ==>
      ScriptPoll(state, retries, replies).end == Exited(replies[MaxScriptPolls - retries - 1].body)
    decreases |replies|
  {
    if retries < MaxScriptPolls {
      var s := replies[0].body;
      ScriptPollsThroughUnknown(s, retries + 1, replies[1..]);
      if retries + 1 < MaxScriptPolls {
        assert replies[1..][MaxScriptPolls - retries - 2] == replies[MaxScriptPolls - retries - 1];
      }
    }
  }

  /** The node, by contrast, stops at the first reply whose state is not
      transient, even one it does not know. */
  lemma NodeStopsOnUnknown(s: JobState, rest: seq<Reply<JobState>>)
    requires !IsKnown(s)
    ensures NodePoll(InitialState, [Ok(s)] + rest) == PollTrace(1, Exited(s))
    ensures !ScriptPoll(InitialState, 0, [Ok(s)] + rest).end.Exited? ||
            ScriptPoll(InitialState, 0, [Ok(s)] + rest).polls > 1
  {
    var replies := [Ok(s)] + rest;
    assert replies[1..] == rest;
  }

  /** When every reply is a documented state and the node's loop ends
      within thirty polls, the smoke test's loop makes the same requests
      and ends in the same state. */
  lemma {:induction false} ScriptAgreesWithNode(state: JobState, retries: nat, replies: seq<Reply<JobState>>)
    requires retries <= MaxScriptPolls && IsKnown(state)
    requires forall j :: 0 <= j < |replies| ==> replies[j].Ok? && IsKnown(replies[j].body)
    requires NodePoll(state, replies).end.Exited?
    requires retries + NodePoll(state, replies).polls <= MaxScriptPolls
    ensures ScriptPoll(state, retries, replies) == NodePoll(state, replies)
    decreases |replies|
  {
    if IsTransient(state) && replies != [] {
      assert !IsScriptTerminal(state);
      ScriptAgreesWithNode(replies[0].body, retries + 1, replies[1..]);
    }
  }
}
