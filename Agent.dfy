/** The executor loop of `run_agent` in main.py: for each subtask the
    executor model's reply is cleaned of a code fence, parsed as a call and
    dispatched through the registry; every subtask gets a result entry, and
    the run keeps the overall success and the first error. The model's
    replies and the behaviour of the called functions are parameters. */
module Agent {
  import opened Text
  import opened FunctionOps

  // ---------------------------------------------------------------------
  // Cleaning the reply (main.py:81-83)
  // ---------------------------------------------------------------------

  const Fence: string := "```"

  /** `s[3:-3]`: what is left between the first three and the last three
      characters, which is nothing when they overlap. */
  function DropFence(s: string): (r: string)
    ensures |r| == if |s| >= 6 then |s| - 6 else 0
    ensures forall i :: 0 <= i < |r| ==> r[i] == s[i + 3]
  {
    if |s| >= 6 then s[3..|s| - 3] else ""
  }

  /** `clean_response`: the stripped reply, and when it both starts and ends
      with three backticks, what lies between them, stripped again. */
  function StripFence(reply: string): string {
    var c := Strip(reply);
    if StartsWith(c, Fence) && EndsWith(c, Fence) then Strip(DropFence(c)) else c
  }

  /** The three backticks on each side of a fenced text are what is
      recognised and dropped. */
  lemma FenceParts(body: string)
    ensures StartsWith(Fence + body + Fence, Fence) && EndsWith(Fence + body + Fence, Fence)
    ensures DropFence(Fence + body + Fence) == body
  {
    var f := Fence + body + Fence;
    assert f[..3] == Fence;
    assert f[|f| - 3..] == Fence;
    assert f[3..|f| - 3] == body;
  }

  /** A fenced reply is cleaned to the stripped text inside the fence. */
  lemma FencedClean(body: string)
    ensures StripFence(Fence + body + Fence) == Strip(body)
  {
    var f := Fence + body + Fence;
    assert f[0] == '`' && f[|f| - 1] == '`';
    StripIdentity(f);
    FenceParts(body);
  }

  /** A fenced reply, with any whitespace around the fence, is cleaned to
      the stripped text inside the fence. */
  lemma FenceRemoved(before: string, body: string, after: string)
    requires AllSpace(before) && AllSpace(after)
    ensures StripFence(before + Fence + body + Fence + after) == Strip(body)
  {
    var f := Fence + body + Fence;
    assert before + Fence + body + Fence + after == before + f + after;
    assert f[0] == '`' && f[|f| - 1] == '`';
    StripOf(before, f, after);
    FenceParts(body);
  }

  /** A reply that is nothing but one fence, or backticks overlapping at
      both ends, is cleaned to the empty text. */
  lemma ShortFenceEmpty(reply: string)
    requires StartsWith(Strip(reply), Fence) && EndsWith(Strip(reply), Fence)
    requires |Strip(reply)| < 6
    ensures StripFence(reply) == ""
  {
    var c := Strip(reply);
    assert |DropFence(c)| == 0;
    StripIdentity("");
  }

  // ---------------------------------------------------------------------
  // One subtask (main.py:74-105)
  // ---------------------------------------------------------------------

  function NotParsedMessage(clean: string): string {
    "Could not parse function call: " + clean
  }

  /** What running one subtask leads to: the reply is cleaned and parsed;
      without a name it fails with the parse message, otherwise the call is
      dispatched and its outcome, returned value or raised exception, is
      the subtask's. */
  function SubtaskOutcome(reply: string, registry: map<string, Callable>,
                          callee: (Callable, map<string, Value>) -> Outcome): Outcome {
    var clean := StripFence(reply);
    var (name, args) := ParseCall(clean);
    if name.None? then Raised(NotParsedMessage(clean))
    else Dispatch(registry, name.value, args, callee)
  }

  /** A reply that does not start with a call head fails with the parse
      message and calls nothing. */
  lemma UnparsedReplyFails(reply: string, registry: map<string, Callable>,
                           callee: (Callable, map<string, Value>) -> Outcome)
    requires forall name, k :: !CallHead(StripFence(reply), name, k)
    ensures SubtaskOutcome(reply, registry, callee) == Raised(NotParsedMessage(StripFence(reply)))
  {
    var clean := StripFence(reply);
    if CallName(clean).Some? {
      CallNameIff(clean, CallName(clean).value);
    }
  }

  /** A well-formed call to a name that is not registered fails with the
      registry's message. */
  lemma UnknownFunctionFails(name: string, pairs: seq<(string, Value)>,
                             registry: map<string, Callable>,
                             callee: (Callable, map<string, Value>) -> Outcome)
    requires IsIdentifier(name) && name !in registry
    requires forall i :: 0 <= i < |pairs| ==> IsIdentifier(pairs[i].0) && Renderable(pairs[i].1)
    ensures SubtaskOutcome(RenderCall(name, pairs), registry, callee) == Raised(NotFoundMessage(name))
  {
    RenderedCallDispatches(name, pairs, registry, callee);
  }

  /** A trimmed reply that does not start with a backtick is its own
      cleaned form. */
  lemma UnfencedClean(reply: string)
    requires Trimmed(reply) && reply != [] && reply[0] != '`'
    ensures StripFence(reply) == reply
  {
    StripIdentity(reply);
    if |reply| >= 3 { assert reply[..3][0] != '`'; }
  }

  /** A rendered call starts with its name and ends with `)`. */
  lemma RenderedTrimmed(name: string, pairs: seq<(string, Value)>)
    requires IsIdentifier(name)
    ensures var call := RenderCall(name, pairs);
            call != [] && Trimmed(call) && call[0] != '`'
  {
    var call := RenderCall(name, pairs);
    assert call[0] == name[0];
    assert call[|call| - 1] == ')';
  }

  /** A reply is judged by its cleaned form alone. */
  lemma OutcomeOfClean(reply: string, registry: map<string, Callable>,
                       callee: (Callable, map<string, Value>) -> Outcome,
                       name: string, args: map<string, Value>)
    requires ParseCall(StripFence(reply)) == (Some(name), args)
    ensures SubtaskOutcome(reply, registry, callee) == Dispatch(registry, name, args, callee)
  {
  }

  /** A reply that is a well-formed call, fenced or not, is dispatched with
      exactly the arguments written in it. */
  lemma RenderedCallDispatches(name: string, pairs: seq<(string, Value)>,
                               registry: map<string, Callable>,
                               callee: (Callable, map<string, Value>) -> Outcome)
    requires IsIdentifier(name)
    requires forall i :: 0 <= i < |pairs| ==> IsIdentifier(pairs[i].0) && Renderable(pairs[i].1)
    ensures SubtaskOutcome(RenderCall(name, pairs), registry, callee) == Dispatch(registry, name, ToMap(pairs), callee)
    ensures SubtaskOutcome(Fence + RenderCall(name, pairs) + Fence, registry, callee) == Dispatch(registry, name, ToMap(pairs), callee)
  {
    var call := RenderCall(name, pairs);
    RoundTrip(name, pairs);
    RenderedTrimmed(name, pairs);
    UnfencedClean(call);
    OutcomeOfClean(call, registry, callee, name, ToMap(pairs));
    FencedClean(call);
    StripIdentity(call);
    OutcomeOfClean(Fence + call + Fence, registry, callee, name, ToMap(pairs));
  }

  /** A word, a line break and then a call is not a call head. */
  lemma TaggedNotCall(tag: string, call: string)
    requires IsIdentifier(tag) && call != [] && IsWordChar(call[0])
    ensures CallName(tag + "\n" + call).None?
  {
    var inner := tag + "\n" + call;
    var n := |tag|;
    assert inner[..n] == tag && inner[n] == '\n' && inner[n + 1] == call[0];
    WordLenOf(inner, n);
    var rest := inner[n..];
    assert rest[..1] == "\n" && rest[1] == call[0];
    SpaceLenOf(rest, 1);
  }

  /** A reply whose cleaned form has no call head raises the parse error. */
  lemma OutcomeUnparsed(reply: string, registry: map<string, Callable>,
                        callee: (Callable, map<string, Value>) -> Outcome)
    requires CallName(StripFence(reply)).None?
    ensures SubtaskOutcome(reply, registry, callee) == Raised(NotParsedMessage(StripFence(reply)))
  {
  }

  /** A fence that names a language (```` ```python ````) is not a call:
      the tag stays in front of the call after cleaning and the reply fails
      to parse, however well-formed the call inside is. */
  lemma TaggedFenceFails(tag: string, name: string, pairs: seq<(string, Value)>,
                         registry: map<string, Callable>,
                         callee: (Callable, map<string, Value>) -> Outcome)
    requires IsIdentifier(tag) && IsIdentifier(name)
    ensures var inner := tag + "\n" + RenderCall(name, pairs);
            SubtaskOutcome(Fence + inner + Fence, registry, callee) == Raised(NotParsedMessage(inner))
  {
    var call := RenderCall(name, pairs);
    var inner := tag + "\n" + call;
    RenderedTrimmed(name, pairs);
    assert call[0] == name[0];
    assert inner[0] == tag[0] && inner[|inner| - 1] == call[|call| - 1];
    StripIdentity(inner);
    FencedClean(inner);
    TaggedNotCall(tag, call);
    OutcomeUnparsed(Fence + inner + Fence, registry, callee);
  }

  // ---------------------------------------------------------------------
  // The result records (main.py:57-72) and the loop (main.py:64-110)
  // ---------------------------------------------------------------------

  /** `subtask_result`. `functionCall` is never filled in. */
  datatype SubtaskResult = SubtaskResult(
    id: nat, description: string, functionCall: Option<string>,
    success: bool, result: Option<string>, error: Option<string>)

  /** `results`. */
  datatype RunResult = RunResult(task: string, subtasks: seq<SubtaskResult>, success: bool, error: Option<string>)

  /** The entry of the subtask at index `i` for its outcome: the returned
      text on success, the exception's message on failure. */
  function Entry(i: nat, description: string, outcome: Outcome): (e: SubtaskResult)
    ensures e.id == i + 1 && e.description == description && e.functionCall.None?
    ensures e.success <==> outcome.Returned?
    ensures e.success ==> e.result == Some(outcome.text) && e.error.None?
    ensures !e.success ==> e.result.None? && e.error == Some(outcome.message)
  {
    match outcome
    case Returned(text) => SubtaskResult(i + 1, description, None, true, Some(text), None)
    case Raised(message) => SubtaskResult(i + 1, description, None, false, None, Some(message))
  }

  /** `results["error"]` for a failed entry. */
  function ErrorLine(e: SubtaskResult): string
    requires e.error.Some?
  {
    "Error in subtask " + NatToString(e.id) + ": " + e.error.value
  }

  /** Every entry has an error exactly when it failed. */
  predicate Consistent(entries: seq<SubtaskResult>) {
    forall k :: 0 <= k < |entries| ==> (entries[k].success <==> entries[k].error.None?)
  }

  /** The error the run reports after these entries: the first failure's,
      later failures leaving it unchanged. */
  function FirstError(entries: seq<SubtaskResult>): Option<string>
    requires Consistent(entries)
    decreases |entries|
  {
    if entries == [] then None
    else
      var last := entries[|entries| - 1];
      var earlier := FirstError(entries[..|entries| - 1]);
      if earlier.Some? || last.success then earlier else Some(ErrorLine(last))
  }

  /** No error exactly when every entry succeeded; otherwise the error names
      the first failing entry, every entry before it having succeeded. */
  lemma {:induction false} FirstErrorIs(entries: seq<SubtaskResult>)
    requires Consistent(entries)
    ensures FirstError(entries).None? <==> forall k :: 0 <= k < |entries| ==> entries[k].success
    ensures FirstError(entries).Some? ==>
      exists k :: 0 <= k < |entries| && !entries[k].success
        && (forall j :: 0 <= j < k ==> entries[j].success)
        && FirstError(entries) == Some(ErrorLine(entries[k]))
    decreases |entries|
  {
    if entries != [] {
      var n := |entries|;
      var init := entries[..n - 1];
      assert forall k :: 0 <= k < n - 1 ==> init[k] == entries[k];
      assert Consistent(init);
      FirstErrorIs(init);
      if FirstError(init).Some? {
        assert FirstError(entries) == FirstError(init);
        var k :| 0 <= k < |init| && !init[k].success
          && (forall j :: 0 <= j < k ==> init[j].success)
          && FirstError(init) == Some(ErrorLine(init[k]));
        assert entries[k] == init[k];
        assert !entries[k].success;
      } else if !entries[n - 1].success {
        assert FirstError(entries) == Some(ErrorLine(entries[n - 1]));
        assert forall j :: 0 <= j < n - 1 ==> entries[j].success;
      } else {
        assert FirstError(entries) == None;
      }
    }
  }

  /** Appending an entry: a reported error stays, otherwise a failed entry
      reports its own. */
  lemma FirstErrorSnoc(entries: seq<SubtaskResult>, e: SubtaskResult)
    requires Consistent(entries) && (e.success <==> e.error.None?)
    ensures Consistent(entries + [e])
    ensures FirstError(entries + [e]) ==
      if FirstError(entries).Some? || e.success then FirstError(entries) else Some(ErrorLine(e))
  {
    var l := entries + [e];
    assert l[..|entries|] == entries;
    assert forall k :: 0 <= k < |entries| ==> l[k] == entries[k];
    assert l[|entries|] == e;
  }

  /** The entries `run_agent` records for subtasks ending in these
      outcomes, one per subtask and in order. */
  function Report(subtasks: seq<string>, outcomes: seq<Outcome>): (r: seq<SubtaskResult>)
    requires |outcomes| <= |subtasks|
    ensures |r| == |outcomes|
  {
    if outcomes == [] then []
    else
      var n := |outcomes| - 1;
      Report(subtasks, outcomes[..n]) + [Entry(n, subtasks[n], outcomes[n])]
  }

  /** Entry `k` is subtask `k` with its outcome. */
  lemma {:induction false} ReportAt(subtasks: seq<string>, outcomes: seq<Outcome>, k: nat)
    requires |outcomes| <= |subtasks| && k < |outcomes|
    ensures Report(subtasks, outcomes)[k] == Entry(k, subtasks[k], outcomes[k])
  {
    var n := |outcomes| - 1;
    if k < n {
      ReportAt(subtasks, outcomes[..n], k);
    }
  }

  /** One more outcome adds its entry at the end of the report. */
  lemma ReportSnoc(subtasks: seq<string>, outcomes: seq<Outcome>, i: nat)
    requires i < |outcomes| <= |subtasks|
    ensures Report(subtasks, outcomes[..i + 1]) == Report(subtasks, outcomes[..i]) + [Entry(i, subtasks[i], outcomes[i])]
  {
    var o := outcomes[..i + 1];
    assert o[..i] == outcomes[..i] && o[i] == outcomes[i];
  }

  /** What each subtask leads to, given its reply and its callee. */
  function Outcomes(replies: seq<string>, registry: map<string, Callable>,
                    callees: seq<(Callable, map<string, Value>) -> Outcome>): (r: seq<Outcome>)
    requires |callees| == |replies|
    ensures |r| == |replies|
  {
    seq(|replies|, k requires 0 <= k < |replies| => SubtaskOutcome(replies[k], registry, callees[k]))
  }

  /** The entries recorded for the subtasks' outcomes are, one by one, the
      subtasks with what their replies lead to. */
  lemma ReportOfOutcomes(subtasks: seq<string>, replies: seq<string>, registry: map<string, Callable>,
                         callees: seq<(Callable, map<string, Value>) -> Outcome>)
    requires |replies| == |subtasks| && |callees| == |subtasks|
    ensures forall k :: 0 <= k < |subtasks| ==>
      Report(subtasks, Outcomes(replies, registry, callees))[k]
        == Entry(k, subtasks[k], SubtaskOutcome(replies[k], registry, callees[k]))
  {
    var outcomes := Outcomes(replies, registry, callees);
    forall k | 0 <= k < |subtasks|
      ensures Report(subtasks, outcomes)[k] == Entry(k, subtasks[k], SubtaskOutcome(replies[k], registry, callees[k]))
    {
      ReportAt(subtasks, outcomes, k);
    }
  }

  /** `run_agent` from the executor prompt on: `replies[i]` is the executor
      model's reply for `subtasks[i]` and `callees[i]` how the registered
      functions behave when that subtask runs. */
  method RunAgent(task: string, subtasks: seq<string>, replies: seq<string>,
                  registry: map<string, Callable>,
                  callees: seq<(Callable, map<string, Value>) -> Outcome>)
    returns (results: RunResult)
    requires |replies| == |subtasks| && |callees| == |subtasks|
    ensures results.task == task && |results.subtasks| == |subtasks|
    ensures forall k :: 0 <= k < |subtasks| ==>
      results.subtasks[k] == Entry(k, subtasks[k], SubtaskOutcome(replies[k], registry, callees[k]))
    ensures results.success <==> forall k :: 0 <= k < |subtasks| ==> results.subtasks[k].success
    ensures Consistent(results.subtasks) && results.error == FirstError(results.subtasks)
  {
    var entries, success, error := RunSubtasks(subtasks, replies, registry, callees);
    ReportOfOutcomes(subtasks, replies, registry, callees);
    FirstErrorIs(entries);
    results := RunResult(task, entries, success, error);
  }

  /** The loop over the subtasks, recording each outcome in order. */
  method RunSubtasks(subtasks: seq<string>, replies: seq<string>,
                     registry: map<string, Callable>,
                     callees: seq<(Callable, map<string, Value>) -> Outcome>)
    returns (entries: seq<SubtaskResult>, success: bool, error: Option<string>)
    requires |replies| == |subtasks| && |callees| == |subtasks|
    ensures entries == Report(subtasks, Outcomes(replies, registry, callees))
    ensures Consistent(entries) && error == FirstError(entries)
    ensures success <==> error.None?
  {
    entries, success, error := [], true, None;
    ghost var expected := Outcomes(replies, registry, callees);
    for i := 0 to |subtasks|
      invariant entries == Report(subtasks, expected[..i])
      invariant Consistent(entries)
      invariant error == FirstError(entries)
      invariant success <==> error.None?
    {
      var outcome := RunSubtask(replies, registry, callees, i);
      var entry;
      entry, success, error := Record(i, subtasks[i], outcome, success, error);
      FirstErrorSnoc(entries, entry);
      ReportSnoc(subtasks, expected, i);
      entries := entries + [entry];
    }
    assert expected[..|subtasks|] == expected;
  }

  /** Filling in `subtask_result` and `results` once the subtask has
      returned or raised. */
  method Record(i: nat, description: string, outcome: Outcome, success: bool, error: Option<string>)
    returns (entry: SubtaskResult, success': bool, error': Option<string>)
    ensures entry == Entry(i, description, outcome)
    ensures success' <==> success && entry.success
    ensures error' == if error.Some? || entry.success then error else Some(ErrorLine(entry))
  {
    entry := SubtaskResult(i + 1, description, None, false, None, None);
    success', error' := success, error;
    match outcome {
      case Returned(text) =>
        entry := entry.(success := true, result := Some(text));
      case Raised(message) =>
        entry := entry.(success := false, error := Some(message));
        success' := false;
        if error'.None? {
          error' := Some("Error in subtask " + NatToString(i + 1) + ": " + message);
        }
    }
  }

  /** The body of the `try` in the loop, for subtask `i`. */
  method RunSubtask(replies: seq<string>, registry: map<string, Callable>,
                    callees: seq<(Callable, map<string, Value>) -> Outcome>, i: nat)
    returns (outcome: Outcome)
    requires |callees| == |replies| && i < |replies|
    ensures outcome == Outcomes(replies, registry, callees)[i]
    ensures outcome == SubtaskOutcome(replies[i], registry, callees[i])
  {
    var clean := Strip(replies[i]);
    if StartsWith(clean, Fence) && EndsWith(clean, Fence) {
      clean := Strip(DropFence(clean));
    }
    var name, args := ParseFunctionCall(clean);
    if name.None? {
      return Raised(NotParsedMessage(clean));
    }
    outcome := Dispatch(registry, name.value, args, callees[i]);
  }
}
