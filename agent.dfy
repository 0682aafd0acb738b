/**
 * `AgentRunner`: the bounded loop that drives the language model.
 *
 * The model is an oracle: a total function from the arguments of one call
 * (the user's request, the hints, the rendered tree and the message history
 * so far) to a reply, which is either a fault (the call threw) or a tool
 * request. Each run makes at most `MaxIterations` calls and ends on `Done`,
 * on a fault, or when the budget is used up. Every other request is executed
 * and its envelope is appended both to the message history (as text) and to
 * the list of tool results.
 *
 * `Run` gives the loop shared by `curate` and `query` as a value; the
 * methods of `AgentRunner` perform it on a store.
 */
module Agent {
  import opened Wrappers
  import opened Strings
  import opened TreeState
  import opened Tools
  import TreeWalk
  import Store

  const MaxIterations: nat := 20

  const ExhaustedMessage := "Maximum iterations reached without completion"

  /** What one engine call gives back: it threw with a message, or it asked for a tool. */
  datatype Reply = Fault(message: string) | Req(tool: Tool)

  /** One entry of the message history. */
  datatype AgentMessage = AgentMessage(role: string, message: string)

  datatype CurateCall = CurateCall(content: string, domainHint: Option<string>, topicHint: Option<string>, tree: string, history: seq<AgentMessage>)
  datatype QueryCall = QueryCall(query: string, domainFilter: Option<string>, tree: string, history: seq<AgentMessage>)

  /** `writtenFiles` entries. */
  datatype WrittenFile = WrittenFile(domain: string, topic: string, filename: string, action: string)

  datatype CurateResult = CurateResult(success: bool, iterations: nat, error: Option<string>, toolCalls: seq<ToolResult>, writtenFiles: seq<WrittenFile>)
  datatype QueryResult = QueryResult(success: bool, results: seq<RetrievedContext>, summary: string, iterations: nat, error: Option<string>, toolCalls: seq<ToolResult>)

  /** `hint || null`: an absent or empty hint is passed as null. */
  function Hint(h: Option<string>): (r: Option<string>)
    ensures r.None? <==> h.None? || h.value == ""
    ensures r.Some? ==> r == h
  {
    if h.Some? && h.value != "" then h else None
  }

  /** `formatToolResult`: the text a tool result becomes in the history. */
  function FormatToolResult(r: ToolResult): string
  {
    "Tool: " + r.toolName + "\nInput: " + r.input + "\nOutput:\n" + r.output
  }

  /**
   * Reads a formatted tool result back: its first three lines, then the rest
   * as the output. The program has no such parser; it exists only to show,
   * in `FormatParse`, that `formatToolResult` loses nothing.
   */
  function ParseToolResult(text: string): Option<ToolResult>
  {
    var lines := SplitOn(text, '\n');
    if |lines| >= 3 && StartsWith(lines[0], "Tool: ") && StartsWith(lines[1], "Input: ") && lines[2] == "Output:" then
      Some(ToolResult(lines[0][6..], lines[1][7..], Join(lines[3..], "\n")))
    else None
  }

  /** The formatting loses nothing when the tag and the echo are single lines (the output may span many). */
  lemma FormatParse(r: ToolResult)
    requires '\n' !in r.toolName && '\n' !in r.input
    ensures ParseToolResult(FormatToolResult(r)) == Some(r)
  {
    var a, b, c := "Tool: " + r.toolName, "Input: " + r.input, "Output:";
    assert FormatToolResult(r) == a + ['\n'] + (b + ['\n'] + (c + ['\n'] + r.output));
    SplitAt(a, b + ['\n'] + (c + ['\n'] + r.output), '\n');
    SplitAt(b, c + ['\n'] + r.output, '\n');
    SplitAt(c, r.output, '\n');
    var lines := SplitOn(FormatToolResult(r), '\n');
    assert lines == [a, b, c] + SplitOn(r.output, '\n');
    assert lines[3..] == SplitOn(r.output, '\n');
    JoinSplit(r.output, '\n');
    assert lines[0][6..] == r.toolName && lines[1][7..] == r.input;
  }

  /** The history entry for a tool result. */
  function HistoryEntry(r: ToolResult): AgentMessage
  {
    AgentMessage("user", FormatToolResult(r))
  }

  // ---------------------------------------------------------------------------
  // The loop shared by curate and query
  // ---------------------------------------------------------------------------

  /** How a run ended: `Done` (carrying the request), a fault, or the budget used up. */
  datatype End = Finished(done: Tool) | Faulted(message: string) | Exhausted

  /** What a run has accumulated: the tree, the history, the tool results and (ghost bookkeeping) the requests executed. */
  datatype Progress = Progress(disk: Disk, history: seq<AgentMessage>, results: seq<ToolResult>, requests: seq<Tool>)

  datatype Trace = Trace(end: End, state: Progress)

  /** The tool executor as seen by the loop: a request on a tree gives an envelope and a tree. */
  type Exec = (Disk, Tool) -> (ToolResult, Disk)

  /** `execute` over the project files `project`. */
  function Executor(project: map<string, string>): Exec
  {
    (d, tool) => ExecuteSpec(d, project, tool)
  }

  /** What the loop relies on from the executor: the tag is kept, and only a write changes the tree. */
  ghost predicate ExecOk(exec: Exec)
  {
    forall d, tool ::
      && exec(d, tool).0.toolName == NameOf(tool)
      && (!tool.WriteMemoryTool? ==> exec(d, tool).1 == d)
  }

  lemma ExecutorOk(project: map<string, string>)
    ensures ExecOk(Executor(project))
  {
  }

  /** One execution of a request that is not `Done`. */
  function Step(exec: Exec, p: Progress, tool: Tool): Progress
  {
    var (res, e) := exec(p.disk, tool);
    Progress(e, p.history + [HistoryEntry(res)], p.results + [res], p.requests + [tool])
  }

  /**
   * The loop from iteration `i` on: `ask` is the engine with every argument
   * but the history fixed.
   */
  function Run(ask: seq<AgentMessage> -> Reply, exec: Exec, i: nat, p: Progress): Trace
    requires i <= MaxIterations
    decreases MaxIterations - i
  {
    if i == MaxIterations then Trace(Exhausted, p)
    else match ask(p.history)
      case Fault(m) => Trace(Faulted(m), p)
      case Req(tool) =>
        if tool.DoneTool? then Trace(Finished(tool), p)
        else Run(ask, exec, i + 1, Step(exec, p, tool))
  }

  /** The number of engine calls a run made. */
  function Calls(t: Trace): nat
  {
    |t.state.requests| + (if t.end.Exhausted? then 0 else 1)
  }

  /** The exchange with the engine after `i` iterations: call `k` saw the first `k` history entries and asked for request `k`, which is not `Done`. */
  ghost predicate Asked(ask: seq<AgentMessage> -> Reply, i: nat, p: Progress)
  {
    && |p.history| == |p.results| == |p.requests| == i
    && (forall k :: 0 <= k < i ==> ask(p.history[..k]) == Req(p.requests[k]) && !p.requests[k].DoneTool?)
  }

  /** What each executed request left: one history entry, the formatted text of its own result, which carries its tag. */
  ghost predicate Recorded(i: nat, p: Progress)
    requires |p.history| == |p.results| == |p.requests| == i
  {
    && (forall k :: 0 <= k < i ==> p.history[k] == HistoryEntry(p.results[k]))
    && (forall k :: 0 <= k < i ==> p.results[k].toolName == NameOf(p.requests[k]))
  }

  /** The tree after `i` iterations that started from `d`: untouched unless a write was requested. */
  ghost predicate Kept(d: Disk, i: nat, p: Progress)
    requires |p.requests| == i
  {
    (forall k :: 0 <= k < i ==> !p.requests[k].WriteMemoryTool?) ==> p.disk == d
  }

  ghost predicate Consistent(ask: seq<AgentMessage> -> Reply, d: Disk, i: nat, p: Progress)
  {
    Asked(ask, i, p) && Recorded(i, p) && Kept(d, i, p)
  }

  lemma StepAsked(ask: seq<AgentMessage> -> Reply, exec: Exec, i: nat, p: Progress, tool: Tool)
    requires Asked(ask, i, p)
    requires ask(p.history) == Req(tool) && !tool.DoneTool?
    ensures Asked(ask, i + 1, Step(exec, p, tool))
  {
    var q := Step(exec, p, tool);
    assert q.history[..i] == p.history;
    forall k | 0 <= k < i + 1
      ensures ask(q.history[..k]) == Req(q.requests[k])
    {
      if k < i {
        assert q.history[..k] == p.history[..k];
      }
    }
  }

  lemma StepRecorded(exec: Exec, i: nat, p: Progress, tool: Tool)
    requires ExecOk(exec)
    requires |p.history| == |p.results| == |p.requests| == i && Recorded(i, p)
    ensures Recorded(i + 1, Step(exec, p, tool))
  {
  }

  lemma StepKept(exec: Exec, d: Disk, i: nat, p: Progress, tool: Tool)
    requires ExecOk(exec)
    requires |p.requests| == i && Kept(d, i, p)
    ensures Kept(d, i + 1, Step(exec, p, tool))
  {
    var q := Step(exec, p, tool);
    if forall k :: 0 <= k < i + 1 ==> !q.requests[k].WriteMemoryTool? {
      forall k | 0 <= k < i
        ensures !p.requests[k].WriteMemoryTool?
      {
        assert q.requests[k] == p.requests[k];
      }
      assert !q.requests[i].WriteMemoryTool?;
    }
  }

  /** The state a run ends in after iteration `i`: it extends `p`, and the run stops at the first `Done` or fault, or after `MaxIterations` executed requests. */
  ghost predicate Ends(ask: seq<AgentMessage> -> Reply, i: nat, p: Progress, t: Trace)
    requires |p.history| == |p.results| == |p.requests| == i
  {
    var n := |t.state.requests|;
    && i <= n <= MaxIterations
    && |t.state.history| == |t.state.results| == n
    && t.state.history[..i] == p.history && t.state.results[..i] == p.results && t.state.requests[..i] == p.requests
    && Calls(t) <= MaxIterations
    && (t.end.Exhausted? <==> n == MaxIterations)
    && (t.end.Finished? ==> ask(t.state.history) == Req(t.end.done) && t.end.done.DoneTool?)
    && (t.end.Faulted? ==> ask(t.state.history) == Fault(t.end.message))
  }

  /** How every run from iteration `i` on ends (see `Ends`). */
  lemma {:induction false} RunEnds(ask: seq<AgentMessage> -> Reply, exec: Exec, i: nat, p: Progress)
    requires i <= MaxIterations && |p.history| == |p.results| == |p.requests| == i
    ensures Ends(ask, i, p, Run(ask, exec, i, p))
    decreases MaxIterations - i
  {
    if i < MaxIterations {
      match ask(p.history)
      case Fault(_) =>
      case Req(tool) =>
        if !tool.DoneTool? {
          var q := Step(exec, p, tool);
          RunEnds(ask, exec, i + 1, q);
          var t := Run(ask, exec, i + 1, q);
          assert t.state.history[..i] == t.state.history[..i + 1][..i] == q.history[..i] == p.history;
          assert t.state.results[..i] == t.state.results[..i + 1][..i] == q.results[..i] == p.results;
          assert t.state.requests[..i] == t.state.requests[..i + 1][..i] == q.requests[..i] == p.requests;
        }
    }
  }

  /** From iteration `i` on, call `k` of every run saw the first `k` history entries and asked for the `k`-th request. */
  lemma {:induction false} RunAsked(ask: seq<AgentMessage> -> Reply, exec: Exec, i: nat, p: Progress)
    requires i <= MaxIterations && Asked(ask, i, p)
    ensures Asked(ask, |Run(ask, exec, i, p).state.requests|, Run(ask, exec, i, p).state)
    decreases MaxIterations - i
  {
    if i < MaxIterations && ask(p.history).Req? && !ask(p.history).tool.DoneTool? {
      var q := Step(exec, p, ask(p.history).tool);
      StepAsked(ask, exec, i, p, ask(p.history).tool);
      RunAsked(ask, exec, i + 1, q);
      assert Run(ask, exec, i, p) == Run(ask, exec, i + 1, q);
    }
  }

  /** From iteration `i` on, each request a run executes leaves one history entry, the formatted text of its own result. */
  lemma {:induction false} RunRecorded(ask: seq<AgentMessage> -> Reply, exec: Exec, i: nat, p: Progress)
    requires ExecOk(exec)
    requires i <= MaxIterations && |p.history| == |p.results| == |p.requests| == i && Recorded(i, p)
    ensures var t := Run(ask, exec, i, p).state;
      |t.history| == |t.results| == |t.requests| && Recorded(|t.requests|, t)
    decreases MaxIterations - i
  {
    if i < MaxIterations && ask(p.history).Req? && !ask(p.history).tool.DoneTool? {
      var q := Step(exec, p, ask(p.history).tool);
      StepRecorded(exec, i, p, ask(p.history).tool);
      RunRecorded(ask, exec, i + 1, q);
      assert Run(ask, exec, i, p) == Run(ask, exec, i + 1, q);
    }
  }

  /** From iteration `i` on, a run that executes no write leaves the tree as it was. */
  lemma {:induction false} RunKept(ask: seq<AgentMessage> -> Reply, exec: Exec, d: Disk, i: nat, p: Progress)
    requires ExecOk(exec)
    requires i <= MaxIterations && |p.history| == |p.results| == |p.requests| == i && Kept(d, i, p)
    ensures var t := Run(ask, exec, i, p).state;
      |t.history| == |t.results| == |t.requests| && Kept(d, |t.requests|, t)
    decreases MaxIterations - i
  {
    if i < MaxIterations && ask(p.history).Req? && !ask(p.history).tool.DoneTool? {
      var q := Step(exec, p, ask(p.history).tool);
      StepKept(exec, d, i, p, ask(p.history).tool);
      RunKept(ask, exec, d, i + 1, q);
      assert Run(ask, exec, i, p) == Run(ask, exec, i + 1, q);
    }
  }

  /** The loop's iteration `i` on the state `p`: a fault or `Done` ends it, another request is executed, and the budget's end exhausts it. */
  lemma RunUnfold(ask: seq<AgentMessage> -> Reply, exec: Exec, i: nat, p: Progress)
    requires i <= MaxIterations
    ensures i == MaxIterations ==> Run(ask, exec, i, p) == Trace(Exhausted, p)
    ensures i < MaxIterations && ask(p.history).Fault? ==> Run(ask, exec, i, p) == Trace(Faulted(ask(p.history).message), p)
    ensures i < MaxIterations && ask(p.history).Req? && ask(p.history).tool.DoneTool? ==>
      Run(ask, exec, i, p) == Trace(Finished(ask(p.history).tool), p)
    ensures i < MaxIterations && ask(p.history).Req? && !ask(p.history).tool.DoneTool? ==>
      Run(ask, exec, i, p) == Run(ask, exec, i + 1, Step(exec, p, ask(p.history).tool))
  {
  }

  /** An iteration that executes `tool`, seen from the executor's side: the envelope `res` and the tree `e` it produced. */
  lemma RunExecuted(ask: seq<AgentMessage> -> Reply, project: map<string, string>, i: nat, p: Progress, tool: Tool, res: ToolResult, e: Disk)
    requires i < MaxIterations && ask(p.history) == Req(tool) && !tool.DoneTool?
    requires (res, e) == ExecuteSpec(p.disk, project, tool)
    ensures Run(ask, Executor(project), i, p)
         == Run(ask, Executor(project), i + 1, Progress(e, p.history + [HistoryEntry(res)], p.results + [res], p.requests + [tool]))
  {
    RunUnfold(ask, Executor(project), i, p);
    assert Executor(project)(p.disk, tool) == (res, e);
  }

  function Start(d: Disk): Progress
  {
    Progress(d, [], [], [])
  }

  /** The whole loop, started on the tree `d` with nothing accumulated. */
  lemma RunFromStart(ask: seq<AgentMessage> -> Reply, exec: Exec, d: Disk)
    requires ExecOk(exec)
    ensures Consistent(ask, d, |Run(ask, exec, 0, Start(d)).state.requests|, Run(ask, exec, 0, Start(d)).state)
    ensures Ends(ask, 0, Start(d), Run(ask, exec, 0, Start(d)))
  {
    RunEnds(ask, exec, 0, Start(d));
    RunAsked(ask, exec, 0, Start(d));
    RunRecorded(ask, exec, 0, Start(d));
    RunKept(ask, exec, d, 0, Start(d));
  }

  // ---------------------------------------------------------------------------
  // Curate
  // ---------------------------------------------------------------------------

  /** The `writtenFiles` entry of one request: one for a write, none otherwise; the file is always named `context.md`. */
  function WrittenEntry(tool: Tool): seq<WrittenFile>
  {
    if tool.WriteMemoryTool? then [WrittenFile(tool.domain, tool.topic, "context.md", ActionText(tool.action))] else []
  }

  /** `writtenFiles`: one entry per write request, in order, whatever the write's outcome. */
  function WrittenOf(requests: seq<Tool>): (r: seq<WrittenFile>)
  {
    if |requests| == 0 then []
    else WrittenOf(requests[..|requests| - 1]) + WrittenEntry(requests[|requests| - 1])
  }

  lemma WrittenOfSnoc(requests: seq<Tool>, tool: Tool)
    ensures WrittenOf(requests + [tool]) == WrittenOf(requests) + WrittenEntry(tool)
  {
    assert (requests + [tool])[..|requests|] == requests;
  }

  /** The write requests among `requests`, in order. */
  function Writes(requests: seq<Tool>): (r: seq<Tool>)
    ensures forall k :: 0 <= k < |r| ==> r[k].WriteMemoryTool?
  {
    if |requests| == 0 then []
    else Writes(requests[..|requests| - 1]) + (if requests[|requests| - 1].WriteMemoryTool? then [requests[|requests| - 1]] else [])
  }

  lemma {:induction false} WrittenOfWrites(requests: seq<Tool>)
    ensures |WrittenOf(requests)| == |Writes(requests)|
    ensures forall k :: 0 <= k < |Writes(requests)| ==>
      WrittenOf(requests)[k] == WrittenFile(Writes(requests)[k].domain, Writes(requests)[k].topic, "context.md", ActionText(Writes(requests)[k].action))
  {
    if |requests| > 0 {
      WrittenOfWrites(requests[..|requests| - 1]);
    }
  }

  function CurateAsk(engine: CurateCall -> Reply, content: string, domainHint: Option<string>, topicHint: Option<string>, tree: string): seq<AgentMessage> -> Reply
  {
    h => engine(CurateCall(content, Hint(domainHint), Hint(topicHint), tree, h))
  }

  /** The rendered tree every call of a run is given: computed once before the loop. */
  function TreeText(d: Disk): string
  {
    Join(TreeWalk.TreeLines(d), "\n")
  }

  /** `curate(content, domainHint, topicHint)` on the tree `d`: the run, whose result is `CurateOf` of it. */
  function CurateTrace(engine: CurateCall -> Reply, content: string, domainHint: Option<string>, topicHint: Option<string>, d: Disk, project: map<string, string>): Trace
  {
    Run(CurateAsk(engine, content, domainHint, topicHint, TreeText(d)), Executor(project), 0, Start(d))
  }

  function CurateOf(t: Trace): CurateResult
  {
    var p := t.state;
    match t.end
    case Finished(_) => CurateResult(true, |p.results| + 1, None, p.results, WrittenOf(p.requests))
    case Faulted(m) => CurateResult(false, |p.results|, Some(m), p.results, WrittenOf(p.requests))
    case Exhausted => CurateResult(false, MaxIterations, Some(ExhaustedMessage), p.results, WrittenOf(p.requests))
  }


  /**
   * The three ways a curate run ends. It succeeds exactly when the engine
   * asked for `Done`, with `iterations` one more than the tool calls; it
   * fails with the fault's message verbatim and `iterations` equal to the
   * tool calls made; or it fails after `MaxIterations` tool calls with the
   * exhaustion message. `writtenFiles` lists every write request.
   */
  lemma CurateOutcomes(engine: CurateCall -> Reply, content: string, domainHint: Option<string>, topicHint: Option<string>, d: Disk, project: map<string, string>)
    requires Valid(d)
    ensures var t := CurateTrace(engine, content, domainHint, topicHint, d, project); var r := CurateOf(t);
      && Calls(t) <= MaxIterations
      && r.toolCalls == t.state.results
      && (r.success <==> t.end.Finished?)
      && (r.success ==> r.iterations == |r.toolCalls| + 1 <= MaxIterations && r.error.None?)
      && (t.end.Faulted? ==> r.iterations == |r.toolCalls| < MaxIterations && r.error == Some(t.end.message))
      && (t.end.Exhausted? ==> r.iterations == |r.toolCalls| == MaxIterations && r.error == Some(ExhaustedMessage))
      && |r.writtenFiles| == |Writes(t.state.requests)|
      && (forall k :: 0 <= k < |r.writtenFiles| ==> r.writtenFiles[k].filename == "context.md")
  {
    ExecutorOk(project);
    RunFromStart(CurateAsk(engine, content, domainHint, topicHint, TreeText(d)), Executor(project), d);
    WrittenOfWrites(CurateTrace(engine, content, domainHint, topicHint, d, project).state.requests);
  }

  /**
   * What the engine saw: call `k` of a curate run was given the content,
   * the hints with empty ones dropped, the tree rendered once before the
   * loop, and the history of the first `k` tool results; the replies were
   * the executed requests, and then the `Done` or fault that ended the run.
   */
  lemma CurateCalls(engine: CurateCall -> Reply, content: string, domainHint: Option<string>, topicHint: Option<string>, d: Disk, project: map<string, string>)
    requires Valid(d)
    ensures var t := CurateTrace(engine, content, domainHint, topicHint, d, project); var p := t.state;
      var call := (h: seq<AgentMessage>) => CurateCall(content, Hint(domainHint), Hint(topicHint), TreeText(d), h);
      && |p.history| == |p.results| == |p.requests|
      && (forall k :: 0 <= k < |p.requests| ==> engine(call(p.history[..k])) == Req(p.requests[k]))
      && (forall k :: 0 <= k < |p.requests| ==> p.history[k] == AgentMessage("user", FormatToolResult(p.results[k])))
      && (t.end.Finished? ==> engine(call(p.history)) == Req(t.end.done))
      && (t.end.Faulted? ==> engine(call(p.history)) == Fault(t.end.message))
  {
    ExecutorOk(project);
    RunFromStart(CurateAsk(engine, content, domainHint, topicHint, TreeText(d)), Executor(project), d);
  }

  // ---------------------------------------------------------------------------
  // Query
  // ---------------------------------------------------------------------------

  function QueryAsk(engine: QueryCall -> Reply, query: string, domainFilter: Option<string>, tree: string): seq<AgentMessage> -> Reply
  {
    h => engine(QueryCall(query, Hint(domainFilter), tree, h))
  }

  /** `query(query, domainFilter)` on the tree `d`: the run, whose result is `QueryOf` of it. */
  function QueryTrace(engine: QueryCall -> Reply, query: string, domainFilter: Option<string>, d: Disk, project: map<string, string>): Trace
  {
    Run(QueryAsk(engine, query, domainFilter, TreeText(d)), Executor(project), 0, Start(d))
  }

  function QueryOf(t: Trace): QueryResult
  {
    var p := t.state;
    match t.end
    case Finished(done) =>
      var results := if done.DoneTool? && done.results.Some? then done.results.value else [];
      var summary := if done.DoneTool? && done.summary.Some? then done.summary.value else "";
      QueryResult(true, results, summary, |p.results| + 1, None, p.results)
    case Faulted(m) => QueryResult(false, [], "", |p.results|, Some(m), p.results)
    case Exhausted => QueryResult(false, [], "", MaxIterations, Some(ExhaustedMessage), p.results)
  }


  /**
   * The three ways a query run ends, as for curate; on success the
   * retrieved contexts and the summary are the `Done` request's, or `[]`
   * and `""` where it has none, and on failure both are empty.
   */
  lemma QueryOutcomes(engine: QueryCall -> Reply, query: string, domainFilter: Option<string>, d: Disk, project: map<string, string>)
    requires Valid(d)
    ensures var t := QueryTrace(engine, query, domainFilter, d, project); var r := QueryOf(t);
      && Calls(t) <= MaxIterations
      && r.toolCalls == t.state.results
      && (r.success <==> t.end.Finished?)
      && (t.end.Finished? ==> t.end.done.DoneTool?)
      && (r.success ==>
            && r.iterations == |r.toolCalls| + 1 <= MaxIterations && r.error.None?
            && r.results == (if t.end.done.results.Some? then t.end.done.results.value else [])
            && r.summary == (if t.end.done.summary.Some? then t.end.done.summary.value else ""))
      && (!r.success ==> r.results == [] && r.summary == "")
      && (t.end.Faulted? ==> r.iterations == |r.toolCalls| < MaxIterations && r.error == Some(t.end.message))
      && (t.end.Exhausted? ==> r.iterations == |r.toolCalls| == MaxIterations && r.error == Some(ExhaustedMessage))
  {
    ExecutorOk(project);
    RunFromStart(QueryAsk(engine, query, domainFilter, TreeText(d)), Executor(project), d);
  }

  /** A query run whose engine never asks for a write leaves the tree as it was. */
  lemma QueryReadOnly(engine: QueryCall -> Reply, query: string, domainFilter: Option<string>, d: Disk, project: map<string, string>)
    requires Valid(d)
    requires forall h :: !engine(QueryCall(query, Hint(domainFilter), TreeText(d), h)).Req?
                         || !engine(QueryCall(query, Hint(domainFilter), TreeText(d), h)).tool.WriteMemoryTool?
    ensures QueryTrace(engine, query, domainFilter, d, project).state.disk == d
  {
    var ask := QueryAsk(engine, query, domainFilter, TreeText(d));
    ExecutorOk(project);
    RunFromStart(ask, Executor(project), d);
    var p := QueryTrace(engine, query, domainFilter, d, project).state;
    forall k | 0 <= k < |p.requests|
      ensures !p.requests[k].WriteMemoryTool?
    {
      assert ask(p.history[..k]) == Req(p.requests[k]);
    }
  }

  // ---------------------------------------------------------------------------
  // The runner object
  // ---------------------------------------------------------------------------

  class AgentRunner {
    const store: Store.ContextTreeStore
    const executor: ToolExecutor

    constructor(store: Store.ContextTreeStore)
      ensures this.store == store && executor.store == store
    {
      this.store := store;
      executor := new ToolExecutor(store);
    }

    /** `curate`: the bounded loop, with an early return on `Done` or a fault. */
    method Curate(engine: CurateCall -> Reply, content: string, domainHint: Option<string>, topicHint: Option<string>) returns (r: CurateResult)
      requires store.Valid() && executor.store == store
      modifies store
      ensures store.Valid()
      ensures r == CurateOf(CurateTrace(engine, content, domainHint, topicHint, old(store.State()), old(store.projectFiles)))
      ensures store.State() == CurateTrace(engine, content, domainHint, topicHint, old(store.State()), old(store.projectFiles)).state.disk
      ensures store.projectFiles == old(store.projectFiles)
    {
      var tree := store.GetTreeStructure();
      ghost var ask := CurateAsk(engine, content, domainHint, topicHint, tree);
      ghost var exec := Executor(old(store.projectFiles));
      ghost var trace := Run(ask, exec, 0, Start(store.State()));
      assert trace == CurateTrace(engine, content, domainHint, topicHint, old(store.State()), old(store.projectFiles));
      var history: seq<AgentMessage> := [];
      var results: seq<ToolResult> := [];
      var written: seq<WrittenFile> := [];
      ghost var requests: seq<Tool> := [];
      for i := 0 to MaxIterations
        invariant store.Valid() && store.projectFiles == old(store.projectFiles)
        invariant |results| == i
        invariant written == WrittenOf(requests)
        invariant trace == Run(ask, exec, i, Progress(store.State(), history, results, requests))
      {
        ghost var before := Progress(store.State(), history, results, requests);
        var reply := engine(CurateCall(content, Hint(domainHint), Hint(topicHint), tree, history));
        assert reply == ask(history);
        if reply.Fault? {
          RunUnfold(ask, exec, i, before);
          return CurateResult(false, |results|, Some(reply.message), results, written);
        }
        var tool := reply.tool;
        if tool.DoneTool? {
          RunUnfold(ask, exec, i, before);
          return CurateResult(true, i + 1, None, results, written);
        }
        var res := executor.Execute(tool);
        RunExecuted(ask, old(store.projectFiles), i, before, tool, res, store.State());
        history := history + [AgentMessage("user", FormatToolResult(res))];
        results := results + [res];
        if tool.WriteMemoryTool? {
          written := written + [WrittenFile(tool.domain, tool.topic, "context.md", ActionText(tool.action))];
        }
        WrittenOfSnoc(requests, tool);
        requests := requests + [tool];
      }
      RunUnfold(ask, exec, MaxIterations, Progress(store.State(), history, results, requests));
      return CurateResult(false, MaxIterations, Some(ExhaustedMessage), results, written);
    }

    /** `query`: the same loop; a `Done` carries the retrieved contexts and the summary. */
    method Query(engine: QueryCall -> Reply, query: string, domainFilter: Option<string>) returns (r: QueryResult)
      requires store.Valid() && executor.store == store
      modifies store
      ensures store.Valid()
      ensures r == QueryOf(QueryTrace(engine, query, domainFilter, old(store.State()), old(store.projectFiles)))
      ensures store.State() == QueryTrace(engine, query, domainFilter, old(store.State()), old(store.projectFiles)).state.disk
      ensures store.projectFiles == old(store.projectFiles)
    {
      var tree := store.GetTreeStructure();
      ghost var ask := QueryAsk(engine, query, domainFilter, tree);
      ghost var exec := Executor(old(store.projectFiles));
      ghost var trace := Run(ask, exec, 0, Start(store.State()));
      assert trace == QueryTrace(engine, query, domainFilter, old(store.State()), old(store.projectFiles));
      var history: seq<AgentMessage> := [];
      var results: seq<ToolResult> := [];
      ghost var requests: seq<Tool> := [];
      for i := 0 to MaxIterations
        invariant store.Valid() && store.projectFiles == old(store.projectFiles)
        invariant |results| == i
        invariant trace == Run(ask, exec, i, Progress(store.State(), history, results, requests))
      {
        ghost var before := Progress(store.State(), history, results, requests);
        var reply := engine(QueryCall(query, Hint(domainFilter), tree, history));
        assert reply == ask(history);
        if reply.Fault? {
          RunUnfold(ask, exec, i, before);
          return QueryResult(false, [], "", |results|, Some(reply.message), results);
        }
        var tool := reply.tool;
        if tool.DoneTool? {
          RunUnfold(ask, exec, i, before);
          var found := if tool.results.Some? then tool.results.value else [];
          var summary := if tool.summary.Some? then tool.summary.value else "";
          return QueryResult(true, found, summary, i + 1, None, results);
        }
        var res := executor.Execute(tool);
        RunExecuted(ask, old(store.projectFiles), i, before, tool, res, store.State());
        history := history + [AgentMessage("user", FormatToolResult(res))];
        results := results + [res];
        requests := requests + [tool];
      }
      RunUnfold(ask, exec, MaxIterations, Progress(store.State(), history, results, requests));
      return QueryResult(false, [], "", MaxIterations, Some(ExhaustedMessage), results);
    }
  }
}
