/** The plan interpreter (`execute_plan`): steps run strictly in order; each
    step's arguments are resolved against the variables saved by earlier
    steps, the tool is invoked, its result is normalised, recorded in the
    trace and optionally saved under a name. Any error aborts the plan. */
module Interpreter {
  import opened Wrappers
  import opened Json
  import opened PyText
  import opened Resolver
  import opened Normalizer

  /** A dict of arguments, in insertion order. */
  type Args = seq<(string, Json)>

  /** One invocation as the transport received it. */
  datatype Call = Call(tool: Json, args: Args)

  /** What one invocation produces: the raw result, or the message of the
      exception the transport raised. */
  type Response = Result<RawResult, string>

  /** The transport client (`MCPClientWrapper`). The remote side is the
      function `respond` of the number of calls made before and of the call
      itself; `calls` logs every invocation in order. */
  class McpClient {
    const respond: (nat, Json, Args) -> Response
    var calls: seq<Call>

    constructor (respond: (nat, Json, Args) -> Response)
      ensures this.respond == respond && calls == []
    {
      this.respond := respond;
      calls := [];
    }

    /** `call_tool(tool_name, args)`: one logged invocation. */
    method CallTool(tool: Json, args: Args) returns (r: Response)
      modifies this
      ensures calls == old(calls) + [Call(tool, args)]
      ensures r == respond(|old(calls)|, tool, args)
    {
      r := respond(|calls|, tool, args);
      calls := calls + [Call(tool, args)];
    }
  }

  /** The exceptions that abort a plan. Only the `MissingTool` message and
      the resolver's messages name the step; which step stopped a run is
      recorded by the run itself (`Run.done`). */
  datatype PlanError =
    | StepsNotAList                   // ValueError: 'steps' is not a list
    | StepNotAnObject                 // AttributeError: `step.get` on a non-dict
    | MissingTool(step: nat)          // ValueError: missing or falsy 'tool'
    | ArgsNotAnObject                 // AttributeError: `args.items()` on a non-dict
    | Unresolved(cause: ResolveError) // raised by resolve_value
    | ToolFailed(message: string)     // raised by call_tool, passed on unchanged

  /** One entry of the trace (`raw_results`). */
  datatype StepRecord = StepRecord(step: nat, tool: Json, args: Args, raw: RawResult, parsed: Json)

  /** What `execute_plan` returns: the variables and the trace. */
  datatype Execution = Execution(variables: map<string, Json>, steps: seq<StepRecord>)

  /** The outcome of a run together with the invocation log it leaves and
      the trace of the steps completed before it ended. */
  datatype Run = Run(result: Result<Execution, PlanError>, calls: seq<Call>, done: seq<StepRecord>)

  /** A validated step: its tool and its arguments (`SaveName` gives the
      name it saves under). */
  datatype StepSpec = StepSpec(tool: Json, args: Args)

  /** `plan.get("steps", [])`, which must be a list. */
  function PlanSteps(plan: Args): Result<seq<Json>, PlanError> {
    var steps := Lookup(plan, "steps").GetOr(JArray([]));
    if steps.JArray? then Success(steps.items) else Failure(StepsNotAList)
  }

  /** The variable a step saves its result under: `save_as` when it is a
      string that is not blank, with every leading `$` removed. */
  function SaveName(step: Json): Option<string> {
    if !step.JObject? then None
    else
      var given := Lookup(step.fields, "save_as");
      if given.Some? && given.value.JString? && !IsBlank(given.value.s) then Some(LStripChar(given.value.s, '$'))
      else None
  }

  /** A step saves exactly when it is a dict whose `save_as` is a string
      with a non-empty `strip()`; the name is that string with its leading
      `$` removed. */
  lemma SaveNameIsStrippedSaveAs(step: Json)
    ensures var given := if step.JObject? then Lookup(step.fields, "save_as") else None;
      && (SaveName(step).Some? <==> given.Some? && given.value.JString? && Strip(given.value.s) != "")
      && (SaveName(step).Some? ==> SaveName(step).value == LStripChar(given.value.s, '$'))
  {
  }

  /** Reads `tool` and `args` (a missing or falsy value becomes {}) of a
      step; the tool is checked before the arguments are used. */
  function ReadStep(step: Json, idx: nat): Result<StepSpec, PlanError> {
    if !step.JObject? then Failure(StepNotAnObject)
    else
      var tool := Lookup(step.fields, "tool").GetOr(JNull);
      var given := Lookup(step.fields, "args").GetOr(JObject([]));
      var args := if Truthy(given) then given else JObject([]);
      if !Truthy(tool) then Failure(MissingTool(idx))
      else if !args.JObject? then Failure(ArgsNotAnObject)
      else Success(StepSpec(tool, args.fields))
  }

  /** The arguments of one step resolved in order; the first failure wins. */
  function ResolveArgs(args: Args, variables: map<string, Json>, idx: nat): (r: Result<Args, ResolveError>)
    ensures r.Failure? ==> r.error.step == idx
    decreases |args|
  {
    if args == [] then Success([])
    else match ResolveValue(args[0].1, variables, idx, args[0].0)
      case Failure(e) => Failure(e)
      case Success(v) =>
        match ResolveArgs(args[1..], variables, idx)
        case Failure(e) => Failure(e)
        case Success(rest) => Success([(args[0].0, v)] + rest)
  }

  /** When every argument resolves, the resolved arguments are the same keys,
      in the same order, each with its resolved value. */
  lemma {:induction false} ResolveArgsSucceeds(args: Args, variables: map<string, Json>, idx: nat)
    requires forall m :: 0 <= m < |args| ==> ResolveValue(args[m].1, variables, idx, args[m].0).Success?
    ensures ResolveArgs(args, variables, idx).Success?
    ensures var out := ResolveArgs(args, variables, idx).value;
      |out| == |args| && forall m :: 0 <= m < |args| ==>
        out[m] == (args[m].0, ResolveValue(args[m].1, variables, idx, args[m].0).value)
    decreases |args|
  {
    if args != [] {
      ResolveArgsSucceeds(args[1..], variables, idx);
      var out := ResolveArgs(args, variables, idx).value;
      forall m | 1 <= m < |args| ensures out[m] == (args[m].0, ResolveValue(args[m].1, variables, idx, args[m].0).value) {
        assert args[1..][m - 1] == args[m];
      }
    }
  }

  /** When argument `j` is the first that fails, the step fails with its error. */
  lemma {:induction false} ResolveArgsFirstFailure(args: Args, variables: map<string, Json>, idx: nat, j: nat)
    requires j < |args|
    requires forall m :: 0 <= m < j ==> ResolveValue(args[m].1, variables, idx, args[m].0).Success?
    requires ResolveValue(args[j].1, variables, idx, args[j].0).Failure?
    ensures ResolveArgs(args, variables, idx) == Failure(ResolveValue(args[j].1, variables, idx, args[j].0).error)
    decreases j
  {
    if j > 0 {
      forall m | 0 <= m < j - 1 ensures ResolveValue(args[1..][m].1, variables, idx, args[1..][m].0).Success? {
        assert args[1..][m] == args[m + 1];
      }
      ResolveArgsFirstFailure(args[1..], variables, idx, j - 1);
    }
  }

  /** `for key, value in args.items(): resolved_args[key] = resolve_value(...)`. */
  method ResolveArgsInOrder(args: Args, variables: map<string, Json>, idx: nat) returns (r: Result<Args, ResolveError>)
    ensures r == ResolveArgs(args, variables, idx)
  {
    var resolved: Args := [];
    var j := 0;
    while j < |args|
      invariant 0 <= j <= |args| && |resolved| == j
      invariant forall m :: 0 <= m < j ==> ResolveValue(args[m].1, variables, idx, args[m].0).Success?
      invariant forall m :: 0 <= m < j ==> resolved[m] == (args[m].0, ResolveValue(args[m].1, variables, idx, args[m].0).value)
    {
      var (key, value) := args[j];
      var v := ResolveValue(value, variables, idx, key);
      if v.Failure? {
        ResolveArgsFirstFailure(args, variables, idx, j);
        return Failure(v.error);
      }
      resolved := resolved + [(key, v.value)];
      j := j + 1;
    }
    ResolveArgsSucceeds(args, variables, idx);
    assert resolved == ResolveArgs(args, variables, idx).value;
    r := Success(resolved);
  }

  /** The save name of every step of a plan, in order. */
  function SaveNames(steps: seq<Json>): (names: seq<Option<string>>)
    ensures |names| == |steps|
  {
    seq(|steps|, k requires 0 <= k < |steps| => SaveName(steps[k]))
  }

  /** The variables after the recorded steps, where step `k` saves under
      `names[k]`: each step with a save name binds its normalised result,
      later bindings overwriting earlier ones. */
  function Store(names: seq<Option<string>>, trace: seq<StepRecord>): map<string, Json>
    requires |trace| <= |names|
    decreases |trace|
  {
    if trace == [] then map[]
    else
      var n := |trace| - 1;
      var before := Store(names, trace[..n]);
      match names[n]
      case Some(x) => before[x := trace[n].parsed]
      case None => before
  }

  /** Step `k` (0-based) saves under `x`. */
  predicate SavesAt(names: seq<Option<string>>, k: int, x: string) {
    0 <= k < |names| && names[k] == Some(x)
  }

  /** Step `k` is the last of the first `n` steps that saves under `x`. */
  predicate LastSaveAt(names: seq<Option<string>>, n: int, x: string, k: int) {
    k < n && SavesAt(names, k, x) && forall k' :: k < k' < n ==> !SavesAt(names, k', x)
  }

  /** A name is bound exactly when some recorded step saved under it. */
  lemma {:induction false} StoreDomain(names: seq<Option<string>>, trace: seq<StepRecord>, x: string)
    requires |trace| <= |names|
    ensures x in Store(names, trace) <==> exists k :: 0 <= k < |trace| && SavesAt(names, k, x)
    decreases |trace|
  {
    if trace != [] {
      var n := |trace| - 1;
      StoreDomain(names, trace[..n], x);
      if names[n] == Some(x) {
        assert SavesAt(names, n, x);
      }
    }
  }

  /** Last write wins: a bound name holds the result of the last step that
      saved under it. */
  lemma {:induction false} StoreLastWriteWins(names: seq<Option<string>>, trace: seq<StepRecord>, x: string, k: nat)
    requires |trace| <= |names|
    requires LastSaveAt(names, |trace|, x, k)
    ensures x in Store(names, trace) && Store(names, trace)[x] == trace[k].parsed
    decreases |trace|
  {
    var n := |trace| - 1;
    if k < n {
      assert !SavesAt(names, n, x);
      assert LastSaveAt(names, n, x, k);
      StoreLastWriteWins(names, trace[..n], x, k);
      assert trace[..n][k] == trace[k];
    }
  }

  /** The invocations recorded by a trace. */
  function CallsOf(trace: seq<StepRecord>): (r: seq<Call>)
    ensures |r| == |trace|
  {
    seq(|trace|, k requires 0 <= k < |trace| => Call(trace[k].tool, trace[k].args))
  }

  /** Trace entry `k` is step `k + 1` carried out faithfully: the step is
      valid, its arguments were resolved against the variables saved by the
      steps before it (step `j` saving under `names[j]`), the tool was
      invoked with them as call number `|calls0| + k`, and its result was
      normalised. */
  ghost predicate StepRan(steps: seq<Json>, names: seq<Option<string>>, trace: seq<StepRecord>, k: nat, calls0: seq<Call>,
                          respond: (nat, Json, Args) -> Response, parse: string -> Option<Json>)
    requires k < |trace| <= |steps| == |names|
  {
    var rec := trace[k];
    && ReadStep(steps[k], k + 1).Success?
    && rec.step == k + 1
    && rec.tool == ReadStep(steps[k], k + 1).value.tool
    && ResolveArgs(ReadStep(steps[k], k + 1).value.args, Store(names, trace[..k]), k + 1) == Success(rec.args)
    && respond(|calls0| + k, rec.tool, rec.args) == Success(rec.raw)
    && rec.parsed == Normalize(rec.raw, parse)
  }

  /** The state after the first `|trace|` steps ran faithfully. */
  ghost predicate Reached(steps: seq<Json>, names: seq<Option<string>>, variables: map<string, Json>, trace: seq<StepRecord>,
                          calls: seq<Call>, calls0: seq<Call>,
                          respond: (nat, Json, Args) -> Response, parse: string -> Option<Json>)
  {
    && |trace| <= |steps| == |names|
    && (forall k :: 0 <= k < |trace| ==> StepRan(steps, names, trace, k, calls0, respond, parse))
    && variables == Store(names, trace)
    && calls == calls0 + CallsOf(trace)
  }
  /** Why step `|done| + 1` stopped a run whose earlier steps completed as
      `done`, and the calls the run made: a step that cannot be read, or
      whose arguments do not resolve against the variables saved so far,
      fails with that error and invokes nothing; otherwise the tool was
      invoked once and its failure is the error. */
  ghost predicate StoppedAt(steps: seq<Json>, names: seq<Option<string>>, done: seq<StepRecord>, e: PlanError,
                            calls: seq<Call>, calls0: seq<Call>, respond: (nat, Json, Args) -> Response)
    requires |done| < |steps| == |names|
  {
    var i := |done|;
    var before := calls0 + CallsOf(done);
    match ReadStep(steps[i], i + 1)
    case Failure(readError) => e == readError && calls == before
    case Success(st) =>
      match ResolveArgs(st.args, Store(names, done), i + 1)
      case Failure(cause) => e == Unresolved(cause) && calls == before
      case Success(resolved) =>
        && respond(|calls0| + i, st.tool, resolved).Failure?
        && e == ToolFailed(respond(|calls0| + i, st.tool, resolved).error)
        && calls == before + [Call(st.tool, resolved)]
  }


  /** The loop of `execute_plan` from step `i + 1` on. */
  function RunSteps(steps: seq<Json>, i: nat, variables: map<string, Json>, trace: seq<StepRecord>, calls: seq<Call>,
                    respond: (nat, Json, Args) -> Response, parse: string -> Option<Json>): Run
    requires i <= |steps|
    decreases |steps| - i
  {
    if i == |steps| then Run(Success(Execution(variables, trace)), calls, trace)
    else match ReadStep(steps[i], i + 1)
      case Failure(e) => Run(Failure(e), calls, trace)
      case Success(st) =>
        match ResolveArgs(st.args, variables, i + 1)
        case Failure(e) => Run(Failure(Unresolved(e)), calls, trace)
        case Success(resolved) =>
          var made := calls + [Call(st.tool, resolved)];
          match respond(|calls|, st.tool, resolved)
          case Failure(msg) => Run(Failure(ToolFailed(msg)), made, trace)
          case Success(raw) =>
            var parsed := Normalize(raw, parse);
            var name := SaveName(steps[i]);
            var saved := if name.Some? then variables[name.value := parsed] else variables;
            RunSteps(steps, i + 1, saved, trace + [StepRecord(i + 1, st.tool, resolved, raw, parsed)], made, respond, parse)
  }

  /** `execute_plan(client, plan)` as a value, with the invocation log. */
  function Execute(plan: Args, respond: (nat, Json, Args) -> Response, calls0: seq<Call>, parse: string -> Option<Json>): Run {
    match PlanSteps(plan)
    case Failure(e) => Run(Failure(e), calls0, [])
    case Success(steps) => RunSteps(steps, 0, map[], [], calls0, respond, parse)
  }

  /** `execute_plan`: the for loop over the steps. */
  method ExecutePlan(client: McpClient, plan: Args, parse: string -> Option<Json>) returns (r: Result<Execution, PlanError>)
    modifies client
    ensures var run := Execute(plan, client.respond, old(client.calls), parse);
      r == run.result && client.calls == run.calls
  {
    var variables: map<string, Json> := map[];
    var rawResults: seq<StepRecord> := [];
    var planSteps := PlanSteps(plan);
    if planSteps.Failure? {
      return Failure(planSteps.error);
    }
    var steps := planSteps.value;
    var i := 0;
    while i < |steps|
      invariant 0 <= i <= |steps|
      invariant RunSteps(steps, i, variables, rawResults, client.calls, client.respond, parse)
                == Execute(plan, client.respond, old(client.calls), parse)
    {
      var idx := i + 1;
      var step := ReadStep(steps[i], idx);
      if step.Failure? {
        return Failure(step.error);
      }
      var tool, args, saveAs := step.value.tool, step.value.args, SaveName(steps[i]);
      var resolved := ResolveArgsInOrder(args, variables, idx);
      if resolved.Failure? {
        return Failure(Unresolved(resolved.error));
      }
      var result := client.CallTool(tool, resolved.value);
      if result.Failure? {
        return Failure(ToolFailed(result.error));
      }
      var unwrapped := UnwrapMcpResult(result.value, parse);
      rawResults := rawResults + [StepRecord(idx, tool, resolved.value, result.value, unwrapped)];
      if saveAs.Some? {
        variables := variables[saveAs.value := unwrapped];
      }
      i := i + 1;
    }
    r := Success(Execution(variables, rawResults));
  }

  /** Whether an entry ran faithfully depends only on the trace up to it,
      so extending the trace keeps its entries faithful. */
  lemma EntriesExtend(steps: seq<Json>, names: seq<Option<string>>, trace: seq<StepRecord>, next: seq<StepRecord>,
                      calls0: seq<Call>, respond: (nat, Json, Args) -> Response, parse: string -> Option<Json>)
    requires |trace| <= |next| <= |steps| == |names| && next[..|trace|] == trace
    requires forall k :: 0 <= k < |trace| ==> StepRan(steps, names, trace, k, calls0, respond, parse)
    ensures forall k :: 0 <= k < |trace| ==> StepRan(steps, names, next, k, calls0, respond, parse)
  {
    forall k | 0 <= k < |trace| ensures StepRan(steps, names, next, k, calls0, respond, parse) {
      assert StepRan(steps, names, trace, k, calls0, respond, parse);
      Seqs.PrefixAgrees(trace, next, k);
    }
  }

  /** Recording one more entry keeps the earlier entries faithful. */
  lemma NextEntries(steps: seq<Json>, names: seq<Option<string>>, trace: seq<StepRecord>, rec: StepRecord,
                    calls0: seq<Call>, respond: (nat, Json, Args) -> Response, parse: string -> Option<Json>)
    requires |trace| < |steps| == |names|
    requires forall k :: 0 <= k < |trace| ==> StepRan(steps, names, trace, k, calls0, respond, parse)
    requires StepRan(steps, names, trace + [rec], |trace|, calls0, respond, parse)
    ensures forall k :: 0 <= k < |trace + [rec]| ==> StepRan(steps, names, trace + [rec], k, calls0, respond, parse)
  {
    Seqs.PrefixOfSnoc(trace, rec);
    EntriesExtend(steps, names, trace, trace + [rec], calls0, respond, parse);
  }

  /** The entry recorded for the next step is faithful when that step was
      read, resolved against the saved variables and answered. */
  lemma StepRanLast(steps: seq<Json>, names: seq<Option<string>>, variables: map<string, Json>, trace: seq<StepRecord>,
                    calls: seq<Call>, calls0: seq<Call>,
                    respond: (nat, Json, Args) -> Response, parse: string -> Option<Json>,
                    st: StepSpec, resolved: Args, raw: RawResult)
    requires |trace| < |steps| == |names| && ReadStep(steps[|trace|], |trace| + 1) == Success(st)
    requires variables == Store(names, trace) && calls == calls0 + CallsOf(trace)
    requires ResolveArgs(st.args, variables, |trace| + 1) == Success(resolved)
    requires respond(|calls|, st.tool, resolved) == Success(raw)
    ensures var i := |trace|;
      StepRan(steps, names, trace + [StepRecord(i + 1, st.tool, resolved, raw, Normalize(raw, parse))], i, calls0, respond, parse)
  {
    var rec := StepRecord(|trace| + 1, st.tool, resolved, raw, Normalize(raw, parse));
    Seqs.PrefixOfSnoc(trace, rec);
    RespondAt(respond, |calls|, |calls0| + |trace|, st.tool, resolved, Success(raw));
  }

  /** The remote answer to a call depends on the call count only through
      its value. The proofs count calls in two ways, as the length of the
      log and as the log's start plus the completed steps, and this lemma
      lets them move between the two without the solver searching for it. */
  lemma RespondAt(respond: (nat, Json, Args) -> Response, n: nat, m: nat, tool: Json, args: Args, out: Response)
    requires n == m && respond(n, tool, args) == out
    ensures respond(m, tool, args) == out
  {
  }

  /** Recording one more entry binds it under its step's name, if any. */
  lemma StoreSnoc(names: seq<Option<string>>, trace: seq<StepRecord>, rec: StepRecord)
    requires |trace| < |names|
    ensures var before := Store(names, trace);
      Store(names, trace + [rec]) ==
        if names[|trace|].Some? then before[names[|trace|].value := rec.parsed] else before
  {
    var next := trace + [rec];
    Seqs.PrefixOfSnoc(trace, rec);
    assert next[..|next| - 1] == trace && next[|next| - 1] == rec;
  }

  /** The call log of a trace grows by the call of its new entry. */
  lemma CallsOfNext(trace: seq<StepRecord>, rec: StepRecord)
    ensures CallsOf(trace + [rec]) == CallsOf(trace) + [Call(rec.tool, rec.args)]
  {
  }

  /** One faithful step more keeps the run faithful. */
  lemma ReachedNext(steps: seq<Json>, names: seq<Option<string>>, variables: map<string, Json>, trace: seq<StepRecord>,
                    calls: seq<Call>, calls0: seq<Call>,
                    respond: (nat, Json, Args) -> Response, parse: string -> Option<Json>,
                    st: StepSpec, resolved: Args, raw: RawResult)
    requires Reached(steps, names, variables, trace, calls, calls0, respond, parse) && |trace| < |steps|
    requires names[|trace|] == SaveName(steps[|trace|])
    requires ReadStep(steps[|trace|], |trace| + 1) == Success(st)
    requires ResolveArgs(st.args, variables, |trace| + 1) == Success(resolved)
    requires respond(|calls|, st.tool, resolved) == Success(raw)
    ensures var i := |trace|;
      var parsed := Normalize(raw, parse);
      var name := SaveName(steps[i]);
      var saved := if name.Some? then variables[name.value := parsed] else variables;
      Reached(steps, names, saved, trace + [StepRecord(i + 1, st.tool, resolved, raw, parsed)],
              calls + [Call(st.tool, resolved)], calls0, respond, parse)
  {
    var rec := StepRecord(|trace| + 1, st.tool, resolved, raw, Normalize(raw, parse));
    StepRanLast(steps, names, variables, trace, calls, calls0, respond, parse, st, resolved, raw);
    NextEntries(steps, names, trace, rec, calls0, respond, parse);
    StoreSnoc(names, trace, rec);
    CallsOfNext(trace, rec);
    Seqs.AppendAssoc(calls0, CallsOf(trace), [Call(st.tool, resolved)]);
  }

  /** A step that cannot be read stops the run before its tool is invoked. */
  lemma StopsOnRead(steps: seq<Json>, names: seq<Option<string>>, trace: seq<StepRecord>, calls: seq<Call>, calls0: seq<Call>,
                    respond: (nat, Json, Args) -> Response, e: PlanError)
    requires |trace| < |steps| == |names| && calls == calls0 + CallsOf(trace)
    requires ReadStep(steps[|trace|], |trace| + 1) == Failure(e)
    ensures StoppedAt(steps, names, trace, e, calls, calls0, respond)
  {
  }

  /** An argument that does not resolve stops the run before the tool is invoked. */
  lemma StopsOnResolve(steps: seq<Json>, names: seq<Option<string>>, variables: map<string, Json>, trace: seq<StepRecord>,
                       calls: seq<Call>, calls0: seq<Call>, respond: (nat, Json, Args) -> Response,
                       st: StepSpec, cause: ResolveError)
    requires |trace| < |steps| == |names| && ReadStep(steps[|trace|], |trace| + 1) == Success(st)
    requires variables == Store(names, trace) && calls == calls0 + CallsOf(trace)
    requires ResolveArgs(st.args, variables, |trace| + 1) == Failure(cause)
    ensures StoppedAt(steps, names, trace, Unresolved(cause), calls, calls0, respond)
  {
  }

  /** A failing tool stops the run after its one invocation. */
  lemma StopsOnTool(steps: seq<Json>, names: seq<Option<string>>, variables: map<string, Json>, trace: seq<StepRecord>,
                    calls: seq<Call>, calls0: seq<Call>, respond: (nat, Json, Args) -> Response,
                    st: StepSpec, resolved: Args, msg: string)
    requires |trace| < |steps| == |names| && ReadStep(steps[|trace|], |trace| + 1) == Success(st)
    requires variables == Store(names, trace) && calls == calls0 + CallsOf(trace)
    requires ResolveArgs(st.args, variables, |trace| + 1) == Success(resolved)
    requires respond(|calls|, st.tool, resolved) == Failure(msg)
    ensures StoppedAt(steps, names, trace, ToolFailed(msg), calls + [Call(st.tool, resolved)], calls0, respond)
  {
    RespondAt(respond, |calls|, |calls0| + |trace|, st.tool, resolved, Failure(msg));
  }

  /** What a stop means for the log and the error: the earlier calls are
      kept, one call was made per completed step plus one only when the tool
      failed, and an error that names a step names the stopping one. */
  lemma StoppedAtCalls(steps: seq<Json>, names: seq<Option<string>>, done: seq<StepRecord>, e: PlanError,
                       calls: seq<Call>, calls0: seq<Call>, respond: (nat, Json, Args) -> Response)
    requires |done| < |steps| == |names| && StoppedAt(steps, names, done, e, calls, calls0, respond)
    ensures e != StepsNotAList
    ensures |calls0| <= |calls| && calls[..|calls0|] == calls0
    ensures |calls| == |calls0| + |done| + (if e.ToolFailed? then 1 else 0)
    ensures e.MissingTool? ==> e.step == |done| + 1
    ensures e.Unresolved? ==> e.cause.step == |done| + 1
  {
    var i := |done|;
    var before := calls0 + CallsOf(done);
    assert before[..|calls0|] == calls0;
    match ReadStep(steps[i], i + 1)
    case Failure(_) =>
    case Success(st) =>
      match ResolveArgs(st.args, Store(names, done), i + 1)
      case Failure(_) =>
      case Success(resolved) =>
        assert (before + [Call(st.tool, resolved)])[..|calls0|] == calls0;
  }

  /** What a run from a faithful state ends in: on success every step ran
      faithfully; on failure the steps completed before the stop ran
      faithfully, and the stopping step failed as `StoppedAt` says. */
  lemma {:induction false} RunStepsOutcome(steps: seq<Json>, names: seq<Option<string>>, i: nat, variables: map<string, Json>,
                                           trace: seq<StepRecord>, calls: seq<Call>, calls0: seq<Call>,
                                           respond: (nat, Json, Args) -> Response, parse: string -> Option<Json>)
    requires names == SaveNames(steps)
    requires i == |trace| && Reached(steps, names, variables, trace, calls, calls0, respond, parse)
    ensures var run := RunSteps(steps, i, variables, trace, calls, respond, parse);
      && (run.result.Success? ==>
            |run.result.value.steps| == |steps|
            && Reached(steps, names, run.result.value.variables, run.result.value.steps, run.calls, calls0, respond, parse))
      && (run.result.Failure? ==>
            && i <= |run.done| < |steps|
            && (forall k :: 0 <= k < |run.done| ==> StepRan(steps, names, run.done, k, calls0, respond, parse))
            && StoppedAt(steps, names, run.done, run.result.error, run.calls, calls0, respond))
    decreases |steps| - i
  {
    if i < |steps| {
      match ReadStep(steps[i], i + 1)
      case Failure(e) =>
        StopsOnRead(steps, names, trace, calls, calls0, respond, e);
      case Success(st) =>
        match ResolveArgs(st.args, variables, i + 1)
        case Failure(cause) =>
          StopsOnResolve(steps, names, variables, trace, calls, calls0, respond, st, cause);
        case Success(resolved) =>
          match respond(|calls|, st.tool, resolved)
          case Failure(msg) =>
            StopsOnTool(steps, names, variables, trace, calls, calls0, respond, st, resolved, msg);
          case Success(raw) =>
            ReachedNext(steps, names, variables, trace, calls, calls0, respond, parse, st, resolved, raw);
            var parsed := Normalize(raw, parse);
            var name := SaveName(steps[i]);
            var saved := if name.Some? then variables[name.value := parsed] else variables;
            RunStepsOutcome(steps, names, i + 1, saved, trace + [StepRecord(i + 1, st.tool, resolved, raw, parsed)],
                            calls + [Call(st.tool, resolved)], calls0, respond, parse);
    }
  }

  /** A plan that succeeds has one trace entry per step, entry `k` being
      step `k + 1` carried out against the variables saved by the steps
      before it; the variables are the bindings of all steps (last write
      wins); and the log holds exactly the trace's calls, in plan order. */
  lemma ExecuteSucceeds(plan: Args, respond: (nat, Json, Args) -> Response, calls0: seq<Call>, parse: string -> Option<Json>)
    requires Execute(plan, respond, calls0, parse).result.Success?
    ensures PlanSteps(plan).Success?
    ensures var steps := PlanSteps(plan).value;
      var run := Execute(plan, respond, calls0, parse);
      var trace := run.result.value.steps;
      && |trace| == |steps|
      && (forall k :: 0 <= k < |steps| ==> StepRan(steps, SaveNames(steps), trace, k, calls0, respond, parse))
      && run.result.value.variables == Store(SaveNames(steps), trace)
      && run.calls == calls0 + CallsOf(trace)
  {
    var steps := PlanSteps(plan).value;
    RunStepsOutcome(steps, SaveNames(steps), 0, map[], [], calls0, calls0, respond, parse);
  }

  /** A plan that fails: a 'steps' that is not a list fails before any call.
      Otherwise the run stops at a step `s` of the plan: the steps before
      `s` ran faithfully, each invoking its tool once; step `s` failed for
      the reason `StoppedAt` gives, invoking its tool only when the tool
      itself failed; and an error that names a step names `s`. */
  lemma ExecuteFails(plan: Args, respond: (nat, Json, Args) -> Response, calls0: seq<Call>, parse: string -> Option<Json>)
    requires Execute(plan, respond, calls0, parse).result.Failure?
    ensures var run := Execute(plan, respond, calls0, parse);
      var e := run.result.error;
      && (PlanSteps(plan).Failure? ==> e == StepsNotAList && run.calls == calls0 && run.done == [])
      && (PlanSteps(plan).Success? ==>
            var steps := PlanSteps(plan).value;
            var s := |run.done| + 1;
            && s <= |steps|
            && (forall k :: 0 <= k < s - 1 ==> StepRan(steps, SaveNames(steps), run.done, k, calls0, respond, parse))
            && StoppedAt(steps, SaveNames(steps), run.done, e, run.calls, calls0, respond)
            && e != StepsNotAList
            && |calls0| <= |run.calls| && run.calls[..|calls0|] == calls0
            && |run.calls| == |calls0| + (s - 1) + (if e.ToolFailed? then 1 else 0)
            && (e.MissingTool? ==> e.step == s)
            && (e.Unresolved? ==> e.cause.step == s))
  {
    if PlanSteps(plan).Success? {
      var steps := PlanSteps(plan).value;
      var run := Execute(plan, respond, calls0, parse);
      RunStepsOutcome(steps, SaveNames(steps), 0, map[], [], calls0, calls0, respond, parse);
      StoppedAtCalls(steps, SaveNames(steps), run.done, run.result.error, run.calls, calls0, respond);
    }
  }

  /** The variables a successful plan returns: a name is bound exactly when
      some step saved under it, and it holds the normalised result of the
      LAST such step. */
  lemma ExecuteBindings(plan: Args, respond: (nat, Json, Args) -> Response, calls0: seq<Call>, parse: string -> Option<Json>,
                        x: string)
    requires Execute(plan, respond, calls0, parse).result.Success?
    ensures PlanSteps(plan).Success?
    ensures var steps := PlanSteps(plan).value;
      var ex := Execute(plan, respond, calls0, parse).result.value;
      && |ex.steps| == |steps|
      && (x in ex.variables <==> exists k :: 0 <= k < |steps| && SavesAt(SaveNames(steps), k, x))
      && forall k :: LastSaveAt(SaveNames(steps), |steps|, x, k) ==> x in ex.variables && ex.variables[x] == ex.steps[k].parsed
  {
    assert PlanSteps(plan).Success? by {
      ExecuteSucceeds(plan, respond, calls0, parse);
    }
    var steps := PlanSteps(plan).value;
    var ex := Execute(plan, respond, calls0, parse).result.value;
    assert |ex.steps| == |steps| && ex.variables == Store(SaveNames(steps), ex.steps) by {
      ExecuteSucceeds(plan, respond, calls0, parse);
    }
    StoreDomain(SaveNames(steps), ex.steps, x);
    forall k | LastSaveAt(SaveNames(steps), |steps|, x, k) ensures x in ex.variables && ex.variables[x] == ex.steps[k].parsed {
      StoreLastWriteWins(SaveNames(steps), ex.steps, x, k);
    }
  }

  /** A plan without a "steps" key is an empty plan: no variables, an empty
      trace, and no invocation. */
  lemma MissingStepsIsEmptyPlan(plan: Args, respond: (nat, Json, Args) -> Response, calls0: seq<Call>, parse: string -> Option<Json>)
    requires "steps" !in Keys(plan)
    ensures Execute(plan, respond, calls0, parse) == Run(Success(Execution(map[], [])), calls0, [])
  {
  }

  /** A step with a truthy tool and a missing or null `args` runs with no
      arguments. */
  lemma MissingArgsAreEmpty(fields: Args, idx: nat)
    requires "tool" in Keys(fields) && Truthy(Lookup(fields, "tool").value)
    requires "args" !in Keys(fields) || Lookup(fields, "args") == Some(JNull)
    ensures ReadStep(JObject(fields), idx) == Success(StepSpec(Lookup(fields, "tool").value, []))
  {
  }

  /** A blank `save_as` binds nothing. */
  lemma BlankSaveAsBindsNothing()
    ensures SaveName(JObject([("save_as", JString("  "))])) == None
  {
    var fields := [("save_as", JString("  "))];
    assert Lookup(fields, "save_as") == Some(JString("  "));
    assert IsSpace("  "[0]) && IsSpace("  "[1]);
    assert IsBlank("  ");
  }

  /** A reference to a variable no earlier step saved stops the plan at the
      step that uses it: here step 2 reads `$missing` after step 1 saved
      nothing, so the plan fails with step 2's `KeyError` after exactly
      step 1's call. */
  lemma UnsavedVariableStopsStep(respond: (nat, Json, Args) -> Response, calls0: seq<Call>, parse: string -> Option<Json>)
    requires respond(|calls0|, JString("list"), []).Success?
    ensures var first := JObject([("tool", JString("list"))]);
      var second := JObject([("tool", JString("get")), ("args", JObject([("id", JString("$missing"))]))]);
      var run := Execute([("steps", JArray([first, second]))], respond, calls0, parse);
      && run.result == Failure(Unresolved(VariableNotFound(2, "missing", "id")))
      && run.calls == calls0 + [Call(JString("list"), [])]
      && |run.done| == 1
  {
    var first := JObject([("tool", JString("list"))]);
    var second := JObject([("tool", JString("get")), ("args", JObject([("id", JString("$missing"))]))]);
    var plan := [("steps", JArray([first, second]))];
    assert plan[0].0 in Keys(plan);
    assert PlanSteps(plan) == Success([first, second]);
    var raw := respond(|calls0|, JString("list"), []).value;
    var trace := [StepRecord(1, JString("list"), [], raw, Normalize(raw, parse))];
    ListStepRuns([first, second], respond, calls0, parse);
    GetMissingStops([first, second], trace, calls0 + [Call(JString("list"), [])], respond, parse);
  }

  /** Step 1 of that plan calls `list` with no arguments and saves nothing. */
  lemma ListStepRuns(steps: seq<Json>, respond: (nat, Json, Args) -> Response, calls0: seq<Call>, parse: string -> Option<Json>)
    requires |steps| == 2 && steps[0] == JObject([("tool", JString("list"))])
    requires respond(|calls0|, JString("list"), []).Success?
    ensures var raw := respond(|calls0|, JString("list"), []).value;
      RunSteps(steps, 0, map[], [], calls0, respond, parse) ==
        RunSteps(steps, 1, map[], [StepRecord(1, JString("list"), [], raw, Normalize(raw, parse))],
                 calls0 + [Call(JString("list"), [])], respond, parse)
  {
    assert steps[0].fields[0].0 in Keys(steps[0].fields);
    assert ReadStep(steps[0], 1) == Success(StepSpec(JString("list"), []));
    assert SaveName(steps[0]) == None;
    var raw := respond(|calls0|, JString("list"), []).value;
    var rec := StepRecord(1, JString("list"), [], raw, Normalize(raw, parse));
    RunStepsCalls(steps, 0, map[], [], calls0, respond, parse, StepSpec(JString("list"), []), [], raw);
    assert [] + [rec] == [rec];
  }

  /** One completed step of `RunSteps`: read, resolved, called and recorded. */
  lemma RunStepsCalls(steps: seq<Json>, i: nat, variables: map<string, Json>, trace: seq<StepRecord>, calls: seq<Call>,
                      respond: (nat, Json, Args) -> Response, parse: string -> Option<Json>,
                      st: StepSpec, resolved: Args, raw: RawResult)
    requires i < |steps|
    requires ReadStep(steps[i], i + 1) == Success(st)
    requires ResolveArgs(st.args, variables, i + 1) == Success(resolved)
    requires respond(|calls|, st.tool, resolved) == Success(raw)
    ensures var name := SaveName(steps[i]);
      RunSteps(steps, i, variables, trace, calls, respond, parse) ==
        RunSteps(steps, i + 1, if name.Some? then variables[name.value := Normalize(raw, parse)] else variables,
                 trace + [StepRecord(i + 1, st.tool, resolved, raw, Normalize(raw, parse))],
                 calls + [Call(st.tool, resolved)], respond, parse)
  {
  }

  /** Step 2 of that plan reads `$missing` from variables that do not hold it. */
  lemma GetMissingStops(steps: seq<Json>, trace: seq<StepRecord>, calls: seq<Call>,
                        respond: (nat, Json, Args) -> Response, parse: string -> Option<Json>)
    requires |steps| == 2 && steps[1] == JObject([("tool", JString("get")), ("args", JObject([("id", JString("$missing"))]))])
    ensures RunSteps(steps, 1, map[], trace, calls, respond, parse) ==
      Run(Failure(Unresolved(VariableNotFound(2, "missing", "id"))), calls, trace)
  {
    var second := steps[1];
    assert second.fields[0].0 in Keys(second.fields) && second.fields[1].0 in Keys(second.fields);
    assert ReadStep(second, 2) == Success(StepSpec(JString("get"), [("id", JString("$missing"))]));
    assert "$missing" == "$" + "missing";
    PlainReference("missing", map[], 2, "id");
    assert ResolveArgs([("id", JString("$missing"))], map[], 2) == Failure(VariableNotFound(2, "missing", "id"));
  }
}
