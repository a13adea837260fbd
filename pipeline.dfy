/** `execute_handler_pipeline` (src/main.rs:253-372): read the request body,
    build the `request` and `response` tables, load the handler script, run
    `middleware`, decide on the status, run `handler`, run `response_hook`,
    and finalise the response. */
module Pipeline {
  import opened Wrappers
  import Utf8
  import Http
  import opened Lua
  import opened Marshal
  import opened Finalize

  datatype StageName = Middleware | Handler | ResponseHook

  /** One call into a stage: which stage, and the request view and the
      response state it was handed. */
  datatype Call = Call(stage: StageName, request: RequestView, state: ResponseFields)

  /** What one run of the pipeline does: its outcome, and the calls it made
      into the handler module, in order. */
  datatype Run = Run(outcome: Result<Http.Response, Error>, calls: seq<Call>)

  /** One optional stage: the state it leaves, the calls made, its error. */
  datatype Step = Step(state: ResponseFields, calls: seq<Call>, error: Option<string>)

  /** Calling an optional stage; an absent stage changes nothing. */
  function Invoke(name: StageName, stage: Option<Stage>, view: RequestView, state: ResponseFields): Step {
    match stage
    case None => Step(state, [], None)
    case Some(f) =>
      var r := f(view, state);
      Step(r.state, [Call(name, view, state)], r.error)
  }

  /** DECIDE (src/main.rs:316-318): the handler runs when the status reads as
      200, and an unreadable status reads as 200. */
  predicate ProceedsToHandler(state: ResponseFields) {
    ReadStatus(state.status).GetOr(200) == 200
  }

  /** The three stages and the finaliser, on a loaded handler module. */
  function RunStages(m: HandlerModule, view: RequestView, valid: Http.HeaderValidity): Run {
    var before := Invoke(Middleware, m.middleware, view, FreshResponse());
    // a middleware error is only logged: `before.error` is not consulted
    var main :=
      if ProceedsToHandler(before.state) then Invoke(Handler, m.handler, view, before.state)
      else Step(before.state, [], None);
    if main.error.Some? then
      Run(Failure(HandlerFailed(main.error.value)), before.calls + main.calls)
    else
      var after := Invoke(ResponseHook, m.responseHook, view, main.state);
      // a response hook error is only logged as well
      Run(Finalized(after.state, valid), before.calls + main.calls + after.calls)
  }

  /** The whole pipeline for a request routed to `scriptPath`, whose script
      reads and evaluates as `load`. */
  function RunPipeline(req: Http.Request, scriptPath: string, load: ScriptLoad, valid: Http.HeaderValidity): Run {
    match req.body
    case ReadFailed(d) => Run(Failure(BodyReadFailed(d)), [])
    case Received(bytes) =>
      match load
      case Unreadable(d) => Run(Failure(ScriptReadFailed(scriptPath, d)), [])
      case NotATable(d) => Run(Failure(ScriptNotATable(d)), [])
      case Module(m) => RunStages(m, RequestViewOf(req, bytes), valid)
  }

  /** The pipeline as the source runs it: one fresh `response` table, mutated
      in place by each stage that is called. `calls` records the calls into
      the handler module. */
  method ExecuteHandlerPipeline(req: Http.Request, scriptPath: string, load: ScriptLoad, valid: Http.HeaderValidity)
    returns (result: Result<Http.Response, Error>, calls: seq<Call>)
    ensures Run(result, calls) == RunPipeline(req, scriptPath, load, valid)
  {
    calls := [];
    // 1. prepare the data tables
    if req.body.ReadFailed? {
      return Failure(BodyReadFailed(req.body.detail)), calls;
    }
    var view := BuildRequestView(req, req.body.bytes);
    var res := new ResponseTable();
    // 2. load the route script
    if load.Unreadable? {
      return Failure(ScriptReadFailed(scriptPath, load.detail)), calls;
    }
    if load.NotATable? {
      return Failure(ScriptNotATable(load.detail)), calls;
    }
    var m := load.handlers;
    // 3.A middleware: an error is logged and the run goes on
    if m.middleware.Some? {
      calls := calls + [Call(Middleware, view, res.Fields())];
      var ignored := res.Call(m.middleware.value, view);
    }
    // 3.B handler, unless the middleware intercepted the request
    var currentStatus := ReadStatus(res.status).GetOr(200);
    if currentStatus == 200 {
      if m.handler.Some? {
        calls := calls + [Call(Handler, view, res.Fields())];
        var error := res.Call(m.handler.value, view);
        if error.Some? {
          return Failure(HandlerFailed(error.value)), calls;
        }
      }
    }
    // 3.C response hook: an error is logged and the run goes on
    if m.responseHook.Some? {
      calls := calls + [Call(ResponseHook, view, res.Fields())];
      var ignored := res.Call(m.responseHook.value, view);
    }
    // 4. finalise
    result := FinalizeResponse(res, valid);
  }

  /** The state DECIDE reads: whatever the middleware left, error or not. */
  function AfterMiddleware(m: HandlerModule, view: RequestView): ResponseFields {
    Invoke(Middleware, m.middleware, view, FreshResponse()).state
  }

  predicate Called(calls: seq<Call>, name: StageName) {
    exists i :: 0 <= i < |calls| && calls[i].stage == name
  }

  function Rank(name: StageName): nat {
    match name
    case Middleware => 0
    case Handler => 1
    case ResponseHook => 2
  }

  /** Nothing runs before the script is loaded: a body that cannot be read,
      a script that cannot be read and a script that is not a table are
      fatal, and no stage is called. */
  lemma LoadFailuresAreFatal(req: Http.Request, scriptPath: string, load: ScriptLoad, valid: Http.HeaderValidity)
    ensures req.body.ReadFailed? ==>
              RunPipeline(req, scriptPath, load, valid) == Run(Failure(BodyReadFailed(req.body.detail)), [])
    ensures req.body.Received? && load.Unreadable? ==>
              RunPipeline(req, scriptPath, load, valid) == Run(Failure(ScriptReadFailed(scriptPath, load.detail)), [])
    ensures req.body.Received? && load.NotATable? ==>
              RunPipeline(req, scriptPath, load, valid) == Run(Failure(ScriptNotATable(load.detail)), [])
  {
  }

  /** The stages are called in pipeline order, each at most once. */
  lemma CallsInOrderAtMostOnce(req: Http.Request, scriptPath: string, load: ScriptLoad, valid: Http.HeaderValidity)
    ensures var calls := RunPipeline(req, scriptPath, load, valid).calls;
            forall i, j :: 0 <= i < j < |calls| ==> Rank(calls[i].stage) < Rank(calls[j].stage)
  {
    if req.body.Received? && load.Module? {
      var m, view := load.handlers, RequestViewOf(req, req.body.bytes);
      var before := Invoke(Middleware, m.middleware, view, FreshResponse());
      var main :=
        if ProceedsToHandler(before.state) then Invoke(Handler, m.handler, view, before.state)
        else Step(before.state, [], None);
      var after := Invoke(ResponseHook, m.responseHook, view, main.state);
      assert forall c :: c in before.calls ==> c.stage == Middleware;
      assert forall c :: c in main.calls ==> c.stage == Handler;
      assert forall c :: c in after.calls ==> c.stage == ResponseHook;
      assert |before.calls| <= 1 && |main.calls| <= 1 && |after.calls| <= 1;
    }
  }

  /** Every call is handed the request view of this request, and the first
      call is handed a fresh response state: status 200, empty body, no
      headers. */
  lemma CallsSeeFreshState(req: Http.Request, scriptPath: string, load: ScriptLoad, valid: Http.HeaderValidity)
    ensures var calls := RunPipeline(req, scriptPath, load, valid).calls;
            && (calls != [] ==> calls[0].state == FreshResponse())
            && forall i :: 0 <= i < |calls| ==> req.body.Received? && calls[i].request == RequestViewOf(req, req.body.bytes)
  {
  }

  /** A request body that is not UTF-8 is handled exactly as an empty body. */
  lemma NonUtf8BodyReadsAsEmpty(req: Http.Request, scriptPath: string, load: ScriptLoad, valid: Http.HeaderValidity)
    requires req.body.Received? && Utf8.Decode(req.body.bytes).None?
    ensures RunPipeline(req, scriptPath, load, valid) == RunPipeline(req.(body := Http.Received([])), scriptPath, load, valid)
  {
    assert RequestViewOf(req, req.body.bytes) == RequestViewOf(req.(body := Http.Received([])), []);
  }

  /** Short circuit: the handler is called exactly when the module has one
      and the status the middleware left reads as 200 (or cannot be read). */
  lemma HandlerCalledIff(req: Http.Request, scriptPath: string, m: HandlerModule, valid: Http.HeaderValidity)
    requires req.body.Received?
    ensures Called(RunPipeline(req, scriptPath, Module(m), valid).calls, Handler) <==>
              m.handler.Some? && ProceedsToHandler(AfterMiddleware(m, RequestViewOf(req, req.body.bytes)))
  {
    var view := RequestViewOf(req, req.body.bytes);
    var calls := RunPipeline(req, scriptPath, Module(m), valid).calls;
    var before := Invoke(Middleware, m.middleware, view, FreshResponse());
    assert forall c :: c in before.calls ==> c.stage == Middleware;
    if m.handler.Some? && ProceedsToHandler(before.state) {
      assert calls[|before.calls|].stage == Handler;
    }
  }

  /** A middleware that leaves a readable status other than 200 has answered
      the request: the handler is never called. */
  lemma MiddlewareIntercepts(req: Http.Request, scriptPath: string, m: HandlerModule, valid: Http.HeaderValidity)
    requires req.body.Received? && m.middleware.Some?
    requires var status := m.middleware.value(RequestViewOf(req, req.body.bytes), FreshResponse()).state.status;
             ReadStatus(status).Some? && ReadStatus(status).value != 200
    ensures !Called(RunPipeline(req, scriptPath, Module(m), valid).calls, Handler)
  {
    HandlerCalledIff(req, scriptPath, m, valid);
  }

  /** The error the handler raises, when it is called and raises one. */
  function HandlerError(m: HandlerModule, view: RequestView): Option<string> {
    if m.handler.Some? && ProceedsToHandler(AfterMiddleware(m, view)) then
      m.handler.value(view, AfterMiddleware(m, view)).error
    else None
  }

  /** A handler error is fatal: the run fails with the handler's message,
      the handler's call is the last call, and the response hook is not
      called (src/main.rs:322-323 returns before src/main.rs:341). */
  lemma HandlerErrorIsFatal(req: Http.Request, scriptPath: string, m: HandlerModule, valid: Http.HeaderValidity)
    requires req.body.Received? && HandlerError(m, RequestViewOf(req, req.body.bytes)).Some?
    ensures var run := RunPipeline(req, scriptPath, Module(m), valid);
            && run.outcome == Failure(HandlerFailed(HandlerError(m, RequestViewOf(req, req.body.bytes)).value))
            && run.calls != [] && run.calls[|run.calls| - 1].stage == Handler
            && !Called(run.calls, ResponseHook)
  {
    var view := RequestViewOf(req, req.body.bytes);
    var before := Invoke(Middleware, m.middleware, view, FreshResponse());
    assert forall c :: c in before.calls ==> c.stage == Middleware;
  }

  /** The response hook is called exactly when the module has one and the
      run did not stop at a handler error, whether the handler ran, was
      absent or was skipped, and whether the middleware failed or not. */
  lemma ResponseHookCalledIff(req: Http.Request, scriptPath: string, m: HandlerModule, valid: Http.HeaderValidity)
    requires req.body.Received?
    ensures Called(RunPipeline(req, scriptPath, Module(m), valid).calls, ResponseHook) <==>
              m.responseHook.Some? && HandlerError(m, RequestViewOf(req, req.body.bytes)).None?
  {
    var view := RequestViewOf(req, req.body.bytes);
    var run := RunPipeline(req, scriptPath, Module(m), valid);
    var before := Invoke(Middleware, m.middleware, view, FreshResponse());
    var main :=
      if ProceedsToHandler(before.state) then Invoke(Handler, m.handler, view, before.state)
      else Step(before.state, [], None);
    assert forall c :: c in before.calls ==> c.stage == Middleware;
    assert forall c :: c in main.calls ==> c.stage == Handler;
    if m.responseHook.Some? && main.error.None? {
      assert run.calls[|before.calls| + |main.calls|].stage == ResponseHook;
    }
  }

  /** The stage that follows the middleware is handed the state the
      middleware left, its partial mutations included when it failed: the
      middleware's call, when there is one, comes first, and the call after
      it is to another stage and sees `AfterMiddleware`. */
  lemma MiddlewareMutationsSurvive(req: Http.Request, scriptPath: string, m: HandlerModule, valid: Http.HeaderValidity)
    requires req.body.Received?
    ensures var calls := RunPipeline(req, scriptPath, Module(m), valid).calls;
            var n := if m.middleware.Some? then 1 else 0;
            && n <= |calls| && (n == 1 ==> calls[0].stage == Middleware)
            && (n < |calls| ==> calls[n].stage != Middleware && calls[n].state == AfterMiddleware(m, RequestViewOf(req, req.body.bytes)))
  {
    var view := RequestViewOf(req, req.body.bytes);
    var before := Invoke(Middleware, m.middleware, view, FreshResponse());
    var main :=
      if ProceedsToHandler(before.state) then Invoke(Handler, m.handler, view, before.state)
      else Step(before.state, [], None);
    var after := Invoke(ResponseHook, m.responseHook, view, main.state);
    var calls := RunPipeline(req, scriptPath, Module(m), valid).calls;
    var n := |before.calls|;
    if main.calls != [] {
      assert calls[n] == main.calls[0];
    } else if main.error.None? && after.calls != [] {
      assert calls[n] == after.calls[0];
    }
  }

  /** The same stage with its error taken away, its mutations kept. */
  function WithoutError(f: Stage): Stage {
    (v: RequestView, s: ResponseFields) => StageResult(f(v, s).state, None)
  }

  /** An optional stage with its error taken away; an absent stage stays absent. */
  function Quiet(o: Option<Stage>): Option<Stage> {
    match o
    case None => None
    case Some(f) => Some(WithoutError(f))
  }

  /** Middleware and response hook errors are not fatal: a run whose
      middleware or hook fails is, in everything it does and answers, the
      run in which those stages made the same mutations and did not fail. */
  lemma NonFatalStageErrors(req: Http.Request, scriptPath: string, m: HandlerModule, valid: Http.HeaderValidity)
    ensures var quiet := m.(middleware := Quiet(m.middleware), responseHook := Quiet(m.responseHook));
            RunPipeline(req, scriptPath, Module(m), valid) == RunPipeline(req, scriptPath, Module(quiet), valid)
  {
  }

  /** The stage a call went to. */
  function StageOf(m: HandlerModule, name: StageName): Option<Stage> {
    match name
    case Middleware => m.middleware
    case Handler => m.handler
    case ResponseHook => m.responseHook
  }

  /** The state a call left behind. */
  function LeftBy(m: HandlerModule, c: Call): ResponseFields {
    match StageOf(m, c.stage)
    case Some(f) => f(c.request, c.state).state
    case None => c.state
  }

  /** The calls are handed, in turn, `start` and then the state the call
      before left; `Last` is the state the last of them left. */
  predicate Threaded(m: HandlerModule, calls: seq<Call>, start: ResponseFields) {
    && (calls != [] ==> calls[0].state == start)
    && forall i :: 0 < i < |calls| ==> calls[i].state == LeftBy(m, calls[i - 1])
  }

  function Last(m: HandlerModule, calls: seq<Call>, start: ResponseFields): ResponseFields {
    if calls == [] then start else LeftBy(m, calls[|calls| - 1])
  }

  lemma InvokeThreads(m: HandlerModule, name: StageName, view: RequestView, start: ResponseFields)
    ensures var step := Invoke(name, StageOf(m, name), view, start);
            Threaded(m, step.calls, start) && Last(m, step.calls, start) == step.state
  {
  }

  lemma ThreadedAppend(m: HandlerModule, c1: seq<Call>, c2: seq<Call>, start: ResponseFields)
    requires Threaded(m, c1, start) && Threaded(m, c2, Last(m, c1, start))
    ensures Threaded(m, c1 + c2, start) && Last(m, c1 + c2, start) == Last(m, c2, Last(m, c1, start))
  {
    var c := c1 + c2;
    forall i | 0 < i < |c| ensures c[i].state == LeftBy(m, c[i - 1]) {
      if i < |c1| {
        assert c[i] == c1[i] && c[i - 1] == c1[i - 1];
      } else if i == |c1| {
        assert c[i] == c2[0] && c[i - 1] == c1[|c1| - 1];
      } else {
        assert c[i] == c2[i - |c1|] && c[i - 1] == c2[i - 1 - |c1|];
      }
    }
    if c2 == [] {
      assert c == c1;
    } else {
      assert c[|c| - 1] == c2[|c2| - 1];
    }
  }

  /** One response table is threaded through the stages: the first call is
      handed the fresh state, every later call the state the call before it
      left, and a run that finishes is finalised from the state the last
      call left (the fresh state when no stage was called). */
  lemma StateThreadsThroughCalls(req: Http.Request, scriptPath: string, m: HandlerModule, valid: Http.HeaderValidity)
    requires req.body.Received?
    ensures Threaded(m, RunPipeline(req, scriptPath, Module(m), valid).calls, FreshResponse())
    ensures var run := RunPipeline(req, scriptPath, Module(m), valid);
            !(run.outcome.Failure? && run.outcome.error.HandlerFailed?) ==>
              run.outcome == Finalized(Last(m, run.calls, FreshResponse()), valid)
  {
    var view := RequestViewOf(req, req.body.bytes);
    var before := Invoke(Middleware, m.middleware, view, FreshResponse());
    InvokeThreads(m, Middleware, view, FreshResponse());
    var main :=
      if ProceedsToHandler(before.state) then Invoke(Handler, m.handler, view, before.state)
      else Step(before.state, [], None);
    InvokeThreads(m, Handler, view, before.state);
    ThreadedAppend(m, before.calls, main.calls, FreshResponse());
    var run := RunPipeline(req, scriptPath, Module(m), valid);
    assert run == RunStages(m, view, valid);
    if main.error.None? {
      var after := Invoke(ResponseHook, m.responseHook, view, main.state);
      InvokeThreads(m, ResponseHook, view, main.state);
      ThreadedAppend(m, before.calls + main.calls, after.calls, FreshResponse());
      assert run.calls == before.calls + main.calls + after.calls;
      assert Last(m, run.calls, FreshResponse()) == after.state;
      assert run.outcome == Finalized(after.state, valid);
    } else {
      assert run.calls == before.calls + main.calls;
    }
  }

  /** A handler, alone in its module, that sets the status to 201, the body
      to `text` and adds the header `key: value` yields exactly that native
      response when the header is valid. */
  lemma HandlerSetsResponse(req: Http.Request, scriptPath: string, valid: Http.HeaderValidity, text: string, key: string, value: string)
    requires req.body.Received? && valid(key, value)
    ensures var handler := (v: RequestView, s: ResponseFields) =>
                StageResult(s.(status := Integer(201), body := Text(text),
                               headers := if s.headers.Table? then Table(s.headers.entries + [Pair(key, value)]) else s.headers),
                            None);
            RunPipeline(req, scriptPath, Module(HandlerModule(None, Some(handler), None)), valid).outcome
              == Success(Http.Response(201, [Http.Header(key, value)], Utf8.Encode(text)))
  {
    var entries := [Pair(key, value)];
    assert entries[..|entries| - 1] == [];
    assert [] + [Http.Header(key, value)] == [Http.Header(key, value)];
    assert CollectHeaders(entries, valid) == Success([Http.Header(key, value)]);
  }
}
