/** The body of the request loop in `main` (src/main.rs:103-131): exact
    lookup of the request target in the route table, a fixed 404 on a miss,
    the pipeline on a hit, and a 500 carrying the error text when the
    pipeline fails. */
module Dispatch {
  import opened Wrappers
  import Utf8
  import Http
  import opened Lua
  import opened Pipeline
  import Routes

  /** What the server answers to one request, and the calls into the
      handler module it made on the way. */
  datatype Exchange = Exchange(response: Http.Response, calls: seq<Call>)

  /** One dispatch step. `scripts` gives, for each script path, what reading
      and evaluating that file yields. */
  function DispatchOne(routes: map<string, string>, req: Http.Request, scripts: string -> ScriptLoad, valid: Http.HeaderValidity): Exchange {
    if req.url in routes then RunRoute(req, routes[req.url], scripts, valid)
    else Exchange(Http.NotFound(), [])
  }

  /** A routed request: the pipeline of `scriptPath`, its response or a 500
      carrying its error text. */
  function RunRoute(req: Http.Request, scriptPath: string, scripts: string -> ScriptLoad, valid: Http.HeaderValidity): Exchange {
    var run := RunPipeline(req, scriptPath, scripts(scriptPath), valid);
    match run.outcome
    case Success(response) => Exchange(response, run.calls)
    case Failure(e) => Exchange(Http.ServerError(Message(e)), run.calls)
  }

  /** The loop body as the source runs it. */
  method HandleRequest(router: Routes.Router, req: Http.Request, scripts: string -> ScriptLoad, valid: Http.HeaderValidity)
    returns (response: Http.Response, calls: seq<Call>)
    ensures Exchange(response, calls) == DispatchOne(router.routes, req, scripts, valid)
  {
    var route := req.url;
    if route in router.routes {
      var scriptPath := router.routes[route];
      var result;
      result, calls := ExecuteHandlerPipeline(req, scriptPath, scripts(scriptPath), valid);
      match result {
        case Success(r) =>
          response := r;
        case Failure(e) =>
          response := Http.ServerError(Message(e));
      }
    } else {
      response := Http.NotFound();
      calls := [];
    }
  }

  /** A request together with what reading each script file yields while
      that request is handled: the handler file is read anew for every
      request, so an edit between requests changes the later answers. */
  datatype Arrival = Arrival(request: Http.Request, files: string -> ScriptLoad)

  /** The answer the server gives to one arrival against a route table. */
  function AnswerOf(routes: map<string, string>, valid: Http.HeaderValidity): Arrival -> Http.Response {
    (a: Arrival) => DispatchOne(routes, a.request, a.files, valid).response
  }

  /** The answers to a run of arrivals, each answered on its own. */
  function Answers(answer: Arrival -> Http.Response, arrivals: seq<Arrival>): (rs: seq<Http.Response>)
    ensures |rs| == |arrivals|
    decreases |arrivals|
  {
    if arrivals == [] then []
    else Answers(answer, arrivals[..|arrivals| - 1]) + [answer(arrivals[|arrivals| - 1])]
  }

  /** Every answer is the answer to its own arrival alone: the requests
      before it do not affect it. */
  lemma {:induction false} AnswersAt(answer: Arrival -> Http.Response, arrivals: seq<Arrival>, i: nat)
    requires i < |arrivals|
    ensures Answers(answer, arrivals)[i] == answer(arrivals[i])
    decreases |arrivals|
  {
    var init := arrivals[..|arrivals| - 1];
    if i < |init| {
      AnswersAt(answer, init, i);
      assert init[i] == arrivals[i];
    }
  }

  /** The request loop over a finite run of requests: each request gets a
      fresh response table and its own reading of the script files, and a
      failing request does not affect the ones after it. */
  method Serve(router: Routes.Router, arrivals: seq<Arrival>, valid: Http.HeaderValidity)
    returns (responses: seq<Http.Response>)
    ensures responses == Answers(AnswerOf(router.routes, valid), arrivals)
  {
    responses := [];
    ghost var answer := AnswerOf(router.routes, valid);
    for i := 0 to |arrivals|
      invariant responses == Answers(answer, arrivals[..i])
    {
      var response, calls := HandleRequest(router, arrivals[i].request, arrivals[i].files, valid);
      assert response == answer(arrivals[i]);
      AnswersSnoc(answer, arrivals, i);
      responses := responses + [response];
    }
    assert arrivals[..|arrivals|] == arrivals;
  }

  lemma AnswersSnoc(answer: Arrival -> Http.Response, arrivals: seq<Arrival>, i: nat)
    requires i < |arrivals|
    ensures Answers(answer, arrivals[..i + 1]) == Answers(answer, arrivals[..i]) + [answer(arrivals[i])]
  {
    assert arrivals[..i + 1][..i] == arrivals[..i];
  }

  /** Routing is by exact string: a target that is not a key of the table,
      a trailing-slash or query-string variant of a key included, gets
      status 404 with body `404 Not Found`, and no script runs. */
  lemma UnroutedIsNotFound(routes: map<string, string>, req: Http.Request, scripts: string -> ScriptLoad, valid: Http.HeaderValidity)
    requires req.url !in routes
    ensures DispatchOne(routes, req, scripts, valid).response.status == 404
    ensures Utf8.Decode(DispatchOne(routes, req, scripts, valid).response.body) == Some("404 Not Found")
    ensures DispatchOne(routes, req, scripts, valid).calls == []
  {
    Utf8.DecodeEncode("404 Not Found");
  }

  /** For the table `{"/hello" -> "scripts/hello.lua"}`, the targets
      `/hello/` and `/hello?name=x` are not routed. */
  lemma ExactMatchOnly(req: Http.Request, scripts: string -> ScriptLoad, valid: Http.HeaderValidity)
    requires req.url == "/hello/" || req.url == "/hello?name=x"
    ensures DispatchOne(map["/hello" := "scripts/hello.lua"], req, scripts, valid).response == Http.NotFound()
  {
  }

  /** A target that is a key runs the pipeline of that key's script: the
      calls made are that pipeline's, and its response, or a 500 carrying
      its error text, is the answer. */
  lemma RoutedRunsItsScript(routes: map<string, string>, req: Http.Request, scripts: string -> ScriptLoad, valid: Http.HeaderValidity)
    requires req.url in routes
    ensures var run := RunPipeline(req, routes[req.url], scripts(routes[req.url]), valid);
            && DispatchOne(routes, req, scripts, valid).calls == run.calls
            && (run.outcome.Success? ==> DispatchOne(routes, req, scripts, valid).response == run.outcome.value)
            && (run.outcome.Failure? ==>
                  && DispatchOne(routes, req, scripts, valid).response.status == 500
                  && Utf8.Decode(DispatchOne(routes, req, scripts, valid).response.body) == Some("Server Error: " + Message(run.outcome.error)))
  {
    var run := RunPipeline(req, routes[req.url], scripts(routes[req.url]), valid);
    var d := DispatchOne(routes, req, scripts, valid);
    if run.outcome.Success? {
      assert d == Exchange(run.outcome.value, run.calls);
    } else {
      var text := "Server Error: " + Message(run.outcome.error);
      assert d == Exchange(Http.FromString(text, 500), run.calls);
      Utf8.DecodeEncode(text);
    }
  }

  /** A failing handler makes the answer a 500 whose body is
      `Server Error: ` followed by the handler's error text, and the
      response hook is not called. */
  lemma HandlerErrorAnswers500(routes: map<string, string>, req: Http.Request, scripts: string -> ScriptLoad, valid: Http.HeaderValidity)
    requires req.url in routes && req.body.Received? && scripts(routes[req.url]).Module?
    requires HandlerError(scripts(routes[req.url]).handlers, Marshal.RequestViewOf(req, req.body.bytes)).Some?
    ensures var d := DispatchOne(routes, req, scripts, valid);
            && d.response.status == 500
            && Utf8.Decode(d.response.body) ==
                 Some("Server Error: " + HandlerError(scripts(routes[req.url]).handlers, Marshal.RequestViewOf(req, req.body.bytes)).value)
            && !Called(d.calls, ResponseHook)
  {
    var path := routes[req.url];
    var m := scripts(path).handlers;
    var message := HandlerError(m, Marshal.RequestViewOf(req, req.body.bytes)).value;
    var run := RunPipeline(req, path, Module(m), valid);
    HandlerErrorIsFatal(req, path, m, valid);
    assert Message(run.outcome.error) == message;
    RoutedIsRunRoute(routes, req, scripts, valid);
    assert DispatchOne(routes, req, scripts, valid) == Exchange(Http.ServerError(message), run.calls);
    Utf8.DecodeEncode("Server Error: " + message);
  }

  /** From configuration to request: after a configuration that loads, all
      of whose scripts exist, a request whose target is exactly the path of the last
      `router.add(path, script)` naming it runs `scripts/<script>`. */
  lemma RegisteredPathRunsScript(source: Routes.ConfigSource, present: Routes.ScriptExists, i: nat,
                                 req: Http.Request, scripts: string -> ScriptLoad, valid: Http.HeaderValidity)
    requires source.Readable? && source.script.failure.None?
    requires var calls := source.script.calls;
             && (forall j :: 0 <= j < |calls| && calls[j].AddRoute? ==> present(Routes.ScriptPath(calls[j].script)))
             && i < |calls| && calls[i].AddRoute? && req.url == calls[i].path
             && (forall j :: i < j < |calls| && calls[j].AddRoute? ==> calls[j].path != calls[i].path)
    ensures Routes.LoadedConfig(map[], source, present).result.Success?
    ensures var routes := Routes.LoadedConfig(map[], source, present).routes;
            var script := Routes.ScriptPath(source.script.calls[i].script);
            && req.url in routes && routes[req.url] == script
            && DispatchOne(routes, req, scripts, valid) == RunRoute(req, script, scripts, valid)
  {
    var calls := source.script.calls;
    Routes.RegisterSucceeds(map[], calls, present);
    Routes.RegisterLastWins(map[], calls, present, i);
    var reg := Routes.Register(map[], calls, present);
    var routes := Routes.LoadedConfig(map[], source, present).routes;
    assert routes == reg.routes;
    assert req.url in routes && routes[req.url] == Routes.ScriptPath(calls[i].script);
    RoutedIsRunRoute(routes, req, scripts, valid);
  }

  lemma RoutedIsRunRoute(routes: map<string, string>, req: Http.Request, scripts: string -> ScriptLoad, valid: Http.HeaderValidity)
    requires req.url in routes
    ensures DispatchOne(routes, req, scripts, valid) == RunRoute(req, routes[req.url], scripts, valid)
  {
  }
}
