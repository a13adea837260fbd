# fyre, modelled in Dafny

fyre is a small HTTP server. Its routing and its request handling are written
as Lua scripts on top of a Rust host. This project models the host's core,
`src/main.rs`, and proves properties of that model:

- **Configuration.** `config.lua` calls `router.add(path, script)` once per
  route. Each call registers the route as `scripts/<script>`, or fails when
  that file does not exist. The bind address comes from the first command-line
  argument, then the script's `SERVER_ADDR` global, then `0.0.0.0:8000`
  (module `Routes`).
- **Dispatch.** A request target is looked up in the route table by exact
  string. A miss is answered with a 404. A hit runs the route's script.
  A failing pipeline is answered with a 500 whose body is
  `Server Error: <error>` (module `Dispatch`).
- **The handler pipeline** (`execute_handler_pipeline`, module `Pipeline`).
  The host builds a `request` table and a `response` table
  (module `Marshal`). It evaluates the script, which returns a module table.
  It then runs the three optional stages:
  - `middleware`, whose errors are only logged;
  - `handler`, which runs only when the response status is still 200 after the
    middleware, and whose error is fatal;
  - `response_hook`, whose errors are only logged.
- **The finaliser** (module `Finalize`). It reads the native response back out
  of the `response` table:
  - the status, cast to `u16`;
  - the body, as UTF-8 bytes;
  - every header pair that converts. A pair that does not convert to two strings
    is fatal. A pair the header parser refuses is skipped.

Lua is not interpreted. A stage is a total function from the request table and
the current response state to a new response state and an optional error.
A script is what evaluating it yields: unreadable, not a table, or a module with
some of the three stages. `config.lua` is the sequence of router calls it makes,
the error it raises of its own (if any), and its `SERVER_ADDR`. The filesystem
(`Path::exists`, reading a script) and tiny_http's header validity test
(`Header::from_bytes`) are function parameters. The handler file is read anew
for every request, so each request of a run carries its own reading of the
script files (`Dispatch.Arrival`): an edit between two requests can change the
later answer. The pipeline method returns the
sequence of stage calls it made, with the state each one saw, so "the handler is
called exactly when…" can be stated.

The state the source changes in place is imperative Dafny:

- the route table is the class `Routes.Router`, a `map` field that `Add` updates;
- the `response` table is the class `Marshal.ResponseTable`, which every stage
  mutates through `Call`;
- the header loops, the router-call loop and the request loop are `while` or
  `for` loops.

Each method is proved equal to a function: `Register`, `LoadedConfig`,
`RunPipeline`, `Finalized`, `DispatchOne`, `Answers`. The lemmas are about those functions.

Module layout: `wrappers.dfy` (Option, Result), `utf8.dfy` (UTF-8, for request
and response bodies), `http.dfy` (native requests and responses), `lua.dfy` (the
Lua-side slots and error texts), and then `marshal.dfy`, `finalize.dfy`,
`pipeline.dfy`, `routes.dfy` and `dispatch.dfy`.

The doc comment of `execute_handler_pipeline` (src/main.rs:228-232) says that
`response_hook` always runs after the handler. The code returns at
src/main.rs:323 when the handler fails, before it reaches the hook at line 341.
The model follows the code: `Pipeline.ResponseHookCalledIff` proves that the
hook runs exactly when it exists and the handler did not fail.

## Model

| member | source | states |
|---|---|---|
| Utf8.DecodeIsInverseOfEncode | src/main.rs:265 | `String::from_utf8` yields text `s` exactly when the bytes are the UTF-8 encoding of `s` |
| Utf8.DecodeEncode | src/main.rs:356 | the body bytes `into_bytes` sends decode back to the body text, for every string |
| Utf8.EncodeDecode | src/main.rs:265 | bytes that decode are the encoding of what they decode to |
| Marshal.BodyStringIsText | src/main.rs:265 | the request body string encodes back to the received bytes when they are UTF-8, and is empty otherwise |
| Marshal.HeaderTableNames | src/main.rs:272-275 | a name is in `request.headers` exactly when some native header has that name |
| Marshal.HeaderTableLastWins | src/main.rs:273-274 | the value under a name is the value of the last native header with that name |
| Marshal.MarshalHeaders | src/main.rs:272-275 | the header loop yields the last-write-wins table of the native headers |
| Marshal.RequestViewFields | src/main.rs:268-276 | the request table carries the request's method and target unchanged, the body text or empty, and exactly the native header names |
| Marshal.BuildRequestView | src/main.rs:260-276 | builds, by the loop, the request table of the request |
| Marshal.ResponseTable.constructor | src/main.rs:279-282 | a fresh response table holds status 200, body `""` and an empty headers table |
| Marshal.ResponseTable.Call | src/main.rs:310 | a stage call leaves the table in the state the stage produced from the state it saw, even when it raises, and hands back its error |
| Finalize.TruncateU16 | src/main.rs:354 | `as u16` keeps the value modulo 65536, and leaves a value already in range unchanged |
| Finalize.CollectHeadersMembers | src/main.rs:361-369 | when every pair converts, the loop ends without error, and a header is sent exactly when its pair is in the table and passes the validity test |
| Finalize.CollectHeadersFailureSticks | src/main.rs:362-363 | once a pair has stopped the loop with an error, later entries do not change the result |
| Finalize.CollectHeadersFirstUnreadable | src/main.rs:363 | the first pair in iteration order that does not convert to two strings is the error of the whole finaliser loop |
| Finalize.FinalizedResponse | src/main.rs:348-369 | an unreadable body or headers table is fatal; the status is the stored `i32` as `u16`, or 500 when unreadable; the body decodes to the stored text; the sent headers are exactly the valid pairs |
| Finalize.FinalizeResponse | src/main.rs:347-371 | the finaliser's loop computes the finalised response of the table's current state |
| Pipeline.ExecuteHandlerPipeline | src/main.rs:253-372 | the imperative pipeline returns the outcome and makes the stage calls of the pipeline function `RunPipeline` |
| Pipeline.LoadFailuresAreFatal | src/main.rs:260-304 | a failed body read, an unreadable script and a script that does not return a table each fail the pipeline with their own error, and no stage is called |
| Pipeline.CallsInOrderAtMostOnce | src/main.rs:308-345 | each stage is called at most once, and the stages called come in the order middleware, handler, response hook |
| Pipeline.CallsSeeFreshState | src/main.rs:279-287 | the first stage called sees the fresh response state, and every stage is handed this request's table |
| Pipeline.NonUtf8BodyReadsAsEmpty | src/main.rs:265 | a request whose body is not UTF-8 is handled exactly as the same request with an empty body |
| Pipeline.HandlerCalledIff | src/main.rs:315-332 | the handler is called exactly when the module has one and the status after the middleware reads as 200 or does not read as an `i32` |
| Pipeline.MiddlewareIntercepts | src/main.rs:315-338 | a middleware that leaves an `i32` status other than 200 keeps the handler from running |
| Pipeline.HandlerErrorIsFatal | src/main.rs:320-324 | a failing handler fails the pipeline with its own error text, its call is the last call, and the response hook is not called |
| Pipeline.ResponseHookCalledIff | src/main.rs:322-345 | the response hook is called exactly when the module has one and the handler did not fail |
| Pipeline.MiddlewareMutationsSurvive | src/main.rs:309-316 | the middleware's call, when it has one, comes first, and the next call is to another stage and sees the state the middleware left, whether or not the middleware raised |
| Pipeline.NonFatalStageErrors | src/main.rs:309-345 | for every module, whichever stages it has, errors from the middleware and from the response hook change nothing: the run equals the run with the same stages (absent ones staying absent) made silent |
| Pipeline.StateThreadsThroughCalls | src/main.rs:279-348 | each stage called sees the state the previous one left, starting from the fresh state, and a pipeline that gets past the handler finalises the state the last stage left |
| Pipeline.HandlerSetsResponse | src/main.rs:318-371 | a lone handler that sets status 201, a body text and one valid header yields exactly the native response with that status, that header and the text's UTF-8 bytes |
| Routes.Router.constructor | src/main.rs:68 | the route table starts empty |
| Routes.Router.Add | src/main.rs:175-191 | `router.add` fails with `Handler script not found: scripts/<script>` and leaves the table unchanged when the file is missing; otherwise it maps the path to `scripts/<script>` and changes no other key |
| Routes.RegisterOver | src/main.rs:175-191 | what registration writes does not depend on the entries already present: over `base + routes` it yields `base` overlaid with its result over `routes`, and the same error |
| Routes.RegisterIdempotent | src/main.rs:189 | running the same router calls a second time over their own result changes neither the table nor the error |
| Routes.RegisterFailsAtFirstMissingScript | src/main.rs:180-186 | the first `router.add` whose script is missing is the error of the whole registration |
| Routes.RegisterSucceeds | src/main.rs:180-190 | when every added script exists, registration raises no error |
| Routes.RegisterKeepsOtherPaths | src/main.rs:189 | a path no call adds keeps its previous entry, or stays absent |
| Routes.RegisterLastWins | src/main.rs:189 | the last `router.add` of a path decides its script |
| Routes.LoadConfig | src/main.rs:164-212 | loading the configuration leaves the table and the result `load_lua_config` yields: an unreadable file, a failing add and a script error are errors; otherwise the result is `SERVER_ADDR` |
| Routes.ResolveServerAddr | src/main.rs:71-86 | the bind address is the first CLI argument when there is one, else the configured `SERVER_ADDR`, else `0.0.0.0:8000` |
| Routes.Startup | src/main.rs:68-92 | startup stops with the configuration's error, or yields the bind address chosen by precedence, with the routes the configuration registered |
| Routes.MissingScriptStopsStartup | src/main.rs:180-186 | a configuration whose first missing script is at call `i` stops startup with that script's `Handler script not found` error |
| Routes.ReloadIdempotent | src/main.rs:189 | loading the same configuration again over the routes it produced changes neither the routes nor the result |
| Dispatch.HandleRequest | src/main.rs:104-130 | answering one request yields the response and stage calls of `DispatchOne` |
| Dispatch.Serve | src/main.rs:103-131 | the request loop's answers are the answers to the requests, each dispatched on its own against the same route table and against the script files as they read while that request is handled |
| Dispatch.AnswersAt | src/main.rs:103-131 | the answer at position `i` depends only on request `i` and the script files as they read for it: nothing an earlier request did carries over, only the route table, which no request changes, is shared |
| Dispatch.UnroutedIsNotFound | src/main.rs:124-129 | a target that is not a key gets status 404, body `404 Not Found`, and no stage runs |
| Dispatch.ExactMatchOnly | src/main.rs:104-106 | `/hello/` and `/hello?name=x` are not routed by a table that holds `/hello` |
| Dispatch.RoutedRunsItsScript | src/main.rs:106-123 | a target that is a key runs that key's script; its response is the answer, or a failure becomes status 500 with body `Server Error: <error>` |
| Dispatch.HandlerErrorAnswers500 | src/main.rs:115-118 | a failing handler is answered with status 500, the handler's error text in the body, and no response hook call |
| Dispatch.RegisteredPathRunsScript | src/main.rs:106-109 | after a configuration whose scripts all exist, the path of the last `router.add` naming it maps to `scripts/<script>` of that add, and a request for it gets exactly the exchange (response and stage calls) of running that script |

## Left out

- Lua evaluation: a stage is a total function of the request table and the response state. A stage that loops forever, or that touches Lua state other than the `response` table, is not modelled.
- The top-level code of a handler script runs while it is evaluated (src/main.rs:298-301), and it can already see `request` and `response`. The model assumes evaluation leaves the response table as it was.
- The stages share the `request` table and the module table, and can change them; the model gives every stage the request as it was built.
- Lua value conversions are abstracted into slot shapes: a status that reads as an integer or not, a body that reads as a string or not, and a header entry that converts to two strings or not. The texts of mlua's conversion errors are opaque `detail` strings.
- The order of the header pairs is the order Lua's `pairs` yields, which is an input. The lemmas about headers state membership, not order.
- Errors from creating or setting Lua tables (the `?` at src/main.rs:268-287, 172-202) are not modelled: allocation does not fail.
- A failing `router.add` raises a Lua error. The model assumes that `config.lua` does not catch it with `pcall`, so no later router call is made.
- Mutex locking is not modelled: the lock failure in `router.add` (src/main.rs:176-178) and a poisoned lock at src/main.rs:96 and 106. The model is single-threaded.
- tiny_http is not modelled, because it is I/O:
  - binding the socket (`Server::http`, src/main.rs:99);
  - accepting requests; the endless loop is modelled as a finite sequence of requests, each with the script files as they read while it is handled;
  - errors from `respond`, which are only logged;
- `add_header`'s own handling of special headers and the default `Content-Type` that `from_string` adds are not modelled. A response's headers are the ones the host passes to `add_header`.
- Reading the request body is an input (`BodyRead`), as are the filesystem and the header parser's validity test.
- Logging (`println!`, `eprintln!`) is not modelled, and neither is `router.set_addr`, which only logs.
