/** The route table and the configuration loader (`load_lua_config`,
    src/main.rs:164-212), and the choice of the bind address in `main`
    (src/main.rs:68-92). */
module Routes {
  import opened Wrappers

  const DefaultServerAddr: string := "0.0.0.0:8000"
  const ScriptsDir: string := "scripts"

  /** `format!("{}/{}", LUA_SCRIPTS_DIR, script)`: no normalisation. */
  function ScriptPath(script: string): string {
    ScriptsDir + "/" + script
  }

  /** Whether `Path::new(path).exists()` holds; the filesystem is a parameter. */
  type ScriptExists = string -> bool

  datatype ConfigError =
    | ConfigUnreadable(detail: string)        // src/main.rs:204
    | HandlerScriptNotFound(fullPath: string) // src/main.rs:181-185
    | ConfigScriptFailed(detail: string)      // src/main.rs:205

  /** The route table, shared by the configuration script's `router.add`
      and the request loop. */
  class Router {
    var routes: map<string, string>

    constructor ()
      ensures routes == map[]
    {
      routes := map[];
    }

    /** `router.add(path, script)` (src/main.rs:175-191): the entry is
        `scripts/<script>`; when that file does not exist the call fails and
        the table is unchanged; otherwise the entry replaces whatever `path`
        held, and no other key changes. */
    method Add(path: string, script: string, present: ScriptExists) returns (error: Option<ConfigError>)
      modifies this
      ensures present(ScriptPath(script)) ==> error == None && routes == old(routes)[path := ScriptPath(script)]
      ensures !present(ScriptPath(script)) ==> error == Some(HandlerScriptNotFound(ScriptPath(script))) && routes == old(routes)
    {
      var fullScriptPath := ScriptPath(script);
      if !present(fullScriptPath) {
        return Some(HandlerScriptNotFound(fullScriptPath));
      }
      routes := routes[path := fullScriptPath];
      error := None;
    }
  }

  /** A call the configuration script makes into the `router` table.
      `router.set_addr` only logs (src/main.rs:194-200). */
  datatype RouterCall = AddRoute(path: string, script: string) | SetAddr(addr: string)

  /** What running `config.lua` amounts to for the host: the router calls
      it makes, in order; the error it raises after its last call, if it
      raises one of its own; and the value of its global `SERVER_ADDR`
      when that reads as a string. */
  datatype ConfigScript = ConfigScript(calls: seq<RouterCall>, failure: Option<string>, serverAddr: Option<string>)

  /** `fs::read_to_string("config.lua")`: unreadable, or the script. */
  datatype ConfigSource = Unreadable(detail: string) | Readable(script: ConfigScript)

  /** The table after a sequence of router calls and the error that stopped
      them, if any. A failing `router.add` raises a Lua error in the script,
      so no later call is made. */
  datatype Registration = Registration(routes: map<string, string>, error: Option<ConfigError>)

  function Register(routes: map<string, string>, calls: seq<RouterCall>, present: ScriptExists): Registration
    decreases calls
  {
    if calls == [] then Registration(routes, None)
    else
      match calls[0]
      case SetAddr(_) => Register(routes, calls[1..], present)
      case AddRoute(p, s) =>
        if present(ScriptPath(s)) then Register(routes[p := ScriptPath(s)], calls[1..], present)
        else Registration(routes, Some(HandlerScriptNotFound(ScriptPath(s))))
  }

  /** What registration does to a table depends on the table only through
      the keys the calls do not write. */
  lemma {:induction false} RegisterOver(base: map<string, string>, routes: map<string, string>, calls: seq<RouterCall>, present: ScriptExists)
    ensures Register(base + routes, calls, present) ==
              Registration(base + Register(routes, calls, present).routes, Register(routes, calls, present).error)
    decreases calls
  {
    if calls != [] {
      match calls[0]
      case SetAddr(_) =>
        RegisterOver(base, routes, calls[1..], present);
      case AddRoute(p, s) =>
        if present(ScriptPath(s)) {
          assert (base + routes)[p := ScriptPath(s)] == base + routes[p := ScriptPath(s)];
          RegisterOver(base, routes[p := ScriptPath(s)], calls[1..], present);
        }
    }
  }

  /** Running the same router calls again on the table they produced
      changes nothing: duplicates overwrite, so the final table is the same. */
  lemma RegisterIdempotent(routes: map<string, string>, calls: seq<RouterCall>, present: ScriptExists)
    ensures Register(Register(routes, calls, present).routes, calls, present) == Register(routes, calls, present)
  {
    var added := Register(map[], calls, present);
    RegisterOver(routes, map[], calls, present);
    assert routes + map[] == routes;
    var once := Register(routes, calls, present);
    RegisterOver(once.routes, map[], calls, present);
    assert once.routes + map[] == once.routes;
    assert once.routes + added.routes == routes + added.routes + added.routes;
  }

  /** A `router.add` whose script is missing makes registration fail, at
      the first such call: its error names that script's path. */
  lemma {:induction false} RegisterFailsAtFirstMissingScript(routes: map<string, string>, calls: seq<RouterCall>, present: ScriptExists, i: nat)
    requires i < |calls| && calls[i].AddRoute? && !present(ScriptPath(calls[i].script))
    requires forall j :: 0 <= j < i && calls[j].AddRoute? ==> present(ScriptPath(calls[j].script))
    ensures Register(routes, calls, present).error == Some(HandlerScriptNotFound(ScriptPath(calls[i].script)))
    decreases calls
  {
    if i > 0 {
      var next := if calls[0].AddRoute? then routes[calls[0].path := ScriptPath(calls[0].script)] else routes;
      RegisterFailsAtFirstMissingScript(next, calls[1..], present, i - 1);
    }
  }

  /** When every script exists, registration succeeds. */
  lemma {:induction false} RegisterSucceeds(routes: map<string, string>, calls: seq<RouterCall>, present: ScriptExists)
    requires forall j :: 0 <= j < |calls| && calls[j].AddRoute? ==> present(ScriptPath(calls[j].script))
    ensures Register(routes, calls, present).error == None
    decreases calls
  {
    if calls != [] {
      var next := if calls[0].AddRoute? then routes[calls[0].path := ScriptPath(calls[0].script)] else routes;
      assert forall j :: 0 <= j < |calls[1..]| ==> calls[1..][j] == calls[j + 1];
      RegisterSucceeds(next, calls[1..], present);
    }
  }

  /** A path no `router.add` names keeps its entry, or its absence. */
  lemma {:induction false} RegisterKeepsOtherPaths(routes: map<string, string>, calls: seq<RouterCall>, present: ScriptExists, path: string)
    requires forall j :: 0 <= j < |calls| && calls[j].AddRoute? ==> calls[j].path != path
    ensures path in Register(routes, calls, present).routes <==> path in routes
    ensures path in routes ==> Register(routes, calls, present).routes[path] == routes[path]
    decreases calls
  {
    if calls != [] {
      var next := if calls[0].AddRoute? then routes[calls[0].path := ScriptPath(calls[0].script)] else routes;
      assert forall j :: 0 <= j < |calls[1..]| ==> calls[1..][j] == calls[j + 1];
      RegisterKeepsOtherPaths(next, calls[1..], present, path);
    }
  }

  /** Last write wins: when every script exists, a path maps to the script
      of the last `router.add` that names it. */
  lemma {:induction false} RegisterLastWins(routes: map<string, string>, calls: seq<RouterCall>, present: ScriptExists, i: nat)
    requires forall j :: 0 <= j < |calls| && calls[j].AddRoute? ==> present(ScriptPath(calls[j].script))
    requires i < |calls| && calls[i].AddRoute?
    requires forall j :: i < j < |calls| && calls[j].AddRoute? ==> calls[j].path != calls[i].path
    ensures calls[i].path in Register(routes, calls, present).routes
    ensures Register(routes, calls, present).routes[calls[i].path] == ScriptPath(calls[i].script)
    decreases calls
  {
    var next := if calls[0].AddRoute? then routes[calls[0].path := ScriptPath(calls[0].script)] else routes;
    assert forall j :: 0 <= j < |calls[1..]| ==> calls[1..][j] == calls[j + 1];
    if i == 0 {
      RegisterKeepsOtherPaths(next, calls[1..], present, calls[0].path);
    } else {
      RegisterLastWins(next, calls[1..], present, i - 1);
    }
  }

  /** The outcome of `load_lua_config` from a table: the table it leaves,
      and the configured address or the error. */
  datatype Loaded = Loaded(routes: map<string, string>, result: Result<Option<string>, ConfigError>)

  function LoadedConfig(routes: map<string, string>, source: ConfigSource, present: ScriptExists): Loaded {
    match source
    case Unreadable(d) => Loaded(routes, Failure(ConfigUnreadable(d)))
    case Readable(script) =>
      var reg := Register(routes, script.calls, present);
      if reg.error.Some? then Loaded(reg.routes, Failure(reg.error.value))
      else if script.failure.Some? then Loaded(reg.routes, Failure(ConfigScriptFailed(script.failure.value)))
      else Loaded(reg.routes, Success(script.serverAddr))
  }

  /** `load_lua_config` (src/main.rs:164-212): runs the script's router calls
      against the shared table, then reads `SERVER_ADDR`. */
  method LoadConfig(router: Router, source: ConfigSource, present: ScriptExists) returns (result: Result<Option<string>, ConfigError>)
    modifies router
    ensures Loaded(router.routes, result) == LoadedConfig(old(router.routes), source, present)
  {
    if source.Unreadable? {
      return Failure(ConfigUnreadable(source.detail));
    }
    var script := source.script;
    var calls := script.calls;
    var i := 0;
    while i < |calls|
      invariant 0 <= i <= |calls|
      invariant Register(old(router.routes), calls, present) == Register(router.routes, calls[i..], present)
    {
      match calls[i] {
        case SetAddr(_) =>
          // only logged
        case AddRoute(path, name) =>
          var error := router.Add(path, name, present);
          if error.Some? {
            assert Register(old(router.routes), calls, present) == Registration(router.routes, error);
            return Failure(error.value);
          }
      }
      i := i + 1;
    }
    if script.failure.Some? {
      return Failure(ConfigScriptFailed(script.failure.value));
    }
    result := Success(script.serverAddr);
  }

  /** The address precedence of `main`, as a value. */
  function BindAddress(args: seq<string>, configured: Option<string>): string {
    if |args| > 1 then args[1]
    else if configured.Some? then configured.value
    else DefaultServerAddr
  }

  /** The reassignments of `server_addr` in `main` (src/main.rs:71-86), for
      the process arguments `args` (the program name first) and the address
      the configuration gave: the command-line argument wins, then the
      configured `SERVER_ADDR`, then `0.0.0.0:8000`. */
  method ResolveServerAddr(args: seq<string>, configured: Option<string>) returns (serverAddr: string)
    ensures |args| > 1 ==> serverAddr == args[1]
    ensures |args| <= 1 && configured.Some? ==> serverAddr == configured.value
    ensures |args| <= 1 && configured.None? ==> serverAddr == "0.0.0.0:8000"
    ensures serverAddr == BindAddress(args, configured)
  {
    serverAddr := DefaultServerAddr;
    if |args| > 1 {
      serverAddr := args[1];
    }
    if |args| <= 1 {
      if configured.Some? {
        serverAddr := configured.value;
      }
    }
  }

  /** Start-up up to binding (src/main.rs:68-92): a fresh table filled by
      the configuration script, and the address to bind, or the error that
      makes the process exit before it binds anything. */
  method Startup(args: seq<string>, source: ConfigSource, present: ScriptExists) returns (router: Router, result: Result<string, ConfigError>)
    ensures fresh(router)
    ensures router.routes == LoadedConfig(map[], source, present).routes
    ensures LoadedConfig(map[], source, present).result.Failure? ==>
              result == Failure(LoadedConfig(map[], source, present).result.error)
    ensures LoadedConfig(map[], source, present).result.Success? ==>
              result == Success(BindAddress(args, LoadedConfig(map[], source, present).result.value))
  {
    router := new Router();
    var loaded := LoadConfig(router, source, present);
    if loaded.Failure? {
      return router, Failure(loaded.error);
    }
    var serverAddr := ResolveServerAddr(args, loaded.value);
    result := Success(serverAddr);
  }

  /** A configuration that registers a missing script stops start-up: no
      address is chosen, so nothing is bound. */
  lemma MissingScriptStopsStartup(source: ConfigSource, present: ScriptExists, i: nat)
    requires source.Readable? && i < |source.script.calls|
    requires source.script.calls[i].AddRoute? && !present(ScriptPath(source.script.calls[i].script))
    requires forall j :: 0 <= j < i && source.script.calls[j].AddRoute? ==> present(ScriptPath(source.script.calls[j].script))
    ensures LoadedConfig(map[], source, present).result ==
              Failure(HandlerScriptNotFound(ScriptPath(source.script.calls[i].script)))
  {
    RegisterFailsAtFirstMissingScript(map[], source.script.calls, present, i);
  }

  /** Loading the same configuration again over the table it produced
      changes neither the table nor the result. */
  lemma ReloadIdempotent(source: ConfigSource, present: ScriptExists)
    ensures var once := LoadedConfig(map[], source, present);
            LoadedConfig(once.routes, source, present) == once
  {
    if source.Readable? {
      RegisterIdempotent(map[], source.script.calls, present);
    }
  }
}
