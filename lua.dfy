/** The interface to the embedded Lua interpreter, reduced to values.

    The interpreter is not modelled. What the server reads back out of the
    `response` table is modelled by what each of its three slots can hold as
    far as the host's conversions (`get::<i32>`, `get::<String>`,
    `get::<LuaTable>`, `pairs::<String, String>`) are concerned; a stage of a
    handler script is a total function from the request view and the
    response state it is handed to the response state it leaves behind and
    the error it raised, if any. */
module Lua {
  import opened Wrappers

  const I32Min: int := -0x8000_0000
  const I32Max: int := 0x7FFF_FFFF

  /** `response.status`: a value Lua converts to the integer `n`, or a
      value (nil, a table, a non-numeric string, ...) that it cannot. */
  datatype StatusSlot = Integer(n: int) | NotInteger

  /** `response.body`: a value that converts to a Rust `String`, or one that
      does not, with the conversion error's text. */
  datatype BodySlot = Text(text: string) | NotText(detail: string)

  /** One key/value pair of the `response.headers` table, as `pairs` yields
      it: both sides convert to strings, or at least one does not. */
  datatype HeaderEntry = Pair(key: string, value: string) | NotStringPair(detail: string)

  /** `response.headers`: a table, whose pairs are listed in the order the
      interpreter's `pairs` visits them (Lua leaves that order unspecified),
      or a value that is not a table. */
  datatype HeadersSlot = Table(entries: seq<HeaderEntry>) | NotTable(detail: string)

  /** The response state scripts mutate: the `response` table. */
  datatype ResponseFields = ResponseFields(status: StatusSlot, body: BodySlot, headers: HeadersSlot)

  /** `res_table.get::<i32>("status")`: the integer when the slot holds one
      that fits in an `i32`, and nothing otherwise. */
  function ReadStatus(s: StatusSlot): (r: Option<int>)
    ensures r.Some? ==> I32Min <= r.value <= I32Max
  {
    if s.Integer? && I32Min <= s.n <= I32Max then Some(s.n) else None
  }

  /** The `request` table: method, request target, body and headers. */
  datatype RequestView = RequestView(requestMethod: string, path: string, body: string, headers: map<string, string>)

  /** What a call into a stage leaves behind: the response state, with
      every mutation the stage made before it finished or failed, and the
      error it raised, if it raised one (its display text). */
  datatype StageResult = StageResult(state: ResponseFields, error: Option<string>)

  /** A `middleware`, `handler` or `response_hook` function. */
  type Stage = (RequestView, ResponseFields) -> StageResult

  /** The table a handler script returns. A member that is missing, or is
      not a function, reads as None (`get::<LuaFunction>` fails). */
  datatype HandlerModule = HandlerModule(middleware: Option<Stage>, handler: Option<Stage>, responseHook: Option<Stage>)

  /** Reading and evaluating a handler script (src/main.rs:290-304): the
      file cannot be read, it does not evaluate to a table, or it yields a
      handler module. */
  datatype ScriptLoad = Unreadable(detail: string) | NotATable(detail: string) | Module(handlers: HandlerModule)

  /** The fatal errors of one pipeline run (`LuaError`). */
  datatype Error =
    | BodyReadFailed(detail: string)                  // src/main.rs:264
    | ScriptReadFailed(path: string, detail: string)  // src/main.rs:290-295
    | ScriptNotATable(detail: string)                 // src/main.rs:301-304
    | HandlerFailed(message: string)                  // src/main.rs:322-323
    | BodyUnreadable(detail: string)                  // src/main.rs:349-351
    | HeadersUnreadable(detail: string)               // src/main.rs:361
    | HeaderPairUnreadable(detail: string)            // src/main.rs:363

  /** The error's display text, as the 500 response embeds it. */
  function Message(e: Error): string {
    match e
    case BodyReadFailed(d) => "Failed to read request body: " + d
    case ScriptReadFailed(p, d) => "Failed to read handler script " + p + ": " + d
    case ScriptNotATable(d) => "Handler script failed to return a table: " + d
    case HandlerFailed(m) => m
    case BodyUnreadable(d) => "Failed to get body from response table: " + d
    case HeadersUnreadable(d) => d
    case HeaderPairUnreadable(d) => d
  }
}
