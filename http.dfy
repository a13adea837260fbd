/** The values exchanged with the HTTP server library (`tiny_http`): the
    incoming request as the dispatch loop sees it and the outgoing response.
    The library itself (sockets, wire parsing, delivery) is not modelled. */
module Http {
  import Utf8

  /** Rust's `u16`, the type of `tiny_http::StatusCode`. */
  type u16 = n: int | 0 <= n < 0x1_0000

  datatype Header = Header(field: string, value: string)

  /** The outcome of `request.as_reader().read_to_end(..)`. */
  datatype BodyRead = Received(bytes: seq<Utf8.byte>) | ReadFailed(detail: string)

  /** An incoming request: its method, its request target exactly as
      received (`request.url()`, query string included), its headers in
      arrival order, and the outcome of reading its body. */
  datatype Request = Request(requestMethod: string, url: string, headers: seq<Header>, body: BodyRead)

  /** An outgoing response: status code, the headers the server added, in
      the order it added them, and the body bytes. */
  datatype Response = Response(status: u16, headers: seq<Header>, body: seq<Utf8.byte>)

  /** Whether `Header::from_bytes(name, value)` accepts a pair; the library's
      rules are not modelled, so the model takes them as a parameter. */
  type HeaderValidity = (string, string) -> bool

  /** `Response::from_string(text).with_status_code(status)`. */
  function FromString(text: string, status: u16): Response {
    Response(status, [], Utf8.Encode(text))
  }

  /** The fixed answer for a request target that is not in the route table
      (src/main.rs:126). */
  function NotFound(): Response {
    FromString("404 Not Found", 404)
  }

  /** The answer for a fatal pipeline error; the error text is sent to the
      client (src/main.rs:117-118). */
  function ServerError(message: string): Response {
    FromString("Server Error: " + message, 500)
  }
}
