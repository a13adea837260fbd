/** The request/response marshaller of `execute_handler_pipeline`
    (src/main.rs:259-282): the `request` table built from the native request,
    and the `response` table the three stages mutate in place. */
module Marshal {
  import opened Wrappers
  import Utf8
  import Http
  import opened Lua

  /** `String::from_utf8(bytes).unwrap_or_default()` (src/main.rs:265). */
  function BodyString(bytes: seq<Utf8.byte>): string {
    Utf8.Decode(bytes).GetOr("")
  }

  /** The body string is the text the bytes encode, and the empty string
      when they are not UTF-8: a body that is not UTF-8 never fails the
      request. */
  lemma BodyStringIsText(bytes: seq<Utf8.byte>)
    ensures Utf8.Decode(bytes).Some? ==> Utf8.Encode(BodyString(bytes)) == bytes
    ensures Utf8.Decode(bytes).None? ==> BodyString(bytes) == ""
  {
    if Utf8.Decode(bytes).Some? {
      Utf8.EncodeDecode(bytes);
    }
  }

  /** The `request.headers` table after setting every native header in
      arrival order: a later header with the same name overwrites an
      earlier one. */
  function HeaderTable(hs: seq<Http.Header>): map<string, string>
  {
    if hs == [] then map[]
    else HeaderTable(hs[..|hs| - 1])[hs[|hs| - 1].field := hs[|hs| - 1].value]
  }

  /** The names in the table are the names of the native headers. */
  lemma {:induction false} HeaderTableNames(hs: seq<Http.Header>, name: string)
    ensures name in HeaderTable(hs) <==> exists i :: 0 <= i < |hs| && hs[i].field == name
  {
    if hs != [] {
      var init := hs[..|hs| - 1];
      HeaderTableNames(init, name);
      if name in HeaderTable(init) {
        var i :| 0 <= i < |init| && init[i].field == name;
        assert hs[i].field == name;
      }
      if exists i :: 0 <= i < |hs| && hs[i].field == name {
        var i :| 0 <= i < |hs| && hs[i].field == name;
        if i < |init| { assert init[i].field == name; }
      }
    }
  }

  /** Last write wins: the value under a name is the value of the last
      native header with that name. */
  lemma {:induction false} HeaderTableLastWins(hs: seq<Http.Header>, i: nat)
    requires i < |hs|
    requires forall j :: i < j < |hs| ==> hs[j].field != hs[i].field
    ensures hs[i].field in HeaderTable(hs) && HeaderTable(hs)[hs[i].field] == hs[i].value
  {
    if i < |hs| - 1 {
      var init := hs[..|hs| - 1];
      HeaderTableLastWins(init, i);
    }
  }

  /** The header loop of src/main.rs:272-275. */
  method MarshalHeaders(hs: seq<Http.Header>) returns (table: map<string, string>)
    ensures table == HeaderTable(hs)
  {
    table := map[];
    var i := 0;
    while i < |hs|
      invariant 0 <= i <= |hs|
      invariant table == HeaderTable(hs[..i])
    {
      assert hs[..i + 1][..i] == hs[..i];
      table := table[hs[i].field := hs[i].value];
      i := i + 1;
    }
    assert hs[..|hs|] == hs;
  }

  /** The `request` table for a request whose body read as `bytes`. */
  function RequestViewOf(req: Http.Request, bytes: seq<Utf8.byte>): RequestView {
    RequestView(req.requestMethod, req.url, BodyString(bytes), HeaderTable(req.headers))
  }

  /** The request table holds the request's method and its target exactly as
      received, a body that is the request's text or empty, and a header for
      each native header name, holding the last value sent under it. */
  lemma RequestViewFields(req: Http.Request, bytes: seq<Utf8.byte>, name: string)
    ensures RequestViewOf(req, bytes).requestMethod == req.requestMethod
    ensures RequestViewOf(req, bytes).path == req.url
    ensures Utf8.Decode(bytes).None? ==> RequestViewOf(req, bytes).body == ""
    ensures Utf8.Decode(bytes).Some? ==> Utf8.Encode(RequestViewOf(req, bytes).body) == bytes
    ensures name in RequestViewOf(req, bytes).headers <==> exists i :: 0 <= i < |req.headers| && req.headers[i].field == name
  {
    BodyStringIsText(bytes);
    HeaderTableNames(req.headers, name);
  }

  /** Building the `request` table (src/main.rs:260-276), the body already read. */
  method BuildRequestView(req: Http.Request, bytes: seq<Utf8.byte>) returns (view: RequestView)
    ensures view == RequestViewOf(req, bytes)
  {
    var bodyString := BodyString(bytes);
    var headers := MarshalHeaders(req.headers);
    view := RequestView(req.requestMethod, req.url, bodyString, headers);
  }

  /** The state a fresh `response` table starts in (src/main.rs:279-282). */
  function FreshResponse(): ResponseFields {
    ResponseFields(Integer(200), Text(""), Table([]))
  }

  /** The `response` table: created once per request and mutated in place
      by every stage that runs. */
  class ResponseTable {
    var status: StatusSlot
    var body: BodySlot
    var headers: HeadersSlot

    function Fields(): ResponseFields
      reads this
    {
      ResponseFields(status, body, headers)
    }

    constructor ()
      ensures Fields() == FreshResponse()
    {
      status := Integer(200);
      body := Text("");
      headers := Table([]);
    }

    /** `stage.call((req_table, res_table))`: the stage sees the table as it
        is and leaves every mutation it made, whether or not it raised an
        error; the error is handed back to the caller. */
    method Call(stage: Stage, view: RequestView) returns (error: Option<string>)
      modifies this
      ensures Fields() == stage(view, old(Fields())).state
      ensures error == stage(view, old(Fields())).error
    {
      var result := stage(view, Fields());
      status, body, headers := result.state.status, result.state.body, result.state.headers;
      error := result.error;
    }
  }
}
