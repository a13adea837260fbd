/** The response finaliser of `execute_handler_pipeline`
    (src/main.rs:347-371): the native response read back out of the
    `response` table once the last stage has run. */
module Finalize {
  import opened Wrappers
  import Utf8
  import Http
  import opened Lua
  import Marshal

  /** Rust's `n as u16` on an `i32`: the low sixteen bits, two's complement.
      Dafny's `%` is Euclidean, so it is exactly that for negative `n` too. */
  function TruncateU16(n: int): (r: Http.u16)
    ensures (r - n) % 0x1_0000 == 0
    ensures 0 <= n < 0x1_0000 ==> r == n
  {
    n % 0x1_0000
  }

  /** The header loop (src/main.rs:361-369) over the pairs of the headers
      table in the order `pairs` yields them: a pair that does not convert
      to two strings ends the loop with an error; a pair the validity test
      refuses is skipped; every other pair is added. */
  function CollectHeaders(entries: seq<HeaderEntry>, valid: Http.HeaderValidity): Result<seq<Http.Header>, Error>
  {
    if entries == [] then Success([])
    else
      match CollectHeaders(entries[..|entries| - 1], valid)
      case Failure(e) => Failure(e)
      case Success(added) =>
        match entries[|entries| - 1]
        case NotStringPair(d) => Failure(HeaderPairUnreadable(d))
        case Pair(k, v) => Success(if valid(k, v) then added + [Http.Header(k, v)] else added)
  }

  /** The native response for a final response state, or the fatal error
      that stops its construction. */
  function Finalized(fields: ResponseFields, valid: Http.HeaderValidity): Result<Http.Response, Error>
  {
    var status := TruncateU16(ReadStatus(fields.status).GetOr(500));
    match fields.body
    case NotText(d) => Failure(BodyUnreadable(d))
    case Text(text) =>
      match fields.headers
      case NotTable(d) => Failure(HeadersUnreadable(d))
      case Table(entries) =>
        match CollectHeaders(entries, valid)
        case Failure(e) => Failure(e)
        case Success(added) => Success(Http.Response(status, added, Utf8.Encode(text)))
  }

  /** Every entry of the table converts: the loop finishes, and a header is
      sent exactly when its pair is in the table and passes the validity
      test. Pairs that fail it are dropped without stopping the loop. */
  lemma {:induction false} CollectHeadersMembers(entries: seq<HeaderEntry>, valid: Http.HeaderValidity, k: string, v: string)
    requires forall i :: 0 <= i < |entries| ==> entries[i].Pair?
    ensures CollectHeaders(entries, valid).Success?
    ensures Http.Header(k, v) in CollectHeaders(entries, valid).value <==> Pair(k, v) in entries && valid(k, v)
  {
    if entries != [] {
      var init := entries[..|entries| - 1];
      CollectHeadersMembers(init, valid, k, v);
      assert entries == init + [entries[|entries| - 1]];
    }
  }

  /** Once the loop has stopped with an error, later entries do not matter. */
  lemma {:induction false} CollectHeadersFailureSticks(entries: seq<HeaderEntry>, valid: Http.HeaderValidity, n: nat)
    requires n <= |entries| && CollectHeaders(entries[..n], valid).Failure?
    ensures CollectHeaders(entries, valid) == CollectHeaders(entries[..n], valid)
  {
    if n < |entries| {
      var init := entries[..|entries| - 1];
      assert init[..n] == entries[..n];
      CollectHeadersFailureSticks(init, valid, n);
    } else {
      assert entries[..n] == entries;
    }
  }

  /** An entry that does not convert to two strings is fatal: the first such
      entry, in iteration order, is the error. */
  lemma {:induction false} CollectHeadersFirstUnreadable(entries: seq<HeaderEntry>, valid: Http.HeaderValidity, i: nat)
    requires i < |entries| && entries[i].NotStringPair?
    requires forall j :: 0 <= j < i ==> entries[j].Pair?
    ensures CollectHeaders(entries, valid) == Failure(HeaderPairUnreadable(entries[i].detail))
  {
    var init := entries[..|entries| - 1];
    if i == |entries| - 1 {
      assert forall j :: 0 <= j < |init| ==> init[j].Pair?;
      CollectHeadersMembers(init, valid, "", "");
    } else {
      CollectHeadersFirstUnreadable(init, valid, i);
    }
  }

  /** What the finaliser promises: the status is the stored one truncated
      to sixteen bits, or 500 when it cannot be read as an `i32`; the body is
      the stored text; an unreadable body is a fatal error whatever the
      headers hold; and when the headers table converts, the sent headers are
      exactly the valid pairs. */
  lemma FinalizedResponse(fields: ResponseFields, valid: Http.HeaderValidity, k: string, v: string)
    ensures fields.body.NotText? ==> Finalized(fields, valid) == Failure(BodyUnreadable(fields.body.detail))
    ensures fields.body.Text? && fields.headers.NotTable? ==>
              Finalized(fields, valid) == Failure(HeadersUnreadable(fields.headers.detail))
    ensures Finalized(fields, valid).Success? ==>
              && Finalized(fields, valid).value.status == TruncateU16(ReadStatus(fields.status).GetOr(500))
              && Utf8.Decode(Finalized(fields, valid).value.body) == Some(fields.body.text)
    ensures ReadStatus(fields.status).None? && Finalized(fields, valid).Success? ==>
              Finalized(fields, valid).value.status == 500
    ensures fields.body.Text? && fields.headers.Table? && (forall i :: 0 <= i < |fields.headers.entries| ==> fields.headers.entries[i].Pair?) ==>
              && Finalized(fields, valid).Success?
              && (Http.Header(k, v) in Finalized(fields, valid).value.headers <==> Pair(k, v) in fields.headers.entries && valid(k, v))
  {
    if fields.body.Text? {
      Utf8.DecodeEncode(fields.body.text);
      if fields.headers.Table? && forall i :: 0 <= i < |fields.headers.entries| ==> fields.headers.entries[i].Pair? {
        CollectHeadersMembers(fields.headers.entries, valid, k, v);
      }
    }
  }

  /** The finaliser as the source runs it: reads the three slots of the
      table and adds the headers one by one. */
  method FinalizeResponse(res: Marshal.ResponseTable, valid: Http.HeaderValidity) returns (r: Result<Http.Response, Error>)
    ensures r == Finalized(res.Fields(), valid)
  {
    var finalStatus := ReadStatus(res.status).GetOr(500);
    if res.body.NotText? {
      return Failure(BodyUnreadable(res.body.detail));
    }
    var bodyBytes := Utf8.Encode(res.body.text);
    if res.headers.NotTable? {
      return Failure(HeadersUnreadable(res.headers.detail));
    }
    var entries := res.headers.entries;
    var added: seq<Http.Header> := [];
    var i := 0;
    while i < |entries|
      invariant 0 <= i <= |entries|
      invariant CollectHeaders(entries[..i], valid) == Success(added)
    {
      assert entries[..i + 1][..i] == entries[..i];
      match entries[i] {
        case NotStringPair(d) =>
          CollectHeadersFailureSticks(entries, valid, i + 1);
          return Failure(HeaderPairUnreadable(d));
        case Pair(k, v) =>
          if valid(k, v) {
            added := added + [Http.Header(k, v)];
          }
      }
      i := i + 1;
    }
    assert entries[..i] == entries;
    r := Success(Http.Response(TruncateU16(finalStatus), added, bodyBytes));
  }
}
