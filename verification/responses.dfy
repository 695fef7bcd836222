/** The observable steps of handling one request, and the mapping from a Go
    `error` to an HTTP error response (`ResponseError`, plumbus.go:111-118). */
module Responses {
  import opened Protocol

  /** One step of a request's handling, in the order it happens. */
  datatype Event =
    | DecodeBody(index: nat)                // JSON-decode the request body into parameter `index`
    | Extract(index: nat)                   // run `FromRequest` to populate parameter `index`
    | CallHandler(args: seq<Arg>)           // invoke the handler with these arguments
    | ToResponse(index: nat)                // run `ToResponse` on result `index`
    | EncodeBody(result: Output)            // JSON-encode the body result into the response
    | LogError(text: string)                // write an error's text to the server log only
    | WriteError(status: int, body: string) // `http.Error`: set the status, write a plain-text body

  /** The pipeline stage an event belongs to: binding the arguments, the call,
      the `ToResponse` results, the body, and the error response. */
  function Stage(e: Event): nat {
    match e
    case DecodeBody(_) => 0
    case Extract(_) => 0
    case CallHandler(_) => 1
    case ToResponse(_) => 2
    case EncodeBody(_) => 3
    case LogError(_) => 4
    case WriteError(_, _) => 4
  }

  /** A trace never returns to an earlier stage. */
  predicate InStageOrder(t: seq<Event>) {
    forall i, j :: 0 <= i < j < |t| ==> Stage(t[i]) <= Stage(t[j])
  }

  /** Nothing happens after an error response is written, so there is at most one. */
  predicate ErrorLast(t: seq<Event>) {
    forall i :: 0 <= i < |t| && t[i].WriteError? ==> i == |t| - 1
  }

  /** The trace ends with an error response. */
  predicate EndsWithError(t: seq<Event>) {
    |t| > 0 && t[|t| - 1].WriteError?
  }

  /** The trace writes no error response at all. */
  predicate NoError(t: seq<Event>) {
    forall i :: 0 <= i < |t| ==> !t[i].WriteError?
  }

  /** The handler was invoked. */
  predicate Called(t: seq<Event>) {
    exists i :: 0 <= i < |t| && t[i].CallHandler?
  }

  /** Some `ToResponse` or body encoding took place. */
  predicate WroteResults(t: seq<Event>) {
    exists i :: 0 <= i < |t| && (t[i].ToResponse? || t[i].EncodeBody?)
  }

  /** The body result was encoded. */
  predicate Encoded(t: seq<Event>) {
    exists i :: 0 <= i < |t| && t[i].EncodeBody?
  }

  lemma EncodedAppend(a: seq<Event>, b: seq<Event>)
    ensures Encoded(a + b) <==> Encoded(a) || Encoded(b)
  {
    if Encoded(a + b) {
      var i :| 0 <= i < |a + b| && (a + b)[i].EncodeBody?;
      if i >= |a| {
        assert b[i - |a|] == (a + b)[i];
      }
    }
    if Encoded(a) {
      var i :| 0 <= i < |a| && a[i].EncodeBody?;
      assert (a + b)[i] == a[i];
    }
    if Encoded(b) {
      var i :| 0 <= i < |b| && b[i].EncodeBody?;
      assert (a + b)[i + |a|] == b[i];
    }
  }

  /** `ResponseError`: an `HTTPError` is answered with its own status code and
      its own text; any other error is logged and answered with a bare 500, so
      its text never reaches the client. */
  function ResponseError(err: Error): (t: seq<Event>)
    ensures EndsWithError(t) && ErrorLast(t) && InStageOrder(t)
    ensures err.StatusError? ==> t[|t| - 1] == WriteError(err.code, err.text)
    ensures err.PlainError? ==> t[|t| - 1] == WriteError(StatusInternalServerError, "")
    ensures forall i :: 0 <= i < |t| && t[i].LogError? ==> err.PlainError? && t[i].text == err.text
    ensures err.PlainError? ==> t[0] == LogError(err.text)
    ensures !Called(t) && !WroteResults(t)
  {
    match err
    case StatusError(code, text) => [WriteError(code, text)]
    case PlainError(text) => [LogError(text), WriteError(StatusInternalServerError, "")]
  }

  /** The client cannot tell two plain errors apart: whatever their texts, the
      response written is the same. */
  lemma PlainErrorsLookAlike(a: string, b: string)
    ensures ResponseError(PlainError(a))[|ResponseError(PlainError(a))| - 1]
         == ResponseError(PlainError(b))[|ResponseError(PlainError(b))| - 1]
  {
  }

  /** Stage order and a final error survive concatenation when the stages meet
      in order and the first part writes no error. */
  lemma OrderedAppend(a: seq<Event>, b: seq<Event>)
    requires InStageOrder(a) && InStageOrder(b)
    requires forall i, j :: 0 <= i < |a| && 0 <= j < |b| ==> Stage(a[i]) <= Stage(b[j])
    requires NoError(a) && ErrorLast(b)
    ensures InStageOrder(a + b) && ErrorLast(a + b)
  {
    var t := a + b;
    forall i, j | 0 <= i < j < |t|
      ensures Stage(t[i]) <= Stage(t[j])
    {
      if j < |a| {
      } else if i >= |a| {
        assert t[i] == b[i - |a|] && t[j] == b[j - |a|];
      } else {
        assert t[i] == a[i] && t[j] == b[j - |a|];
      }
    }
    forall i | |a| <= i < |t|
      ensures t[i] == b[i - |a|]
    {
    }
  }

  /** The same for one leading event that is not an error response and whose
      stage comes no later than any of what follows; the whole trace then
      starts no earlier than that event's stage. */
  lemma PrependOrdered(e: Event, b: seq<Event>)
    requires InStageOrder(b) && ErrorLast(b) && !e.WriteError?
    requires forall k :: 0 <= k < |b| ==> Stage(e) <= Stage(b[k])
    ensures InStageOrder([e] + b) && ErrorLast([e] + b)
    ensures forall k :: 0 <= k < |[e] + b| ==> Stage(e) <= Stage(([e] + b)[k])
  {
    var t := [e] + b;
    forall k | 1 <= k < |t|
      ensures t[k] == b[k - 1]
    {
    }
  }
}
