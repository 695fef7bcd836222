/** The per-request pipeline of a dynamically adapted handler
    (`infoToDynamicAdaptor`, plumbus.go:120-183), as the trace of events it
    produces from a plan and the outcomes of the steps it delegates. */
module Dispatch {
  import opened Protocol
  import opened Responses
  import opened Plan

  /** The outcome of building one argument. */
  datatype ArgOutcome = Built(arg: Arg) | Rejected(response: seq<Event>)

  /** The outcome of building the arguments from some index on. */
  datatype Binding = AllBuilt(args: seq<Arg>, events: seq<Event>) | Aborted(events: seq<Event>)

  /** The event that starts the processing of parameter `i`. */
  function Attempt(p: Info, i: nat): (e: Event)
    ensures e.DecodeBody? || e.Extract?
    ensures e.index == i
  {
    if i == p.requestBodyIndex then DecodeBody(i) else Extract(i)
  }

  /** The start events of parameters `lo` up to (not including) `hi`. */
  function Attempts(p: Info, lo: nat, hi: nat): (t: seq<Event>)
    requires lo <= hi
    ensures |t| == hi - lo
    ensures forall k :: 0 <= k < |t| ==> t[k] == Attempt(p, lo + k)
  {
    seq(hi - lo, k requires 0 <= k < hi - lo => Attempt(p, lo + k))
  }

  /** Builds parameter `i`: from the JSON body when it is the body parameter
      (a decoder error answers 400 directly), otherwise through `FromRequest`
      on a fresh value, passed as a pointer when the parameter is one
      (an error goes through `ResponseError`). */
  function BindArg(p: Info, env: Env, i: nat): (r: ArgOutcome)
    requires WellFormed(p) && i < p.inputCount
    ensures r.Rejected? ==> |r.response| > 0
    ensures i == p.requestBodyIndex ==> (r.Built? <==> env.decode.Ok?)
    ensures i == p.requestBodyIndex && env.decode.Ok? ==> r == Built(Val(env.decode.value))
    ensures i == p.requestBodyIndex && env.decode.Fail? ==>
      r == Rejected([WriteError(StatusBadRequest, "error decoding json: " + env.decode.error)])
    ensures i != p.requestBodyIndex ==> (r.Built? <==> env.fromRequest(i).Ok?)
    ensures i != p.requestBodyIndex && env.fromRequest(i).Ok? ==>
      r == Built(if p.isPointer[i] then Ptr(env.fromRequest(i).value) else Val(env.fromRequest(i).value))
    ensures i != p.requestBodyIndex && env.fromRequest(i).Fail? ==> r == Rejected(ResponseError(env.fromRequest(i).error))
  {
    if i == p.requestBodyIndex then
      match env.decode
      case Ok(v) => Built(Val(v))
      case Fail(msg) => Rejected([WriteError(StatusBadRequest, "error decoding json: " + msg)])
    else
      match env.fromRequest(i)
      case Ok(v) => Built(if p.isPointer[i] then Ptr(v) else Val(v))
      case Fail(err) => Rejected(ResponseError(err))
  }

  /** A parameter that cannot be built answers with an error response and
      nothing else: no handler call and no results. */
  lemma BindArgRejection(p: Info, env: Env, i: nat)
    requires WellFormed(p) && i < p.inputCount && BindArg(p, env, i).Rejected?
    ensures var t := BindArg(p, env, i).response;
      EndsWithError(t) && ErrorLast(t) && InStageOrder(t) && !Called(t) && !WroteResults(t)
    ensures var t := BindArg(p, env, i).response;
      forall k :: 0 <= k < |t| ==> Stage(t[k]) == 4
  {
  }

  /** Builds parameters `i` onwards in ascending order, stopping at the first
      one that cannot be built. */
  function BindFrom(p: Info, env: Env, i: nat): (r: Binding)
    requires WellFormed(p) && i <= p.inputCount
    ensures r.AllBuilt? ==> |r.args| == p.inputCount - i
    ensures r.Aborted? ==> EndsWithError(r.events)
    decreases p.inputCount - i
  {
    if i == p.inputCount then AllBuilt([], [])
    else
      match BindArg(p, env, i)
      case Rejected(response) => Aborted([Attempt(p, i)] + response)
      case Built(a) =>
        match BindFrom(p, env, i + 1)
        case Aborted(t) => Aborted([Attempt(p, i)] + t)
        case AllBuilt(args, t) => AllBuilt([a] + args, [Attempt(p, i)] + t)
  }

  /** Building the arguments only starts parameters, until an error response
      ends it. */
  lemma {:induction false} BindFromOrdered(p: Info, env: Env, i: nat)
    requires WellFormed(p) && i <= p.inputCount
    ensures var r := BindFrom(p, env, i); InStageOrder(r.events) && ErrorLast(r.events)
    ensures var r := BindFrom(p, env, i); r.AllBuilt? ==> forall k :: 0 <= k < |r.events| ==> Stage(r.events[k]) == 0
    decreases p.inputCount - i
  {
    if i < p.inputCount {
      BindFromOrdered(p, env, i + 1);
      match BindArg(p, env, i)
      case Rejected(response) =>
        BindArgRejection(p, env, i);
        PrependOrdered(Attempt(p, i), response);
      case Built(a) =>
        PrependOrdered(Attempt(p, i), BindFrom(p, env, i + 1).events);
    }
  }

  /** Once every non-body result has been written: encode the body result,
      if there is one; an encoder error is logged and answered with a bare 500. */
  function Finish(p: Info, env: Env, rs: seq<Output>): (t: seq<Event>)
    requires -1 <= p.responseBodyIndex < |rs|
    ensures p.responseBodyIndex == -1 <==> t == []
    ensures t != [] ==> t[0] == EncodeBody(rs[p.responseBodyIndex])
    ensures ErrorLast(t) && InStageOrder(t)
    ensures forall k :: 0 <= k < |t| ==> Stage(t[k]) >= 3
  {
    if p.responseBodyIndex == -1 then []
    else
      var body := rs[p.responseBodyIndex];
      match env.encode(body)
      case None => [EncodeBody(body)]
      case Some(msg) => [EncodeBody(body), LogError(msg), WriteError(StatusInternalServerError, "")]
  }

  /** Runs `ToResponse` on results `i` onwards, skipping the body result,
      stopping at the first error; then the body. */
  function RespondFrom(p: Info, env: Env, rs: seq<Output>, i: nat): (t: seq<Event>)
    requires -1 <= p.responseBodyIndex < |rs| && i <= |rs|
    ensures forall k :: 0 <= k < |t| && t[k].ToResponse? ==> i <= t[k].index < |rs|
    decreases |rs| - i
  {
    if i == |rs| then Finish(p, env, rs)
    else if i == p.responseBodyIndex then RespondFrom(p, env, rs, i + 1)
    else
      match env.toResponse(i, rs[i])
      case Some(err) => [ToResponse(i)] + ResponseError(err)
      case None => [ToResponse(i)] + RespondFrom(p, env, rs, i + 1)
  }

  /** Writing the results goes `ToResponse` calls, then the body, then at
      most one error response. */
  lemma {:induction false} RespondFromOrdered(p: Info, env: Env, rs: seq<Output>, i: nat)
    requires -1 <= p.responseBodyIndex < |rs| && i <= |rs|
    ensures var t := RespondFrom(p, env, rs, i); ErrorLast(t) && InStageOrder(t)
    ensures var t := RespondFrom(p, env, rs, i); forall k :: 0 <= k < |t| ==> Stage(t[k]) >= 2
    decreases |rs| - i
  {
    if i < |rs| {
      RespondFromOrdered(p, env, rs, i + 1);
      if i != p.responseBodyIndex {
        match env.toResponse(i, rs[i])
        case Some(err) => PrependOrdered(ToResponse(i), ResponseError(err));
        case None => PrependOrdered(ToResponse(i), RespondFrom(p, env, rs, i + 1));
      }
    }
  }

  /** Everything after the handler returns: the trailing error first, then the
      remaining results. */
  function AfterCall(p: Info, env: Env, results: seq<Output>): (t: seq<Event>)
    requires Conforms(p, results)
    ensures p.lastIsError && results[|results| - 1].ErrorOut? ==> t == ResponseError(results[|results| - 1].err)
  {
    if p.lastIsError && results[|results| - 1].ErrorOut? then
      ResponseError(results[|results| - 1].err)
    else
      RespondFrom(p, env, Remaining(p, results), 0)
  }

  lemma AfterCallOrdered(p: Info, env: Env, results: seq<Output>)
    requires Conforms(p, results)
    ensures var t := AfterCall(p, env, results); ErrorLast(t) && InStageOrder(t)
    ensures var t := AfterCall(p, env, results); forall k :: 0 <= k < |t| ==> Stage(t[k]) >= 2
  {
    if !(p.lastIsError && results[|results| - 1].ErrorOut?) {
      RespondFromOrdered(p, env, Remaining(p, results), 0);
    }
  }

  /** The whole pipeline for one request: the stages never go backwards, and
      at most one error response is written, as the very last step. */
  function Serve(p: Info, env: Env): (t: seq<Event>)
    requires WellFormed(p) && HandlerConforms(p, env)
    ensures InStageOrder(t) && ErrorLast(t)
  {
    BindFromOrdered(p, env, 0);
    match BindFrom(p, env, 0)
    case Aborted(t) => t
    case AllBuilt(args, t) =>
      var after := AfterCall(p, env, env.call(args));
      AfterCallOrdered(p, env, env.call(args));
      OrderedAppend(t, [CallHandler(args)]);
      OrderedAppend(t + [CallHandler(args)], after);
      t + [CallHandler(args)] + after
  }
}
